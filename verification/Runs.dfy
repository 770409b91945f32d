/**
 Whole runs. A run is a sequence of events from boot; it ends when the first saved context is handed
 back to kmain (sys_call.c:57-60). The theorems here hold of every run.
 */
module Runs {
  import opened Common
  import opened Pcbs
  import opened Scheduler
  import opened Steps

  /** sys_call finds no process to dispatch and hands the first saved context back. */
  predicate HandsBack(s: State, e: Event) {
    e.ESysCall? && (e.op == IDLE || e.op == EXIT) && Items(s, Ready) == []
  }

  function Last(es: seq<Event>): Event
    requires es != []
  {
    es[|es| - 1]
  }

  function Before(es: seq<Event>): seq<Event>
    requires es != []
  {
    es[..|es| - 1]
  }

  function Loaded(es: seq<Event>): set<Pcb> {
    set i | 0 <= i < |es| && es[i].ELoad? :: es[i].p
  }

  /** What the rest of the system may do: `load` gets memory that no PCB has had (nothing is ever
      freed), and only a process exits. */
  predicate Allowed(es: seq<Event>, s: State, e: Event) {
    && Fits(s, e)
    && (e.ELoad? ==> e.p !in Loaded(es))
    && (e.ESysCall? && e.op == EXIT ==> s.current.Some?)
  }

  /** The state after a run, None when it is not a run. */
  function Run(es: seq<Event>): Option<State>
    decreases |es|
  {
    if es == [] then Some(Boot) else
      var s := Run(Before(es));
      if s.None? || Ended(Before(es)) || !Allowed(Before(es), s.value, Last(es)) then None
      else Step(s.value, Last(es))
  }

  predicate Ended(es: seq<Event>)
    decreases |es|, 1
  {
    es != [] && var s := Run(Before(es)); s.Some? && HandsBack(s.value, Last(es))
  }

  /** The process that a step takes out of the system for good. */
  function Lost(s: State, e: Event): set<Pcb> {
    if e.EDelete? && e.name.Some? && e.name.value != [] then
      var p := Find(s, e.name.value);
      if p.Some? && p.value in s.attr && s.attr[p.value].cls.USER_APP? then {p.value} else {}
    else if e.ESysCall? && e.op == EXIT && s.current.Some? then {s.current.value}
    else {}
  }

  /** The processes deleted or exited in a run. */
  function Gone(es: seq<Event>): set<Pcb>
    decreases |es|
  {
    if es == [] then {} else
      var s := Run(Before(es));
      Gone(Before(es)) + (if s.Some? then Lost(s.value, Last(es)) else {})
  }

  // ------------------------------------------------------------ one step

  /** What a step may do to a process that stays live: its class never changes, a system process that
      is READY and NOT_SUSPENDED stays so, and its saved context becomes ctx. */
  ghost predicate Continues(a: Attributes, a': Attributes, ctx: Context) {
    a'.cls == a.cls && a'.ctx == ctx && (a.cls.SYSTEM_PROCESS? && Home(a) == Ready ==> Home(a') == Ready)
  }

  /** s' has the processes of s except those in lost, and the same dispatcher variables. */
  ghost predicate Keeps(s: State, s': State, lost: set<Pcb>) {
    && s'.current == s.current && s'.initial == s.initial && s'.insertFlag == s.insertFlag
    && s'.attr.Keys == s.attr.Keys - lost
    && forall p :: p in s'.attr ==> Continues(s.attr[p], s'.attr[p], s.attr[p].ctx)
  }

  lemma MoveKeeps(s: State, p: Pcb, a: Attributes)
    requires p in s.attr && Continues(s.attr[p], a, s.attr[p].ctx) && Move(s, p, a).Some?
    ensures Keeps(s, Move(s, p, a).value, {})
  {
  }

  lemma DeleteKeeps(s: State, name: Option<CStr>)
    ensures Keeps(s, Delete(s, name).value, Lost(s, EDelete(name)))
  {
  }

  lemma SetPriorityKeeps(s: State, name: CStr, x: int)
    requires SetPriority(s, name, x).Some?
    ensures Keeps(s, SetPriority(s, name, x).value, {})
  {
    if PriorityCode(s, name, x) == 0 {
      var p := Find(s, name).value;
      if s.attr[p].exec.READY? { MoveKeeps(s, p, s.attr[p].(priority := x)); }
    }
  }

  /** A command other than load keeps the live processes, except the one it deletes, and leaves the
      dispatcher alone. */
  lemma CommandKeeps(s: State, e: Event)
    requires Step(s, e).Some? && !e.ELoad? && !e.ESysCall?
    ensures Keeps(s, Step(s, e).value, Lost(s, e))
  {
    match e
    case EDelete(name) => DeleteKeeps(s, name);
    case ESuspend(name) =>
      if Find(s, name).Some? {
        var p := Find(s, name).value;
        if s.attr[p].cls.USER_APP? && s.attr[p].disp.NOT_SUSPENDED? { MoveKeeps(s, p, s.attr[p].(disp := SUSPENDED)); }
      }
    case EResume(name) =>
      if !BadName(name) && Find(s, name.value).Some? {
        var p := Find(s, name.value).value;
        MoveKeeps(s, p, s.attr[p].(disp := NOT_SUSPENDED));
      }
    case EBlock(name) =>
      if !BadName(name) && Find(s, name.value).Some? {
        var p := Find(s, name.value).value;
        if s.attr[p].cls.USER_APP? { MoveKeeps(s, p, s.attr[p].(exec := BLOCKED)); }
      }
    case EUnblock(name) =>
      if !BadName(name) && Find(s, name.value).Some? {
        var p := Find(s, name.value).value;
        MoveKeeps(s, p, s.attr[p].(exec := READY));
      }
    case ESetPriority(name, x) => SetPriorityKeeps(s, name, x);
  }

  /** The front of the ready queue runs next, on the context it has saved. */
  lemma DispatchShape(s: State)
    requires Items(s, Ready) != [] && Items(s, Ready)[0] in s.attr && Dispatch(s).Some?
    ensures var s', r := Dispatch(s).value.0, Dispatch(s).value.1;
            var next := Items(s, Ready)[0];
            && s'.attr == s.attr && s'.initial == s.initial && s'.current == Some(next)
            && r == s.attr[next].ctx && s'.insertFlag == 0
  {
  }

  lemma ReadyFrontLive(s: State)
    requires Inv(s) && Items(s, Ready) != []
    ensures Items(s, Ready)[0] in s.attr && s.current != Some(Items(s, Ready)[0])
  {
    assert QueueOk(s, Ready, Running(s));
    assert Member(s, Ready, Running(s), Items(s, Ready)[0]);
  }

  /** An IDLE that dispatches: the caller's context is saved and the front of the ready queue runs. */
  lemma IdleKeeps(s: State, ctx: Context)
    requires Inv(s) && Items(s, Ready) != []
    ensures SysCall(s, IDLE, ctx).Some?
    ensures var s', r := SysCall(s, IDLE, ctx).value.0, SysCall(s, IDLE, ctx).value.1;
            var next := Items(s, Ready)[0];
            && next in s.attr && s'.current == Some(next) && r == s.attr[next].ctx && s'.insertFlag == 0
            && s'.initial == (if s.initial.None? then Some(ctx) else s.initial)
            && s'.attr == IdleEntry(s, ctx).attr
  {
    ReadyFrontLive(s);
    SysCallInv(s, IDLE, ctx);
    DispatchShape(IdleEntry(s, ctx));
  }

  /** An EXIT that dispatches: the caller is gone and the front of the ready queue runs. */
  lemma ExitKeeps(s: State, ctx: Context)
    requires Inv(s) && Items(s, Ready) != []
    ensures SysCall(s, EXIT, ctx).Some?
    ensures var s', r := SysCall(s, EXIT, ctx).value.0, SysCall(s, EXIT, ctx).value.1;
            var next := Items(s, Ready)[0];
            && next in s.attr && s'.current == Some(next) && r == s.attr[next].ctx && s'.insertFlag == 0
            && s'.initial == s.initial
            && s'.attr == s.attr - Lost(s, ESysCall(EXIT, ctx))
  {
    ReadyFrontLive(s);
    SysCallInv(s, EXIT, ctx);
    ExitEntryQueued(s);
    DispatchShape(ExitEntry(s));
  }

  function Brought(e: Event): set<Pcb> {
    if e.ELoad? then {e.p} else {}
  }

  function Saves(s: State, e: Event, p: Pcb): Context
    requires p in s.attr
  {
    if e.ESysCall? && e.op == IDLE && s.current == Some(p) then e.ctx else s.attr[p].ctx
  }

  /** What a step does to the set of live processes and to each of them. */
  ghost predicate Follows(s: State, e: Event, attr: map<Pcb, Attributes>) {
    && attr.Keys == s.attr.Keys + Brought(e) - Lost(s, e)
    && (forall p :: p in attr && p in s.attr && p !in Brought(e) ==> Continues(s.attr[p], attr[p], Saves(s, e, p)))
    && (e.ELoad? && e.p in attr ==> attr[e.p] == e.a)
  }

  lemma IdleAttr(s: State, ctx: Context)
    requires Inv(s)
    ensures SysCall(s, IDLE, ctx).Some? && SysCall(s, IDLE, ctx).value.0.attr == IdleEntry(s, ctx).attr
  {
    hide Inv;
    SysCallInv(s, IDLE, ctx);
    if Items(s, Ready) != [] { IdleKeeps(s, ctx); }
  }

  lemma ExitAttr(s: State, ctx: Context)
    requires Inv(s) && SysCall(s, EXIT, ctx).Some?
    ensures SysCall(s, EXIT, ctx).value.0.attr == s.attr - Lost(s, ESysCall(EXIT, ctx))
  {
    hide Inv;
    if Items(s, Ready) != [] { ExitKeeps(s, ctx); } else { ExitEntryQueued(s); }
  }

  lemma SysCallFollows(s: State, op: Word, ctx: Context)
    requires Inv(s) && SysCall(s, op, ctx).Some?
    ensures Follows(s, ESysCall(op, ctx), SysCall(s, op, ctx).value.0.attr)
  {
    hide Inv;
    hide Dispatch;
    hide ExitEntry;
    if op == IDLE {
      IdleAttr(s, ctx);
    } else if op == EXIT {
      ExitAttr(s, ctx);
    }
  }

  lemma StepFollows(s: State, e: Event)
    requires Inv(s) && Step(s, e).Some?
    ensures Follows(s, e, Step(s, e).value.attr)
  {
    match e
    case ELoad(p, a) =>
    case ESysCall(op, ctx) => SysCallFollows(s, op, ctx);
    case _ => CommandKeeps(s, e);
  }

  /** The dispatcher variables between calls, as long as the run has not ended. */
  ghost predicate Settled(s: State) {
    s.insertFlag == 0 && (s.current.Some? ==> s.initial.Some?)
  }

  lemma StepSettled(s: State, e: Event)
    requires Inv(s) && Settled(s) && !HandsBack(s, e) && Step(s, e).Some?
    requires e.ESysCall? && e.op == EXIT ==> s.current.Some?
    ensures Settled(Step(s, e).value)
  {
    match e
    case ELoad(p, a) =>
    case ESysCall(op, ctx) =>
      if op == IDLE { IdleKeeps(s, ctx); } else if op == EXIT { ExitKeeps(s, ctx); }
    case _ => CommandKeeps(s, e);
  }

  // ------------------------------------------------------------ every run

  /** What holds after every run. */
  ghost predicate Reached(es: seq<Event>, s: State) {
    && Inv(s)
    && s.attr.Keys == Loaded(es) - Gone(es)
    && Gone(es) <= Loaded(es)
    && (!Ended(es) ==> Settled(s))
  }

  lemma LoadedGrows(es: seq<Event>)
    requires es != []
    ensures Loaded(es) == Loaded(Before(es)) + (if Last(es).ELoad? then {Last(es).p} else {})
  {
  }

  lemma ReachesOn(es: seq<Event>, s: State, s': State)
    requires es != [] && Run(Before(es)) == Some(s) && Run(es) == Some(s') && Reached(Before(es), s)
    requires !Ended(Before(es)) && Allowed(Before(es), s, Last(es)) && Step(s, Last(es)) == Some(s')
    ensures Reached(es, s')
  {
    hide Inv;
    hide Step;
    hide Lost;
    hide Settled;
    LoadedGrows(es);
    LostIsLive(s, Last(es));
    StepInv(s, Last(es));
    StepFollows(s, Last(es));
    LiveSet(s.attr.Keys, Loaded(Before(es)), Gone(Before(es)), Brought(Last(es)), Lost(s, Last(es)));
    if !Ended(es) {
      StepSettled(s, Last(es));
    }
  }

  lemma LostIsLive(s: State, e: Event)
    requires Inv(s)
    ensures Lost(s, e) <= s.attr.Keys
  {
  }

  lemma LiveSet(live: set<Pcb>, loaded: set<Pcb>, gone: set<Pcb>, brought: set<Pcb>, lost: set<Pcb>)
    requires live == loaded - gone && gone <= loaded && lost <= live && brought !! loaded
    ensures live + brought - lost == (loaded + brought) - (gone + lost) && gone + lost <= loaded + brought
  {
  }

  lemma BootInv()
    ensures Inv(Boot)
  {
  }

  /** The invariant holds in every reachable state; the live processes are those loaded and neither
      deleted nor exited; until the run ends the insert flag is clear between calls. */
  lemma {:induction false} RunInvariant(es: seq<Event>)
    requires Run(es).Some?
    ensures Reached(es, Run(es).value)
    decreases |es|
  {
    hide Inv;
    BootInv();
    if es != [] {
      RunInvariant(Before(es));
      ReachesOn(es, Run(Before(es)).value, Run(es).value);
    }
  }

  /** A system call that finds no process: the flag stays set exactly when a running process has asked
      to yield, and the first context is no longer held. */
  lemma HandBackKeeps(s: State, op: Word, ctx: Context)
    requires Inv(s) && (op == IDLE || op == EXIT) && Items(s, Ready) == []
    ensures SysCall(s, op, ctx).Some? ==>
              var s' := SysCall(s, op, ctx).value.0;
              && s'.attr.Keys == s.attr.Keys - Lost(s, ESysCall(op, ctx))
              && s'.insertFlag == (if op == IDLE && s.current.Some? then 1 else s.insertFlag)
              && s'.initial.None? && s'.current == (if op == IDLE then s.current else None)
              && forall q :: Items(s', q) == Items(s, q)
  {
    if op == EXIT {
      ExitEntryQueued(s);
    }
  }

  /** The context of the first IDLE of a run. */
  function FirstContext(es: seq<Event>): Option<Context>
    decreases |es|
  {
    if es == [] then None
    else if FirstContext(Before(es)).Some? then FirstContext(Before(es))
    else if Last(es).ESysCall? && Last(es).op == IDLE then Some(Last(es).ctx)
    else None
  }

  lemma StepInitial(s: State, e: Event)
    requires Inv(s) && Step(s, e).Some? && !HandsBack(s, e)
    ensures Step(s, e).value.initial ==
      if s.initial.None? && e.ESysCall? && e.op == IDLE then Some(e.ctx) else s.initial
  {
    hide Inv;
    match e
    case ELoad(_, _) =>
    case ESysCall(op, ctx) =>
      if op == IDLE { IdleKeeps(s, ctx); } else if op == EXIT { ExitKeeps(s, ctx); }
    case _ => CommandKeeps(s, e);
  }

  /** Until the run ends, the kernel keeps the context of the first IDLE. */
  lemma {:induction false} FirstIsHeld(es: seq<Event>)
    requires Run(es).Some? && !Ended(es)
    ensures Run(es).value.initial == FirstContext(es)
    decreases |es|
  {
    hide Inv;
    hide Step;
    if es != [] {
      RunStep(es);
      FirstIsHeld(Before(es));
      StepInitial(Run(Before(es)).value, Last(es));
    }
  }

  lemma FirstOf(es: seq<Event>, e: Event)
    ensures FirstContext(es + [e]) ==
      if FirstContext(es).None? && e.ESysCall? && e.op == IDLE then Some(e.ctx) else FirstContext(es)
  {
    assert Before(es + [e]) == es;
  }

  lemma HandedBack(s: State, op: Word, ctx: Context)
    requires (op == IDLE || op == EXIT) && Items(s, Ready) == [] && SysCall(s, op, ctx).Some?
    requires op == EXIT ==> Items(ExitEntry(s), Ready) == []
    ensures Some(SysCall(s, op, ctx).value.1) == if s.initial.None? && op == IDLE then Some(ctx) else s.initial
  {
  }

  /** A system call that finds no process to dispatch never faults, and hands back the context of the first
      IDLE of the run, whoever made the call. */
  lemma FirstIsHandedBack(es: seq<Event>, op: Word, ctx: Context)
    requires Run(es).Some? && !Ended(es) && Allowed(es, Run(es).value, ESysCall(op, ctx))
    requires HandsBack(Run(es).value, ESysCall(op, ctx))
    ensures SysCall(Run(es).value, op, ctx).Some?
    ensures FirstContext(es + [ESysCall(op, ctx)]) == Some(SysCall(Run(es).value, op, ctx).value.1)
  {
    hide SysCall;
    RunInvariant(es);
    FirstIsHeld(es);
    FirstOf(es, ESysCall(op, ctx));
    SysCallInv(Run(es).value, op, ctx);
    ExitEntryQueued(Run(es).value);
    HandedBack(Run(es).value, op, ctx);
  }

  // ------------------------------------------------------------ the theorems

  /** The four queues hold no process twice and share none; every live process either runs, and is in
      no queue, or is in exactly the queue its two states name. */
  ghost predicate InPlace(s: State) {
    && (forall q :: Distinct(Items(s, q)))
    && (forall q, p :: p in Items(s, q) ==> p in s.attr)
    && (forall p, q :: p in s.attr ==> (p in Items(s, q) <==> s.current != Some(p) && q == Home(s.attr[p])))
    && (s.current.Some? ==> s.current.value in s.attr && Home(s.attr[s.current.value]) == Ready)
  }

  lemma InvInPlace(s: State)
    requires Inv(s)
    ensures InPlace(s)
  {
    forall q ensures Distinct(Items(s, q)) {
      assert QueueOk(s, q, Running(s));
      QueueDistinct(s, q, Running(s));
    }
    forall q, p | p in Items(s, q) ensures p in s.attr && s.current != Some(p) && q == Home(s.attr[p]) {
      QueuedPlace(s, q, p);
    }
    forall p | p in s.attr && s.current != Some(p) ensures p in Items(s, Home(s.attr[p])) {
      assert Placed(s, p);
    }
  }

  /** Every reachable state has every process in its place. */
  lemma EveryProcessInItsPlace(es: seq<Event>)
    requires Run(es).Some?
    ensures InPlace(Run(es).value) && Run(es).value.attr.Keys == Loaded(es) - Gone(es)
  {
    RunInvariant(es);
    InvInPlace(Run(es).value);
  }

  lemma QueuedPlace(s: State, q: QueueId, p: Pcb)
    requires Inv(s) && p in Items(s, q)
    ensures p in s.attr && s.current != Some(p) && q == Home(s.attr[p])
  {
    assert QueueOk(s, q, Running(s));
    assert Member(s, q, Running(s), p);
  }

  /** The context p passed at its own last IDLE in the run, or the one built at its load. */
  function LastContext(es: seq<Event>, p: Pcb): Option<Context>
    decreases |es|
  {
    if es == [] then None else
      var b, e := Before(es), Last(es);
      if e.ELoad? && e.p == p then Some(e.a.ctx)
      else if e.ESysCall? && e.op == IDLE && Run(b).Some? && Run(b).value.current == Some(p) then Some(e.ctx)
      else LastContext(b, p)
  }

  lemma {:induction false} SavedContexts(es: seq<Event>)
    requires Run(es).Some?
    ensures forall p :: p in Run(es).value.attr ==> LastContext(es, p) == Some(Run(es).value.attr[p].ctx)
    decreases |es|
  {
    if es != [] {
      var b, e := Before(es), Last(es);
      SavedContexts(b);
      RunInvariant(b);
      StepFollows(Run(b).value, e);
    }
  }

  /** A dispatched process resumes the context it passed at its own last IDLE, or the one built at its
      load if it has not yielded since. */
  lemma ContextFidelity(es: seq<Event>, op: Word, ctx: Context)
    requires Run(es).Some? && (op == IDLE || op == EXIT)
    requires !HandsBack(Run(es).value, ESysCall(op, ctx))
    ensures SysCall(Run(es).value, op, ctx).Some?
    ensures var r := SysCall(Run(es).value, op, ctx).value;
            r.0.current.Some? && LastContext(es, r.0.current.value) == Some(r.1)
  {
    RunInvariant(es);
    SavedContexts(es);
    if op == IDLE {
      IdleKeeps(Run(es).value, ctx);
    } else {
      ExitKeeps(Run(es).value, ctx);
    }
  }

  /** sys_call never dereferences a null context during a run. */
  lemma DispatcherNeverFaults(es: seq<Event>, e: Event)
    requires Run(es).Some? && !Ended(es) && e.ESysCall? && Allowed(es, Run(es).value, e)
    ensures Step(Run(es).value, e).Some?
  {
    RunInvariant(es);
    SysCallInv(Run(es).value, e.op, e.ctx);
  }

  /** No command can take a system process out of READY and NOT_SUSPENDED. */
  ghost predicate SystemReady(s: State) {
    forall p :: p in s.attr && s.attr[p].cls.SYSTEM_PROCESS? ==> Home(s.attr[p]) == Ready
  }

  lemma {:induction false} SystemProcessesStayReady(es: seq<Event>)
    requires Run(es).Some?
    ensures SystemReady(Run(es).value)
    decreases |es|
  {
    if es != [] {
      SystemProcessesStayReady(Before(es));
      RunInvariant(Before(es));
      StepFollows(Run(Before(es)).value, Last(es));
    }
  }

  /** p was loaded as a system process and has issued no EXIT since. */
  ghost predicate Permanent(es: seq<Event>, p: Pcb)
    decreases |es|
  {
    es != [] &&
    if Last(es).ELoad? && Last(es).p == p then Last(es).a.cls == SYSTEM_PROCESS
    else
      && Permanent(Before(es), p)
      && (Last(es).ESysCall? && Last(es).op == EXIT && Run(Before(es)).Some? ==>
            Run(Before(es)).value.current != Some(p))
  }

  /** A system process that never exits stays live. */
  lemma {:induction false} PermanentStays(es: seq<Event>, p: Pcb)
    requires Run(es).Some? && Permanent(es, p)
    ensures p in Run(es).value.attr && Run(es).value.attr[p].cls == SYSTEM_PROCESS
    decreases |es|
  {
    var e := Last(es);
    RunStep(es);
    var s := Run(Before(es)).value;
    if e.ELoad? && e.p == p {
      StepFollows(s, e);
    } else {
      PermanentStays(Before(es), p);
      StepKeepsSystem(s, e, p);
    }
  }

  lemma RunStep(es: seq<Event>)
    requires es != [] && Run(es).Some?
    ensures var s := Run(Before(es));
            && s.Some? && Inv(s.value) && Fits(s.value, Last(es))
            && Step(s.value, Last(es)) == Run(es)
  {
    RunInvariant(Before(es));
  }

  lemma StepKeepsSystem(s: State, e: Event, p: Pcb)
    requires Inv(s) && Fits(s, e) && Step(s, e).Some?
    requires p in s.attr && s.attr[p].cls == SYSTEM_PROCESS
    requires e.ESysCall? && e.op == EXIT ==> s.current != Some(p)
    ensures p in Step(s, e).value.attr && Step(s, e).value.attr[p].cls == SYSTEM_PROCESS
  {
    StepFollows(s, e);
  }

  /** Once a system process that never exits (the idle process) has been loaded, it runs or waits in the
      ready queue for ever after, so a yield or an exit of any other process dispatches a process: the
      kernel never falls back to the first context. */
  lemma IdleProcessKeepsTheSystemAlive(es: seq<Event>, idle: Pcb, op: Word, ctx: Context)
    requires Run(es).Some? && Permanent(es, idle) && (op == IDLE || op == EXIT)
    ensures var s := Run(es).value;
            && (s.current == Some(idle) || idle in Items(s, Ready))
            && (s.current != Some(idle) ==>
                  SysCall(s, op, ctx).Some? && SysCall(s, op, ctx).value.0.current == Some(Items(s, Ready)[0]))
  {
    var s := Run(es).value;
    PermanentStays(es, idle);
    SystemProcessesStayReady(es);
    RunInvariant(es);
    AliveIn(s, idle, op, ctx);
  }

  lemma AliveIn(s: State, idle: Pcb, op: Word, ctx: Context)
    requires Inv(s) && SystemReady(s) && idle in s.attr && s.attr[idle].cls == SYSTEM_PROCESS
    requires op == IDLE || op == EXIT
    ensures s.current == Some(idle) || idle in Items(s, Ready)
    ensures s.current != Some(idle) ==>
              SysCall(s, op, ctx).Some? && SysCall(s, op, ctx).value.0.current == Some(Items(s, Ready)[0])
  {
    InvInPlace(s);
    if s.current != Some(idle) {
      if op == IDLE { IdleKeeps(s, ctx); } else { ExitKeeps(s, ctx); }
    }
  }
}
