/**
 The steps of the process state machine: load, the PCB commands (user/interface.c) and sys_call
 (kernel/sys_call.c). A step yields None where the code dereferences a null pointer.
 */
module Steps {
  import opened Common
  import opened Pcbs
  import opened Scheduler

  // op_code in include/sys_req.h
  const EXIT: Word := 0
  const IDLE: Word := 1

  /** pcb_remove, a change of fields, pcb_insert. */
  function Move(s: State, p: Pcb, a: Attributes): Option<State> {
    Insert(Remove(s, p).(attr := s.attr[p := a]), p)
  }

  /** load (interface.c:798-818); p is the block of memory `allocate` returns. */
  function Load(s: State, p: Pcb, a: Attributes): Option<State> {
    Insert(s.(attr := s.attr[p := a]), p)
  }

  function Delete(s: State, name: Option<CStr>): Option<State> {
    if name.None? || name.value == [] then Some(s) else
      match Find(s, name.value)
      case None => Some(s)
      case Some(p) =>
        if s.attr[p].cls.SYSTEM_PROCESS? then Some(s) else Some(Forget(Remove(s, p), p))
  }

  predicate BadName(name: Option<CStr>) {
    name.None? || |name.value| > 8
  }

  /** The search of the commands that check the name first. */
  function FindNamed(s: State, name: Option<CStr>): Option<Pcb> {
    if BadName(name) then None else Find(s, name.value)
  }

  /** A command that moves nothing changes nothing; m is the PCB it moves and the fields it gets. */
  function Carry(s: State, m: Option<(Pcb, Attributes)>): Option<State> {
    match m
    case None => Some(s)
    case Some((p, a)) => Move(s, p, a)
  }

  /** An empty name is reported but the search still runs (interface.c:516-522). */
  function Suspended(s: State, name: CStr): Option<(Pcb, Attributes)> {
    match Find(s, name)
    case None => None
    case Some(p) =>
      if s.attr[p].cls.SYSTEM_PROCESS? || s.attr[p].disp.SUSPENDED? then None
      else Some((p, s.attr[p].(disp := SUSPENDED)))
  }

  function Suspend(s: State, name: CStr): Option<State> {
    Carry(s, Suspended(s, name))
  }

  function Resumed(s: State, name: Option<CStr>): Option<(Pcb, Attributes)> {
    match FindNamed(s, name)
    case None => None
    case Some(p) => Some((p, s.attr[p].(disp := NOT_SUSPENDED)))
  }

  function Resume(s: State, name: Option<CStr>): Option<State> {
    Carry(s, Resumed(s, name))
  }

  function Blocking(s: State, name: Option<CStr>): Option<(Pcb, Attributes)> {
    match FindNamed(s, name)
    case None => None
    case Some(p) => if s.attr[p].cls.SYSTEM_PROCESS? then None else Some((p, s.attr[p].(exec := BLOCKED)))
  }

  function Block(s: State, name: Option<CStr>): Option<State> {
    Carry(s, Blocking(s, name))
  }

  function Unblocking(s: State, name: Option<CStr>): Option<(Pcb, Attributes)> {
    match FindNamed(s, name)
    case None => None
    case Some(p) => Some((p, s.attr[p].(exec := READY)))
  }

  function Unblock(s: State, name: Option<CStr>): Option<State> {
    Carry(s, Unblocking(s, name))
  }

  /** The result code of pcb_set_priority (pcb.c:425-460). */
  function PriorityCode(s: State, name: CStr, x: int): int {
    if Find(s, name).None? then -1 else if x < 0 || x > 9 then -2 else 0
  }

  function SetPriority(s: State, name: CStr, x: int): Option<State> {
    if PriorityCode(s, name, x) != 0 then Some(s) else
      var p := Find(s, name).value;
      var a := s.attr[p].(priority := x);
      if a.exec.READY? then Move(s, p, a) else Some(s.(attr := s.attr[p := a]))
  }

  /** sys_call.c:46-60, after the operation has been handled. */
  function Dispatch(s: State): Option<(State, Context)> {
    if Items(s, Ready) != [] then
      var next := s.queues[Ready][0];
      if next !in s.attr then None else
        var s1 := Remove(s, next);
        var s2 := if s.insertFlag == 1 && s.current.Some? && s.current.value in s.attr
                  then Insert(s1, s.current.value) else Some(s1);
        if s2.None? then None
        else Some((s2.value.(insertFlag := 0, current := Some(next)), s.attr[next].ctx))
    else if s.initial.None? then None
    else Some((s.(initial := None), s.initial.value))
  }

  /** What sys_call does for IDLE before it dispatches (sys_call.c:14-29). */
  function IdleEntry(s: State, ctx: Context): State {
    var s1 := s.(initial := if s.initial.None? then Some(ctx) else s.initial);
    if s.current.Some? && s.current.value in s.attr then
      var c := s.current.value;
      s1.(attr := s.attr[c := s.attr[c].(exec := READY, ctx := ctx)], insertFlag := 1)
    else s1
  }

  /** What sys_call does for EXIT before it dispatches (sys_call.c:36-40). */
  function ExitEntry(s: State): State {
    if s.current.Some? then Forget(Remove(s, s.current.value), s.current.value).(current := None) else s
  }

  /** sys_call: the new state and the context that is resumed. */
  function SysCall(s: State, op: Word, ctx: Context): Option<(State, Context)> {
    if op == IDLE then Dispatch(IdleEntry(s, ctx))
    else if op == EXIT then Dispatch(ExitEntry(s))
    else Some((s, ctx))
  }

  datatype Event =
    | ELoad(p: Pcb, a: Attributes)
    | EDelete(name: Option<CStr>)
    | ESuspend(who: CStr)
    | EResume(name: Option<CStr>)
    | EBlock(name: Option<CStr>)
    | EUnblock(name: Option<CStr>)
    | ESetPriority(who: CStr, x: int)
    | ESysCall(op: Word, ctx: Context)

  /** The PCB that a command moves and the fields it gets. */
  function Moved(s: State, e: Event): Option<(Pcb, Attributes)> {
    match e
    case ESuspend(name) => Suspended(s, name)
    case EResume(name) => Resumed(s, name)
    case EBlock(name) => Blocking(s, name)
    case EUnblock(name) => Unblocking(s, name)
    case ESetPriority(name, x) =>
      var r := Find(s, name);
      if PriorityCode(s, name, x) != 0 || s.attr[r.value].exec.BLOCKED? then None
      else Some((r.value, s.attr[r.value].(priority := x)))
    case _ => None
  }

  function Step(s: State, e: Event): Option<State> {
    match e
    case ELoad(p, a) => Load(s, p, a)
    case EDelete(name) => Delete(s, name)
    case ESuspend(name) => Suspend(s, name)
    case EResume(name) => Resume(s, name)
    case EBlock(name) => Block(s, name)
    case EUnblock(name) => Unblock(s, name)
    case ESetPriority(name, x) => SetPriority(s, name, x)
    case ESysCall(op, ctx) => var r := SysCall(s, op, ctx); if r.None? then None else Some(r.value.0)
  }

  /** A load brings memory that is no live PCB, and the states `load` writes. */
  predicate Fits(s: State, e: Event) {
    e.ELoad? ==> e.p !in s.attr && e.a.exec.READY? && e.a.disp.NOT_SUSPENDED?
  }

  // ---------------------------------------------------------------- the invariant is kept

  /** pcb_find never returns the running process: it is in no queue. */
  lemma FoundIsQueued(s: State, name: CStr)
    requires Inv(s) && Find(s, name).Some?
    ensures var p := Find(s, name).value;
            p in s.attr && p !in Running(s) && p in Items(s, Home(s.attr[p]))
  {
    var p := Find(s, name).value;
    InSearchOrder(s, p);
    var q :| p in Items(s, q);
    assert QueueOk(s, q, Running(s));
    assert Member(s, q, Running(s), p);
  }

  lemma MoveQueued(s: State, d: set<Pcb>, p: Pcb, a: Attributes)
    requires Queued(s, d) && p in s.attr && p !in d
    ensures Move(s, p, a).Some? ==> Queued(Move(s, p, a).value, d)
  {
    var s1 := Remove(s, p);
    var s2 := s1.(attr := s.attr[p := a]);
    QueuedRemove(s, d, p);
    QueuedUpdate(s1, d + {p}, p, a);
    if !InsertFaults(s2, p) {
      assert d + {p} + {p} == d + {p} && d + {p} - {p} == d;
      QueuedInsert(s2, d + {p}, p);
    }
  }

  lemma MoveInv(s: State, p: Pcb, a: Attributes)
    requires Inv(s) && p in s.attr && p !in Running(s)
    ensures Move(s, p, a).Some? ==> Inv(Move(s, p, a).value)
  {
    MoveQueued(s, Running(s), p, a);
  }

  lemma LoadInv(s: State, p: Pcb, a: Attributes)
    requires Inv(s) && p !in s.attr
    ensures Load(s, p, a).Some? ==> Inv(Load(s, p, a).value)
  {
    var d, s1 := Running(s), s.(attr := s.attr[p := a]);
    QueuedUpdate(s, d, p, a);
    if !InsertFaults(s1, p) {
      QueuedInsert(s1, d + {p}, p);
      assert d + {p} - {p} == d;
    }
  }

  /** A BLOCKED process keeps its place in its queue whatever its priority becomes. */
  lemma ReprioritiseInv(s: State, p: Pcb, x: int)
    requires Inv(s) && p in s.attr && p !in Running(s) && s.attr[p].exec.BLOCKED?
    ensures Inv(s.(attr := s.attr[p := s.attr[p].(priority := x)]))
  {
    var d, s' := Running(s), s.(attr := s.attr[p := s.attr[p].(priority := x)]);
    forall q ensures QueueOk(s', q, d) {
      assert QueueOk(s, q, d);
      var l := Items(s, q);
      forall y | y in l ensures Member(s', q, d, y) { assert Member(s, q, d, y); }
      forall i, j | 0 <= i < j < |l| ensures Precedes(s', q, l[i], l[j]) {
        assert Precedes(s, q, l[i], l[j]);
        assert Member(s, q, d, l[i]) && Member(s, q, d, l[j]);
      }
    }
    forall y | y in s'.attr && y !in d ensures Placed(s', y) { assert Placed(s, y); }
  }

  lemma DispatchInv(s: State, d: set<Pcb>)
    requires Queued(s, d) && d == Running(s)
    requires s.current.Some? ==> Home(s.attr[s.current.value]) == Ready
    requires 0 <= s.insertFlag <= 1
    requires Items(s, Ready) != [] ==> s.current.Some? ==> s.insertFlag == 1
    ensures Items(s, Ready) != [] ==>
              Dispatch(s).Some? && Inv(Dispatch(s).value.0) && Dispatch(s).value.0.insertFlag == 0
              && Dispatch(s).value.0.current == Some(Items(s, Ready)[0])
  {
    if Items(s, Ready) != [] {
      var next := Items(s, Ready)[0];
      assert QueueOk(s, Ready, d);
      assert Member(s, Ready, d, next);
      var s1 := Remove(s, next);
      QueuedRemove(s, d, next);
      if s.current.Some? {
        var c := s.current.value;
        QueuedInsert(s1, d + {next}, c);
        assert d + {next} - {c} == {next};
        QueuedFrame(Insert(s1, c).value, Dispatch(s).value.0, {next});
      } else {
        assert d + {next} == {next};
        QueuedFrame(s1, Dispatch(s).value.0, {next});
      }
    }
  }

  lemma IdleEntryQueued(s: State, ctx: Context)
    requires Inv(s)
    ensures Queued(IdleEntry(s, ctx), Running(s))
  {
    var s1 := s.(attr := IdleEntry(s, ctx).attr);
    if s.current.Some? {
      var c := s.current.value;
      QueuedUpdate(s, Running(s), c, s.attr[c].(exec := READY, ctx := ctx));
      assert Running(s) + {c} == Running(s);
    }
    QueuedFrame(s1, IdleEntry(s, ctx), Running(s));
  }

  lemma ExitEntryQueued(s: State)
    requires Inv(s)
    ensures Queued(ExitEntry(s), {})
    ensures forall q :: Items(ExitEntry(s), q) == Items(s, q)
    ensures s.current.Some? ==> ExitEntry(s).queues == s.queues
  {
    if s.current.Some? {
      var c := s.current.value;
      QueuedRemove(s, Running(s), c);
      assert Running(s) + {c} == {c};
      QueuedForget(Remove(s, c), {c}, c);
      assert {c} - {c} == {};
      QueuedFrame(Forget(Remove(s, c), c), ExitEntry(s), {});
      forall q ensures Items(ExitEntry(s), q) == Items(s, q) {
        assert QueueOk(s, q, Running(s));
        assert forall x :: x in Items(s, q) ==> Member(s, q, Running(s), x);
        WithoutNone(Items(s, q), c);
      }
      assert forall q :: q in s.queues ==> s.queues[q] == Items(s, q) == Items(ExitEntry(s), q);
    }
  }

  /** What one system call does to the queues, the running process and the resumed context. */
  lemma SysCallInv(s: State, op: Word, ctx: Context)
    requires Inv(s)
    ensures SysCall(s, op, ctx).Some? ==> Inv(SysCall(s, op, ctx).value.0)
    ensures SysCall(s, op, ctx).None? <==> op == EXIT && Items(s, Ready) == [] && s.initial.None?
  {
    if op == IDLE {
      IdleEntryQueued(s, ctx);
      DispatchInv(IdleEntry(s, ctx), Running(s));
      QueuedFrame(IdleEntry(s, ctx), IdleEntry(s, ctx).(initial := None), Running(s));
    } else if op == EXIT {
      ExitEntryQueued(s);
      DispatchInv(ExitEntry(s), {});
      QueuedFrame(ExitEntry(s), ExitEntry(s).(initial := None), {});
    }
  }

  lemma DeleteInv(s: State, name: Option<CStr>)
    requires Inv(s)
    ensures Inv(Delete(s, name).value)
  {
    if name.Some? && name.value != [] && Find(s, name.value).Some? {
      var p := Find(s, name.value).value;
      FoundIsQueued(s, name.value);
      QueuedRemove(s, Running(s), p);
      QueuedForget(Remove(s, p), Running(s) + {p}, p);
      assert Running(s) + {p} - {p} == Running(s);
    }
  }

  lemma MoveFoundInv(s: State, name: CStr, a: Attributes)
    requires Inv(s) && Find(s, name).Some?
    ensures var p := Find(s, name).value;
            Move(s, p, a).Some? ==> Inv(Move(s, p, a).value)
  {
    FoundIsQueued(s, name);
    MoveInv(s, Find(s, name).value, a);
  }

  lemma SetPriorityInv(s: State, name: CStr, x: int)
    requires Inv(s)
    ensures SetPriority(s, name, x).Some? && Inv(SetPriority(s, name, x).value)
  {
    if PriorityCode(s, name, x) == 0 {
      var p := Find(s, name).value;
      FoundIsQueued(s, name);
      if s.attr[p].exec.READY? {
        MoveFoundInv(s, name, s.attr[p].(priority := x));
      } else {
        ReprioritiseInv(s, p, x);
      }
    }
  }

  /** Every step keeps the invariant. */
  lemma StepInv(s: State, e: Event)
    requires Inv(s) && Fits(s, e)
    ensures Step(s, e).Some? ==> Inv(Step(s, e).value)
  {
    hide Inv;
    hide SearchOrder;
    hide Move;
    match e
    case ELoad(p, a) => LoadInv(s, p, a);
    case EDelete(name) => DeleteInv(s, name);
    case ESuspend(name) =>
      if Find(s, name).Some? { MoveFoundInv(s, name, s.attr[Find(s, name).value].(disp := SUSPENDED)); }
    case EResume(name) =>
      if !BadName(name) && Find(s, name.value).Some? {
        MoveFoundInv(s, name.value, s.attr[Find(s, name.value).value].(disp := NOT_SUSPENDED));
      }
    case EBlock(name) =>
      if !BadName(name) && Find(s, name.value).Some? {
        MoveFoundInv(s, name.value, s.attr[Find(s, name.value).value].(exec := BLOCKED));
      }
    case EUnblock(name) =>
      if !BadName(name) && Find(s, name.value).Some? {
        MoveFoundInv(s, name.value, s.attr[Find(s, name.value).value].(exec := READY));
      }
    case ESetPriority(name, x) => SetPriorityInv(s, name, x);
    case ESysCall(op, ctx) => SysCallInv(s, op, ctx);
  }
}
