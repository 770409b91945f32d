/**
 What load, the PCB commands, IDLE and EXIT do to a state, written out for the four combinations of the two
 states of a process and with the four queues by name. Everything a step may change is covered: the fields
 of every process, the four queues, and the variables of the dispatcher.
 */
module CommandLaws {
  import opened Common
  import opened Pcbs
  import opened Scheduler
  import opened Steps
  import opened Runs
  import opened Laws

  // ------------------------------------------------------------ which process a name means

  /** A name means the process at position i of queue q exactly when that is the first one called so: ready
      ones come before blocked ones, those before suspended ready ones and those before suspended blocked
      ones. */
  lemma FindsFirst(s: State, n: CStr, q: QueueId, i: nat)
    requires Inv(s) && i < |Items(s, q)|
    ensures Find(s, n) == Some(Items(s, q)[i]) <==> First(s, n, q, i)
  {
    hide Find;
    hide Inv;
    if First(s, n, q, i) {
      FirstIsFound(s, n, q, i);
    }
    if Find(s, n) == Some(Items(s, q)[i]) {
      var r, j := FoundIsFirst(s, n);
      OnePlace(s, q, i, r, j);
    }
  }

  lemma OnePlace(s: State, q: QueueId, i: nat, r: QueueId, j: nat)
    requires Inv(s) && i < |Items(s, q)| && j < |Items(s, r)| && Items(s, q)[i] == Items(s, r)[j]
    ensures q == r && i == j
  {
    QueuedPlace(s, q, Items(s, q)[i]);
    QueuedPlace(s, r, Items(s, r)[j]);
    assert QueueOk(s, q, Running(s));
    QueueDistinct(s, q, Running(s));
  }

  // ------------------------------------------------------------ where a process is

  /** The queue of each live process that does not run, from its two states. */
  lemma FourQueues(s: State, p: Pcb)
    requires Inv(s) && p in s.attr
    ensures var a, waits := s.attr[p], s.current != Some(p);
      && (p in Items(s, Ready) <==> waits && a.exec == READY && a.disp == NOT_SUSPENDED)
      && (p in Items(s, Blocked) <==> waits && a.exec == BLOCKED && a.disp == NOT_SUSPENDED)
      && (p in Items(s, SuspReady) <==> waits && a.exec == READY && a.disp == SUSPENDED)
      && (p in Items(s, SuspBlocked) <==> waits && a.exec == BLOCKED && a.disp == SUSPENDED)
  {
    hide Inv;
    InvInPlace(s);
  }

  // ------------------------------------------------------------ commands that move a process

  /** p gets the fields a and goes to queue q: to its stable place in a ready queue, to the end of a blocked
      one. Nobody else changes, and the order of the others stays. */
  ghost predicate Refiled(s: State, s': State, p: Pcb, a: Attributes, q: QueueId) {
    && s'.attr == s.attr[p := a]
    && s'.current == s.current && s'.initial == s.initial && s'.insertFlag == s.insertFlag
    && (forall r :: r != q ==> Items(s', r) == Without(Items(s, r), p))
    && if q == Ready || q == SuspReady then StablyInserted(s', Without(Items(s, q), p), p, Items(s', q))
       else Items(s', q) == Without(Items(s, q), p) + [p]
  }

  /** The step moves p like that, or dereferences a null front: exactly when q is a blocked queue that has
      been allocated and holds nobody else. */
  ghost predicate Moves(s: State, r: Option<State>, p: Pcb, a: Attributes, q: QueueId) {
    && (r.None? <==> (q == Blocked || q == SuspBlocked) && q in s.queues && forall x :: x in s.queues[q] ==> x == p)
    && (r.Some? ==> Refiled(s, r.value, p, a, q))
  }

  lemma MoveLaw(s: State, p: Pcb, a: Attributes, q: QueueId)
    requires Inv(s) && p in s.attr && p !in Running(s)
    requires q == if a.exec == READY then (if a.disp == SUSPENDED then SuspReady else Ready)
                  else (if a.disp == SUSPENDED then SuspBlocked else Blocked)
    ensures Moves(s, Move(s, p, a), p, a, q)
  {
    hide Inv;
    hide Move;
    hide Without;
    hide StablyInserted;
    MoveFaultsIff(s, p, a);
    if Move(s, p, a).Some? {
      MoveIsStable(s, p, a);
      MoveOnly(s, p, a);
    }
  }

  lemma MoveOnly(s: State, p: Pcb, a: Attributes)
    requires p in s.attr && Move(s, p, a).Some?
    ensures var s' := Move(s, p, a).value;
      && s'.attr == s.attr[p := a]
      && s'.current == s.current && s'.initial == s.initial && s'.insertFlag == s.insertFlag
  {
  }

  /** suspend: a user process that is not suspended becomes so and stays READY or BLOCKED; anything else is
      refused. */
  lemma SuspendLaw(s: State, n: CStr)
    requires Inv(s)
    ensures var f, r := Find(s, n), Step(s, ESuspend(n));
      if f.None? || s.attr[f.value].cls == SYSTEM_PROCESS || s.attr[f.value].disp == SUSPENDED then r == Some(s)
      else
        var p, a := f.value, s.attr[f.value];
        Moves(s, r, p, a.(disp := SUSPENDED), if a.exec == BLOCKED then SuspBlocked else SuspReady)
  {
    hide Inv;
    hide Move;
    hide Find;
    if Suspended(s, n).Some? {
      FoundLives(s, n);
      var a := s.attr[Find(s, n).value];
      MoveLaw(s, Find(s, n).value, a.(disp := SUSPENDED), if a.exec == BLOCKED then SuspBlocked else SuspReady);
    }
  }

  lemma FoundLives(s: State, n: CStr)
    requires Inv(s) && Find(s, n).Some?
    ensures Find(s, n).value in s.attr && Find(s, n).value !in Running(s)
  {
    FoundIsQueued(s, n);
  }

  /** resume: a process of a name of at most 8 characters becomes NOT_SUSPENDED, whatever it was before, and
      stays READY or BLOCKED. */
  lemma ResumeLaw(s: State, name: Option<CStr>)
    requires Inv(s)
    ensures var r := Step(s, EResume(name));
      if name.None? || |name.value| > 8 || Find(s, name.value).None? then r == Some(s)
      else
        var p, a := Find(s, name.value).value, s.attr[Find(s, name.value).value];
        Moves(s, r, p, a.(disp := NOT_SUSPENDED), if a.exec == BLOCKED then Blocked else Ready)
  {
    hide Inv;
    hide Move;
    hide Find;
    if Resumed(s, name).Some? {
      FoundLives(s, name.value);
      var p := Find(s, name.value).value;
      var a := s.attr[p];
      MoveLaw(s, p, a.(disp := NOT_SUSPENDED), if a.exec == BLOCKED then Blocked else Ready);
    }
  }

  /** block: a user process of such a name becomes BLOCKED, whatever it was before, and stays suspended or
      not; a system process is refused. */
  lemma BlockLaw(s: State, name: Option<CStr>)
    requires Inv(s)
    ensures var r := Step(s, EBlock(name));
      if name.None? || |name.value| > 8 || Find(s, name.value).None?
         || s.attr[Find(s, name.value).value].cls == SYSTEM_PROCESS then r == Some(s)
      else
        var p, a := Find(s, name.value).value, s.attr[Find(s, name.value).value];
        Moves(s, r, p, a.(exec := BLOCKED), if a.disp == SUSPENDED then SuspBlocked else Blocked)
  {
    hide Inv;
    hide Move;
    hide Find;
    if Blocking(s, name).Some? {
      FoundLives(s, name.value);
      var p := Find(s, name.value).value;
      var a := s.attr[p];
      MoveLaw(s, p, a.(exec := BLOCKED), if a.disp == SUSPENDED then SuspBlocked else Blocked);
    }
  }

  /** unblock: a process of such a name becomes READY, whatever it was before, and stays suspended or not. */
  lemma UnblockLaw(s: State, name: Option<CStr>)
    requires Inv(s)
    ensures var r := Step(s, EUnblock(name));
      if name.None? || |name.value| > 8 || Find(s, name.value).None? then r == Some(s)
      else
        var p, a := Find(s, name.value).value, s.attr[Find(s, name.value).value];
        Moves(s, r, p, a.(exec := READY), if a.disp == SUSPENDED then SuspReady else Ready)
  {
    hide Inv;
    hide Move;
    hide Find;
    if Unblocking(s, name).Some? {
      FoundLives(s, name.value);
      var p := Find(s, name.value).value;
      var a := s.attr[p];
      MoveLaw(s, p, a.(exec := READY), if a.disp == SUSPENDED then SuspReady else Ready);
    }
  }

  /** set priority: -1 and no change when no process has the name, -2 and no change outside 0 to 9, else 0:
      a READY process is filed again in the queue it is in, a BLOCKED one keeps its place. */
  lemma PriorityLaw(s: State, n: CStr, x: int)
    requires Inv(s)
    ensures PriorityCode(s, n, x) == if Find(s, n).None? then -1 else if 0 <= x <= 9 then 0 else -2
    ensures var r := Step(s, ESetPriority(n, x));
      if Find(s, n).None? || !(0 <= x <= 9) then r == Some(s)
      else
        var p, a := Find(s, n).value, s.attr[Find(s, n).value];
        if a.exec == READY then
          r.Some? && Refiled(s, r.value, p, a.(priority := x), if a.disp == SUSPENDED then SuspReady else Ready)
        else r == Some(s.(attr := s.attr[p := a.(priority := x)]))
  {
    hide Inv;
    hide Move;
    hide Find;
    hide Refiled;
    if Find(s, n).Some? {
      FoundLives(s, n);
      var a := s.attr[Find(s, n).value];
      if a.exec == READY {
        MoveLaw(s, Find(s, n).value, a.(priority := x), if a.disp == SUSPENDED then SuspReady else Ready);
      }
    }
  }

  // ------------------------------------------------------------ load and delete

  /** load never faults: a READY, NOT_SUSPENDED process goes to its stable place in the ready queue. */
  lemma LoadLaw(s: State, p: Pcb, a: Attributes)
    requires Inv(s) && p !in s.attr && a.exec == READY && a.disp == NOT_SUSPENDED
    ensures var r := Step(s, ELoad(p, a));
      && r.Some? && r.value.attr == s.attr[p := a]
      && r.value.current == s.current && r.value.initial == s.initial && r.value.insertFlag == s.insertFlag
      && StablyInserted(r.value, Items(s, Ready), p, Items(r.value, Ready))
      && forall q :: q != Ready ==> Items(r.value, q) == Items(s, q)
  {
    var d, s1 := Running(s), s.(attr := s.attr[p := a]);
    QueuedUpdate(s, d, p, a);
    InsertIsStable(s1, d + {p}, p);
    StableFrame(s1, Insert(s1, p).value, Items(s, Ready), p, Items(Insert(s1, p).value, Ready));
  }

  /** delete: a user process of the name is gone from the system and from its queue; anything else is
      refused. */
  lemma DeleteLaw(s: State, name: Option<CStr>)
    requires Inv(s)
    ensures var r := Step(s, EDelete(name));
      if name.None? || name.value == [] || Find(s, name.value).None?
         || s.attr[Find(s, name.value).value].cls == SYSTEM_PROCESS then r == Some(s)
      else
        var p := Find(s, name.value).value;
        && r.Some? && r.value.attr == s.attr - {p}
        && r.value.current == s.current && r.value.initial == s.initial && r.value.insertFlag == s.insertFlag
        && forall q :: p !in Items(r.value, q) && Items(r.value, q) == Without(Items(s, q), p)
  {
    hide Inv;
    hide Find;
    if name.Some? && Find(s, name.value).Some? {
      var p := Find(s, name.value).value;
      FoundLives(s, name.value);
      OutOfAll(s, p);
      assert forall q :: Items(Forget(Remove(s, p), p), q) == Items(Remove(s, p), q);
    }
  }

  lemma OutOfAll(s: State, p: Pcb)
    requires Inv(s) && p in s.attr
    ensures forall q :: p !in Items(Remove(s, p), q) && Items(Remove(s, p), q) == Without(Items(s, q), p)
  {
    QueuedRemove(s, Running(s), p);
    forall q ensures p !in Items(Remove(s, p), q) {
      assert QueueOk(s, q, Running(s));
      QueueDistinct(s, q, Running(s));
      WithoutMembers(Items(s, q), p, p);
    }
  }

  // ------------------------------------------------------------ system calls

  /** What a call that finds a ready process does to the queues: the front runs, and a process that yields is
      filed behind the rest. */
  lemma DispatchLaw(s: State, d: set<Pcb>)
    requires Queued(s, d) && d == Running(s) && Items(s, Ready) != []
    requires s.current.Some? ==> Home(s.attr[s.current.value]) == Ready && s.insertFlag == 1
    ensures Dispatch(s).Some? && Items(s, Ready)[0] in s.attr
    ensures var s', r, next := Dispatch(s).value.0, Dispatch(s).value.1, Items(s, Ready)[0];
      && s' == s.(queues := s'.queues, arrival := s'.arrival, clock := s'.clock, insertFlag := 0, current := Some(next))
      && r == s.attr[next].ctx
      && (forall q :: q != Ready ==> Items(s', q) == Items(s, q))
      && if s.current.Some? then StablyInserted(s', Items(s, Ready)[1..], s.current.value, Items(s', Ready))
         else Items(s', Ready) == Items(s, Ready)[1..]
  {
    var next := Items(s, Ready)[0];
    var s1 := Remove(s, next);
    assert QueueOk(s, Ready, d);
    assert Member(s, Ready, d, next);
    QueuedRemove(s, d, next);
    RemoveIsExact(s, d, next, Ready, 0);
    FrontGone(s, d);
    if s.current.Some? {
      var c := s.current.value;
      InsertIsStable(s1, d + {next}, c);
      StableFrame(s1, Dispatch(s).value.0, Items(s1, Ready), c, Items(Dispatch(s).value.0, Ready));
    }
  }

  lemma FrontGone(s: State, d: set<Pcb>)
    requires Queued(s, d) && Items(s, Ready) != []
    ensures Items(Remove(s, Items(s, Ready)[0]), Ready) == Items(s, Ready)[1..]
  {
    assert QueueOk(s, Ready, d);
    QueueDistinct(s, Ready, d);
    WithoutAt(Items(s, Ready), 0);
  }

  /** IDLE (operation 1) with a ready process: the front runs on its saved context; the caller is READY, has saved the
      context it passed, and goes behind the others of its priority in the ready queue. */
  lemma IdleLaw(s: State, ctx: Context)
    requires Inv(s) && Items(s, Ready) != []
    ensures SysCall(s, 1, ctx).Some? && Items(s, Ready)[0] in s.attr
    ensures var s', r, next := SysCall(s, 1, ctx).value.0, SysCall(s, 1, ctx).value.1, Items(s, Ready)[0];
      && s'.current == Some(next) && r == s.attr[next].ctx && s'.insertFlag == 0
      && s'.initial == (if s.initial.None? then Some(ctx) else s.initial)
      && (forall q :: q != Ready ==> Items(s', q) == Items(s, q))
      && match s.current
         case None => s'.attr == s.attr && Items(s', Ready) == Items(s, Ready)[1..]
         case Some(c) =>
           && c in s.attr && s'.attr == s.attr[c := s.attr[c].(exec := READY, ctx := ctx)]
           && StablyInserted(s', Items(s, Ready)[1..], c, Items(s', Ready))
  {
    hide Dispatch;
    hide StablyInserted;
    IdleEntryQueued(s, ctx);
    DispatchLaw(IdleEntry(s, ctx), Running(s));
    ReadyFrontLive(s);
    IdleKeeps(s, ctx);
  }

  /** EXIT (operation 0) of a process with a ready one: the caller is gone from the system, and the front runs. */
  lemma ExitLaw(s: State, ctx: Context)
    requires Inv(s) && Items(s, Ready) != [] && s.current.Some?
    ensures SysCall(s, 0, ctx).Some? && Items(s, Ready)[0] in s.attr
    ensures var s', r, next := SysCall(s, 0, ctx).value.0, SysCall(s, 0, ctx).value.1, Items(s, Ready)[0];
      && s'.current == Some(next) && r == s.attr[next].ctx && s'.insertFlag == 0 && s'.initial == s.initial
      && s'.attr == s.attr - {s.current.value}
      && Items(s', Ready) == Items(s, Ready)[1..]
      && forall q :: q != Ready ==> Items(s', q) == Items(s, q)
  {
    hide Dispatch;
    hide StablyInserted;
    ExitEntryQueued(s);
    DispatchLaw(ExitEntry(s), {});
    ReadyFrontLive(s);
    ExitKeeps(s, ctx);
  }

  /** Either of them with nobody ready: the first context is handed back and no longer held. IDLE leaves the
      caller the current process, with its context saved and the flag set; after EXIT there is none. */
  lemma HandBackLaw(s: State, op: Word, ctx: Context)
    requires Inv(s) && op <= 1 && Items(s, Ready) == [] && SysCall(s, op, ctx).Some?
    ensures var s', r := SysCall(s, op, ctx).value.0, SysCall(s, op, ctx).value.1;
      && s'.initial == None && (forall q :: Items(s', q) == Items(s, q))
      && (op == 1 ==> r == if s.initial.None? then ctx else s.initial.value)
      && (op == 0 ==> s.initial == Some(r))
      && match s.current
         case None => s'.attr == s.attr && s'.current == None && s'.insertFlag == s.insertFlag
         case Some(c) =>
           && c in s.attr
           && if op == 0 then s'.attr == s.attr - {c} && s'.current == None && s'.insertFlag == s.insertFlag
              else
                && s'.attr == s.attr[c := s.attr[c].(exec := READY, ctx := ctx)]
                && s'.current == Some(c) && s'.insertFlag == 1
  {
    if op == EXIT {
      ExitEntryQueued(s);
    }
  }

  /** Any other operation changes nothing and returns to its caller. */
  lemma UnsupportedLaw(s: State, op: Word, ctx: Context)
    requires op > 1
    ensures SysCall(s, op, ctx) == Some((s, ctx)) && Step(s, ESysCall(op, ctx)) == Some(s)
  {
  }
}
