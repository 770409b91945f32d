/**
 The order of the queues over whole runs: the two ready queues by priority and then by the step that
 last put the process there, the two blocked queues by that step alone.
 */
module Order {
  import opened Common
  import opened Pcbs
  import opened Scheduler
  import opened Steps
  import opened Runs

  /** The process that a step puts in a queue. */
  function Filed(s: State, e: Event): Option<Pcb> {
    match e
    case ELoad(p, a) => Some(p)
    case ESysCall(op, _) => if op == IDLE && Items(s, Ready) != [] then s.current else None
    case _ => if Moved(s, e).Some? then Some(Moved(s, e).value.0) else None
  }

  /** The number of the step that last put p in a queue, 0 when none has. */
  function FiledAt(es: seq<Event>, p: Pcb): nat
    decreases |es|
  {
    if es == [] then 0 else
      var s := Run(Before(es));
      if s.Some? && Filed(s.value, Last(es)) == Some(p) then |es| else FiledAt(Before(es), p)
  }

  /** Only the process that is put in a queue gets a new arrival time, and that is the latest. */
  ghost predicate Stamps(s: State, s': State, filed: Option<Pcb>) {
    && s'.clock == s.clock + (if filed.Some? then 1 else 0)
    && forall p :: p in s'.attr ==> ArrivalOf(s', p) == if filed == Some(p) then s.clock else ArrivalOf(s, p)
  }

  lemma MoveStamps(s: State, p: Pcb, a: Attributes)
    requires Move(s, p, a).Some?
    ensures Stamps(s, Move(s, p, a).value, Some(p))
  {
  }

  lemma DispatchStamps(s: State, op: Word, ctx: Context)
    requires Inv(s) && SysCall(s, op, ctx).Some?
    ensures Stamps(s, SysCall(s, op, ctx).value.0, Filed(s, ESysCall(op, ctx)))
  {
    if Items(s, Ready) != [] {
      ReadyFrontLive(s);
      if op == EXIT { ExitEntryQueued(s); }
    }
  }

  lemma StepStamps(s: State, e: Event)
    requires Inv(s) && Step(s, e).Some?
    ensures Stamps(s, Step(s, e).value, Filed(s, e))
  {
    match e
    case ELoad(p, a) =>
    case EDelete(_) =>
    case ESuspend(n) =>
      if Filed(s, e).Some? { var p := Find(s, n).value; MoveStamps(s, p, s.attr[p].(disp := SUSPENDED)); }
    case EResume(n) =>
      if Filed(s, e).Some? { var p := Find(s, n.value).value; MoveStamps(s, p, s.attr[p].(disp := NOT_SUSPENDED)); }
    case EBlock(n) =>
      if Filed(s, e).Some? { var p := Find(s, n.value).value; MoveStamps(s, p, s.attr[p].(exec := BLOCKED)); }
    case EUnblock(n) =>
      if Filed(s, e).Some? { var p := Find(s, n.value).value; MoveStamps(s, p, s.attr[p].(exec := READY)); }
    case ESetPriority(n, x) =>
      if Filed(s, e).Some? { var p := Find(s, n).value; MoveStamps(s, p, s.attr[p].(priority := x)); }
    case ESysCall(op, ctx) => DispatchStamps(s, op, ctx);
  }

  /** Arrival times order the live processes as the steps that filed them do. */
  ghost predicate Agrees(es: seq<Event>, s: State) {
    && (forall p :: p in s.attr ==> ArrivalOf(s, p) < s.clock && 0 < FiledAt(es, p) <= |es|)
    && (forall p, q :: p in s.attr && q in s.attr ==>
          (ArrivalOf(s, p) < ArrivalOf(s, q) <==> FiledAt(es, p) < FiledAt(es, q)))
  }

  lemma {:induction false} RunAgrees(es: seq<Event>)
    requires Run(es).Some?
    ensures Agrees(es, Run(es).value)
    decreases |es|
  {
    if es != [] {
      RunStep(es);
      RunAgrees(Before(es));
      StepAgrees(es, Run(Before(es)).value, Last(es), Run(es).value);
    }
  }

  lemma StepAgrees(es: seq<Event>, s: State, e: Event, s': State)
    requires es != [] && Inv(s) && Agrees(Before(es), s) && Step(s, e) == Some(s')
    requires forall p :: FiledAt(es, p) == if Filed(s, e) == Some(p) then |es| else FiledAt(Before(es), p)
    ensures Agrees(es, s')
  {
    StepFollows(s, e);
    StepStamps(s, e);
    forall p | p in s'.attr && Filed(s, e) != Some(p) ensures p in s.attr { }
  }

  /** The order in which processes stand in their queues, in every reachable state: strictly by
      (priority number, step that last filed it) in the two ready queues, and by that step in the two
      blocked queues. */
  lemma QueuesInOrder(es: seq<Event>, q: QueueId, i: nat, j: nat)
    requires Run(es).Some? && i < j < |Items(Run(es).value, q)|
    ensures var s := Run(es).value;
            var a, b := Items(s, q)[i], Items(s, q)[j];
            && a in s.attr && b in s.attr
            && (if Ordered(q) then
                  s.attr[a].priority < s.attr[b].priority
                  || (s.attr[a].priority == s.attr[b].priority && FiledAt(es, a) < FiledAt(es, b))
                else FiledAt(es, a) < FiledAt(es, b))
  {
    var s := Run(es).value;
    RunInvariant(es);
    RunAgrees(es);
    InOrderAt(s, q, i, j);
  }

  lemma InOrderAt(s: State, q: QueueId, i: nat, j: nat)
    requires Inv(s) && i < j < |Items(s, q)|
    ensures var a, b := Items(s, q)[i], Items(s, q)[j];
            a in s.attr && b in s.attr && Precedes(s, q, a, b)
  {
    assert QueueOk(s, q, Running(s));
    assert Member(s, q, Running(s), Items(s, q)[i]) && Member(s, q, Running(s), Items(s, q)[j]);
  }
}
