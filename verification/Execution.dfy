/** Whole runs on the heap: from kmain (kernel/kmain.c:91-98) on, the lists and variables stand for the
    state that the run has reached. */
module Execution {
  import opened Common
  import opened Pcbs
  import opened Scheduler
  import opened Steps
  import opened Runs
  import opened Kernel
  import Commands
  import Dispatcher

  /** The heap is in the state that the events es lead to from boot. */
  ghost predicate Mirrors(m: Machine, es: seq<Event>)
    reads m, m.readyQ, m.blockedQ, m.suspReadyQ, m.suspBlockedQ, m.view.attr.Keys
  {
    m.Valid() && Run(es) == Some(m.view)
  }

  lemma OneMoreEvent(es: seq<Event>, e: Event)
    requires Run(es).Some? && !Ended(es) && Allowed(es, Run(es).value, e)
    ensures Run(es + [e]) == Step(Run(es).value, e)
    ensures Ended(es + [e]) <==> HandsBack(Run(es).value, e)
  {
  }

  /** load in a run. */
  method RunLoad(m: Machine, name: CStr, cls: ProcessClass, priority: int, ghost es: seq<Event>) returns (p: Pcb)
    requires Mirrors(m, es) && !Ended(es) && |name| <= Commands.LONGEST_NAME
    modifies m`readyQ, m`blockedQ, m`suspReadyQ, m`suspBlockedQ, m`view
    modifies m.readyQ, m.blockedQ, m.suspReadyQ, m.suspBlockedQ, m.view.attr.Keys`next
    ensures fresh(p) && p in m.view.attr && Mirrors(m, es + [ELoad(p, m.view.attr[p])])
    ensures !Ended(es + [ELoad(p, m.view.attr[p])])
    ensures var a := m.view.attr[p];
      a == Attributes(Commands.StoredName(name, cls), cls, priority, READY, NOT_SUSPENDED, a.ctx)
  {
    hide Machine.Linked;
    hide Inv;
    p := Commands.Start(m, name, cls, priority);
    assert p !in Loaded(es);
    OneMoreEvent(es, ELoad(p, m.view.attr[p]));
  }

  /** A command that does not fault, in a run. */
  method RunCommand(m: Machine, e: Event, ghost es: seq<Event>)
    requires Mirrors(m, es) && !Ended(es) && !e.ELoad? && !e.ESysCall? && Step(m.view, e).Some?
    modifies m`readyQ, m`blockedQ, m`suspReadyQ, m`suspBlockedQ, m`view
    modifies m.readyQ, m.blockedQ, m.suspReadyQ, m.suspBlockedQ, m.view.attr.Keys
    ensures Mirrors(m, es + [e]) && !Ended(es + [e])
  {
    hide Machine.Linked;
    hide Inv;
    OneMoreEvent(es, e);
    Commands.Perform(m, e);
  }

  /** A system call in a run never faults. The context it answers with is the one that the process it
      dispatches has saved, or the caller's when the operation is not supported. */
  method RunSystemCall(m: Machine, ctx: Context, ghost es: seq<Event>) returns (r: Context)
    requires Mirrors(m, es) && !Ended(es) && (ctx.eax == EXIT ==> m.currentProcess != null)
    modifies m, m.readyQ, m.blockedQ, m.suspReadyQ, m.suspBlockedQ
    modifies m.view.attr.Keys`next, m.view.attr.Keys`executionState, m.view.attr.Keys`stackPtr
    modifies Dispatcher.Contexts(m, ctx)
    ensures Mirrors(m, es + [ESysCall(old(ctx.eax), ctx)])
    ensures Ended(es + [ESysCall(old(ctx.eax), ctx)]) <==> HandsBack(old(m.view), ESysCall(old(ctx.eax), ctx))
    ensures old(ctx.eax) != IDLE && old(ctx.eax) != EXIT ==> r == ctx && r.eax == 0xFFFF_FFFF && m.view == old(m.view)
    ensures (old(ctx.eax) == IDLE || old(ctx.eax) == EXIT) && !HandsBack(old(m.view), ESysCall(old(ctx.eax), ctx)) ==>
      r.eax == 0 && m.currentProcess != null && LastContext(es, m.currentProcess) == Some(r)
    ensures HandsBack(old(m.view), ESysCall(old(ctx.eax), ctx)) ==>
      r.eax == 0 && FirstContext(es + [ESysCall(old(ctx.eax), ctx)]) == Some(r)
  {
    hide Machine.Linked;
    hide Inv;
    ghost var op := ctx.eax;
    OneMoreEvent(es, ESysCall(op, ctx));
    DispatcherNeverFaults(es, ESysCall(op, ctx));
    if (op == IDLE || op == EXIT) && !HandsBack(m.view, ESysCall(op, ctx)) {
      ContextFidelity(es, op, ctx);
    }
    if HandsBack(m.view, ESysCall(op, ctx)) {
      FirstIsHandedBack(es, op, ctx);
    }
    r := Dispatcher.SystemCall(m, ctx);
  }

  // ------------------------------------------------------------ the lists

  function FrontOf(queue: Queue?): Pcb?
    reads queue
  {
    if queue == null then null else queue.front
  }

  lemma ListAt(m: Machine, q: QueueId, queue: Queue?)
    requires m.Chained() && FrontOk(m.view.queues, q, queue)
    ensures Linked(FrontOf(queue), Items(m.view, q))
  {
    forall i: nat | i < |Items(m.view, q)| ensures Items(m.view, q)[i].next == At(Items(m.view, q), i + 1) {
      m.LinkAt(q, i);
    }
  }

  /** Wherever a run has led, following the links from the four fronts spells the four queues, each of
      which ends; no process is in two of them or twice in one; the running process is in none and its
      link is null. */
  lemma MirroredLists(m: Machine, es: seq<Event>)
    requires Mirrors(m, es)
    ensures Linked(FrontOf(m.readyQ), Items(m.view, Ready)) && Linked(FrontOf(m.blockedQ), Items(m.view, Blocked))
    ensures Linked(FrontOf(m.suspReadyQ), Items(m.view, SuspReady))
    ensures Linked(FrontOf(m.suspBlockedQ), Items(m.view, SuspBlocked))
    ensures InPlace(m.view) && m.view.attr.Keys == Loaded(es) - Gone(es)
    ensures m.currentProcess != null ==> m.currentProcess.next == null
  {
    ListAt(m, Ready, m.readyQ);
    ListAt(m, Blocked, m.blockedQ);
    ListAt(m, SuspReady, m.suspReadyQ);
    ListAt(m, SuspBlocked, m.suspBlockedQ);
    EveryProcessInItsPlace(es);
    if m.currentProcess != null {
      forall q ensures m.currentProcess !in List(m.view.queues, q) {
        Dispatcher.CurrentUnlisted(m.view, q);
      }
      NextNowhere(m.view.queues, m.currentProcess);
    }
  }

  // ------------------------------------------------------------ kmain

  const COMHAND: CStr := [0x43, 0x6F, 0x6D, 0x68, 0x61, 0x6E, 0x64]
  const SYS_I: CStr := [0x53, 0x79, 0x73, 0x5F, 0x69]

  lemma FirstLoad(s: State, p: Pcb, a: Attributes)
    requires Load(Boot, p, a) == Some(s) && Home(a) == Ready
    ensures Items(s, Ready) == [p] && s.attr == map[p := a] && s.current == None && s.initial == None
    ensures s.queues.Keys == {Ready}
  {
  }

  lemma SecondLoad(s: State, s': State, p: Pcb, a: Attributes, q: Pcb, b: Attributes)
    requires Items(s, Ready) == [p] && s.attr == map[p := a] && s.current == None && s.initial == None
    requires Load(s, q, b) == Some(s') && Home(b) == Ready && p != q && a.priority <= b.priority
    requires s.queues.Keys == {Ready}
    ensures s'.queues.Keys == {Ready}
    ensures Items(s', Ready) == [p, q] && s'.attr == map[p := a, q := b] && s'.current == None && s'.initial == None
  {
  }

  lemma FirstIdle(s: State, p: Pcb, q: Pcb, ctx: Context)
    requires Inv(s) && Items(s, Ready) == [p, q] && s.current == None && s.initial == None && s.insertFlag == 0
    ensures SysCall(s, IDLE, ctx).Some? && SysCall(s, IDLE, ctx).value.0.queues.Keys == s.queues.Keys
    ensures var s' := SysCall(s, IDLE, ctx).value.0;
      s'.current == Some(p) && Items(s', Ready) == [q] && s'.initial == Some(ctx) && s'.attr == s.attr
  {
    IdleKeeps(s, ctx);
    assert QueueOk(s, Ready, Running(s));
    QueueDistinct(s, Ready, Running(s));
    WithoutAt([p, q], 0);
  }

  /** The events of kmain (96-98): it loads the command handler and the idle process and yields. */
  function BootEvents(p: Pcb, a: Attributes, q: Pcb, b: Attributes, ctx: Context): seq<Event> {
    [ELoad(p, a), ELoad(q, b), ESysCall(IDLE, ctx)]
  }

  /** The attributes load gives. */
  predicate AsLoaded(a: Attributes, name: CStr, priority: int) {
    a == Attributes(name, SYSTEM_PROCESS, priority, READY, NOT_SUSPENDED, a.ctx)
  }

  /** Nothing but its own EXIT ends a system process. */
  lemma StillPermanent(es: seq<Event>, e: Event, p: Pcb)
    requires Permanent(es, p) && !(e.ELoad? && e.p == p) && !(e.ESysCall? && e.op == EXIT)
    ensures Permanent(es + [e], p)
  {
  }

  lemma BothPermanent(p: Pcb, a: Attributes, q: Pcb, b: Attributes, ctx: Context)
    requires a.cls == b.cls == SYSTEM_PROCESS && p != q
    ensures Permanent(BootEvents(p, a, q, b, ctx), p) && Permanent(BootEvents(p, a, q, b, ctx), q)
  {
    var e1, e2 := [ELoad(p, a)], [ELoad(p, a), ELoad(q, b)];
    assert e1 + [ELoad(q, b)] == e2 && e2 + [ESysCall(IDLE, ctx)] == BootEvents(p, a, q, b, ctx);
    assert Permanent(e1, p) && Permanent(e2, q);
    StillPermanent(e1, ELoad(q, b), p);
    StillPermanent(e2, ESysCall(IDLE, ctx), p);
    StillPermanent(e2, ESysCall(IDLE, ctx), q);
  }

  lemma BothLoaded(p: Pcb, a: Attributes, q: Pcb, b: Attributes)
    requires AsLoaded(a, COMHAND, 0) && AsLoaded(b, SYS_I, 9) && p != q
    ensures var es := [ELoad(p, a), ELoad(q, b)];
      && Run(es).Some? && !Ended(es)
      && var s := Run(es).value;
      && Items(s, Ready) == [p, q] && s.attr == map[p := a, q := b] && s.current == None && s.initial == None
      && s.queues.Keys == {Ready}
  {
    var e1, e2 := [ELoad(p, a)], [ELoad(p, a), ELoad(q, b)];
    assert [] + [ELoad(p, a)] == e1 && e1 + [ELoad(q, b)] == e2;
    OneMoreEvent([], ELoad(p, a));
    FirstLoad(Run(e1).value, p, a);
    OneMoreEvent(e1, ELoad(q, b));
    SecondLoad(Run(e1).value, Run(e2).value, p, a, q, b);
  }

  /** Booting reaches a state in which the command handler starts on the context built for it, the idle
      process waits in the ready queue, kmain's context is kept, and neither process can be lost but by
      its own EXIT. */
  lemma KMain(p: Pcb, a: Attributes, q: Pcb, b: Attributes, ctx: Context)
    requires AsLoaded(a, COMHAND, 0) && AsLoaded(b, SYS_I, 9) && p != q
    ensures var es := BootEvents(p, a, q, b, ctx);
      && Run(es).Some? && !Ended(es) && Permanent(es, p) && Permanent(es, q)
      && var s := Run(es).value;
      && s.current == Some(p) && Items(s, Ready) == [q] && s.initial == Some(ctx) && s.attr == map[p := a, q := b]
      && s.queues.Keys == {Ready}
      && LastContext(es, p) == Some(a.ctx)
  {
    var e2, es := [ELoad(p, a), ELoad(q, b)], BootEvents(p, a, q, b, ctx);
    assert e2 + [ESysCall(IDLE, ctx)] == es;
    BothLoaded(p, a, q, b);
    RunInvariant(e2);
    FirstIdle(Run(e2).value, p, q, ctx);
    OneMoreEvent(e2, ESysCall(IDLE, ctx));
    BothPermanent(p, a, q, b, ctx);
    SavedContexts(es);
  }
}
