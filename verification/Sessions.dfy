/** Sessions at the terminal: two in which the PCB commands do not do what they are meant to, and one that
    shuts the system down. */
module Sessions {
  import opened Common
  import opened Pcbs
  import opened Scheduler
  import opened Steps
  import opened Runs
  import opened Execution
  import CommandLaws
  import Laws

  /** What load gives a user process. */
  predicate AsUser(a: Attributes, name: CStr, priority: int) {
    a == Attributes(name, USER_APP, priority, READY, NOT_SUSPENDED, a.ctx)
  }

  /** The kernel has booted: p is the command handler and q the idle process. */
  predicate Booted(p: Pcb, a: Attributes, q: Pcb, b: Attributes) {
    AsLoaded(a, COMHAND, 0) && AsLoaded(b, SYS_I, 9) && p != q
  }

  // ------------------------------------------------------------ block, unblock, block

  /** A process that the command handler has just loaded, under a name of its own. */
  lemma AloneAfterLoad(es: seq<Event>, u: Pcb, c: Attributes, n: CStr)
    requires Run(es).Some? && !Ended(es) && u !in Loaded(es) && |n| <= 8 && AsUser(c, n, c.priority)
    requires Run(es).value.queues.Keys == {Ready}
    requires forall x :: x in Run(es).value.attr ==> Run(es).value.attr[x].name != n
    ensures var es' := es + [ELoad(u, c)];
      Run(es').Some? && !Ended(es') && Laws.Alone(Run(es').value, u, n) && Blocked !in Run(es').value.queues
  {
    RunInvariant(es);
    OneMoreEvent(es, ELoad(u, c));
    RunInvariant(es + [ELoad(u, c)]);
  }

  lemma BootLoaded(p: Pcb, a: Attributes, q: Pcb, b: Attributes, ctx: Context)
    ensures Loaded(BootEvents(p, a, q, b, ctx)) == {p, q}
  {
    var es := BootEvents(p, a, q, b, ctx);
    assert es[0].p == p && es[1].p == q;
  }

  lemma BlockTwice(es: seq<Event>, u: Pcb, n: CStr)
    requires Run(es).Some? && !Ended(es) && Laws.Alone(Run(es).value, u, n) && Blocked !in Run(es).value.queues
    ensures var es' := es + [EBlock(Some(n))] + [EUnblock(Some(n))];
      && Run(es').Some? && !Ended(es') && Step(Run(es').value, EBlock(Some(n))).None?
  {
    hide Laws.Alone;
    hide Run;
    hide Carry;
    Laws.BlockAgainFaults(Run(es).value, u, n);
    OneMoreEvent(es, EBlock(Some(n)));
    OneMoreEvent(es + [EBlock(Some(n))], EUnblock(Some(n)));
  }

  /** After booting, load a process, block it, unblock it, and the next block dereferences a null front. */
  lemma BlockTwiceFaults(p: Pcb, a: Attributes, q: Pcb, b: Attributes, ctx: Context, u: Pcb, c: Attributes, n: CStr)
    requires Booted(p, a, q, b) && u !in {p, q}
    requires AsUser(c, n, c.priority) && |n| <= 8 && n != COMHAND && n != SYS_I
    ensures var es := BootEvents(p, a, q, b, ctx) + [ELoad(u, c)] + [EBlock(Some(n))] + [EUnblock(Some(n))];
      && Run(es).Some? && !Ended(es) && Step(Run(es).value, EBlock(Some(n))).None?
  {
    hide Laws.Alone;
    hide Run;
    hide Step;
    var es := BootEvents(p, a, q, b, ctx);
    KMain(p, a, q, b, ctx);
    BootLoaded(p, a, q, b, ctx);
    AloneAfterLoad(es, u, c, n);
    BlockTwice(es + [ELoad(u, c)], u, n);
  }

  // ------------------------------------------------------------ suspend and resume of a name that occurs twice

  /** x and y are the processes called n; both are ready, and x was queued first. */
  ghost predicate Twins(s: State, x: Pcb, y: Pcb, n: CStr) {
    && Inv(s) && x != y && x in s.attr && y in s.attr && x !in Running(s) && y !in Running(s)
    && AsUser(s.attr[x], n, s.attr[x].priority) && AsUser(s.attr[y], n, s.attr[x].priority)
    && ArrivalOf(s, x) < ArrivalOf(s, y)
    && forall z :: z in s.attr && s.attr[z].name == n ==> z == x || z == y
  }

  /** The one that was queued first is found. */
  lemma FirstTwin(s: State, x: Pcb, y: Pcb, n: CStr)
    requires Twins(s, x, y, n)
    ensures Find(s, n) == Some(x)
  {
    assert Placed(s, x) && QueueOk(s, Ready, Running(s));
    var l := Items(s, Ready);
    var i :| 0 <= i < |l| && l[i] == x;
    assert SearchOrder(s)[i] == x && Named(s, x, n);
    forall j | 0 <= j < i ensures !Named(s, SearchOrder(s)[j], n) {
      assert SearchOrder(s)[j] == l[j] && Precedes(s, Ready, l[j], l[i]);
    }
    FindIsFirst(s, n);
  }

  /** Suspending the name and resuming it suspends the first of the two for good: resume takes the second
      one, which was never suspended, out of its queue and files it again. */
  lemma WrongOneResumed(s: State, x: Pcb, y: Pcb, n: CStr)
    requires Twins(s, x, y, n) && |n| <= 8
    ensures Suspend(s, n).Some?
    ensures var s1 := Suspend(s, n).value;
      && Find(s1, n) == Some(y) && Resume(s1, Some(n)) == Move(s1, y, s.attr[y])
      && Resume(s1, Some(n)).Some? && Resume(s1, Some(n)).value.attr == s.attr[x := s.attr[x].(disp := SUSPENDED)]
  {
    hide Move;
    hide Suspend;
    FirstTwin(s, x, y, n);
    assert Laws.Shadows(s, n, x, y);
    Laws.FoundAgainIff(s, n, x);
    var k := Laws.SuspendMoves(s, n, x);
    CommandKeeps(s, ESuspend(n));
    SecondTwin(Suspend(s, n).value, x, y, n);
  }

  lemma SecondTwin(s: State, x: Pcb, y: Pcb, n: CStr)
    requires Inv(s) && y in s.attr && y !in Running(s) && AsUser(s.attr[y], n, s.attr[y].priority) && |n| <= 8
    requires Find(s, n) != Some(x) && forall z :: z in s.attr && s.attr[z].name == n ==> z == x || z == y
    ensures Find(s, n) == Some(y) && Resume(s, Some(n)) == Move(s, y, s.attr[y])
    ensures Resume(s, Some(n)).Some? && Resume(s, Some(n)).value.attr == s.attr
  {
    hide Inv;
    hide Move;
    Laws.MoveFaultsIff(s, y, s.attr[y]);
    FindLive(s, y, n);
    FoundIsQueued(s, n);
    MoveAttr(s, y);
  }

  lemma FindLive(s: State, y: Pcb, n: CStr)
    requires Inv(s) && y in s.attr && y !in Running(s) && s.attr[y].name == n
    ensures Find(s, n).Some? && Named(s, Find(s, n).value, n)
  {
    assert Placed(s, y);
    InSearchOrder(s, y);
    FindIsFirst(s, n);
    assert Named(s, y, n);
  }

  lemma MoveAttr(s: State, y: Pcb)
    requires y in s.attr && Move(s, y, s.attr[y]).Some?
    ensures Move(s, y, s.attr[y]).value.attr == s.attr
  {
  }

  lemma TwinsAfterLoads(es: seq<Event>, x: Pcb, c: Attributes, y: Pcb, d: Attributes, n: CStr)
    requires Run(es).Some? && !Ended(es) && x !in Loaded(es) && y !in Loaded(es) && x != y
    requires AsUser(c, n, c.priority) && AsUser(d, n, c.priority)
    requires forall z :: z in Run(es).value.attr ==> Run(es).value.attr[z].name != n
    ensures var es' := es + [ELoad(x, c)] + [ELoad(y, d)];
      && Run(es').Some? && !Ended(es') && Twins(Run(es').value, x, y, n)
      && Run(es').value.attr == Run(es).value.attr[x := c][y := d]
  {
    var e1 := es + [ELoad(x, c)];
    RunInvariant(es);
    OneMoreEvent(es, ELoad(x, c));
    RunInvariant(e1);
    assert Loaded(e1) == Loaded(es) + {x} by { LoadedGrows(e1); }
    OneMoreEvent(e1, ELoad(y, d));
    RunInvariant(e1 + [ELoad(y, d)]);
  }

  lemma SuspendTwin(es: seq<Event>, x: Pcb, y: Pcb, n: CStr)
    requires Run(es).Some? && !Ended(es) && Twins(Run(es).value, x, y, n) && |n| <= 8
    ensures var s, e1, e2 := Run(es).value, es + [ESuspend(n)], es + [ESuspend(n)] + [EResume(Some(n))];
      && Run(e1).Some? && Find(Run(e1).value, n) == Some(y) && Run(e2) == Move(Run(e1).value, y, s.attr[y])
      && Run(e2).Some? && !Ended(e2) && Run(e2).value.attr == s.attr[x := s.attr[x].(disp := SUSPENDED)]
  {
    hide Inv;
    var e1 := es + [ESuspend(n)];
    WrongOneResumed(Run(es).value, x, y, n);
    OneMoreEvent(es, ESuspend(n));
    OneMoreEvent(e1, EResume(Some(n)));
  }

  /** After booting, load two processes of the same name and priority, suspend the name and resume it: the
      first stays SUSPENDED; the second, which was READY all along, has been filed again. */
  lemma ResumeMissesTwin(p: Pcb, a: Attributes, q: Pcb, b: Attributes, ctx: Context,
                         x: Pcb, c: Attributes, y: Pcb, d: Attributes, n: CStr)
    requires Booted(p, a, q, b) && x !in {p, q} && y !in {p, q} && x != y
    requires AsUser(c, n, c.priority) && AsUser(d, n, c.priority) && |n| <= 8 && n != COMHAND && n != SYS_I
    ensures var es := BootEvents(p, a, q, b, ctx) + [ELoad(x, c)] + [ELoad(y, d)] + [ESuspend(n)];
      && Run(es).Some? && Find(Run(es).value, n) == Some(y)
      && var es' := es + [EResume(Some(n))];
      && Run(es').Some? && !Ended(es') && Run(es') == Move(Run(es).value, y, d)
      && Run(es').value.attr == map[p := a, q := b, x := c.(disp := SUSPENDED), y := d]
  {
    hide Twins;
    hide Run;
    var es := BootEvents(p, a, q, b, ctx);
    KMain(p, a, q, b, ctx);
    BootLoaded(p, a, q, b, ctx);
    TwinsAfterLoads(es, x, c, y, d, n);
    SuspendTwin(es + [ELoad(x, c)] + [ELoad(y, d)], x, y, n);
  }

  // ------------------------------------------------------------ shutting down

  /** After booting, the command handler exits and the idle process then yields: nobody is ready, and kmain
      gets the context back that it passed when it yielded. */
  lemma ShutDown(p: Pcb, a: Attributes, q: Pcb, b: Attributes, ctx: Context, c1: Context, c2: Context)
    requires Booted(p, a, q, b)
    ensures var es := BootEvents(p, a, q, b, ctx) + [ESysCall(EXIT, c1)];
      && Run(es).Some? && !Ended(es) && Run(es).value.current == Some(q)
      && HandsBack(Run(es).value, ESysCall(IDLE, c2))
      && SysCall(Run(es).value, IDLE, c2).Some? && SysCall(Run(es).value, IDLE, c2).value.1 == ctx
  {
    hide SysCall;
    hide Inv;
    var e0 := BootEvents(p, a, q, b, ctx);
    var e1 := e0 + [ESysCall(EXIT, c1)];
    KMain(p, a, q, b, ctx);
    RunInvariant(e0);
    CommandLaws.ExitLaw(Run(e0).value, c1);
    OneMoreEvent(e0, ESysCall(EXIT, c1));
    FirstIsHeld(e0);
    FirstOf(e0, ESysCall(EXIT, c1));
    FirstOf(e1, ESysCall(IDLE, c2));
    FirstIsHandedBack(e1, IDLE, c2);
  }
}
