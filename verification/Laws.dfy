/** What the queue operations and the PCB commands do to the queues, and exactly when they fault. */
module Laws {
  import opened Common
  import opened Pcbs
  import opened Scheduler
  import opened Steps

  // ------------------------------------------------------------ stable insertion and removal

  /** list' is list with p put in stably: every PCB whose priority number is at most p's stands before
      it, every larger one after it, and the others keep their order. */
  ghost predicate StablyInserted(s: State, list: seq<Pcb>, p: Pcb, list': seq<Pcb>) {
    exists k: nat :: k <= |list| && list' == Spliced(list, k, p)
      && (forall i :: 0 <= i < k ==> PriorityOf(s, list[i]) <= PriorityOf(s, p))
      && (forall i :: k <= i < |list| ==> PriorityOf(s, list[i]) > PriorityOf(s, p))
  }

  /** pcb_insert on a reachable state inserts stably in an ordered queue, appends in a FIFO queue, and
      changes no other queue. */
  lemma InsertIsStable(s: State, d: set<Pcb>, p: Pcb)
    requires Queued(s, d) && p in d && !InsertFaults(s, p)
    ensures var s', h := Insert(s, p).value, Home(s.attr[p]);
            && (if Ordered(h) then StablyInserted(s, Items(s, h), p, Items(s', h))
                else Items(s', h) == Items(s, h) + [p])
            && forall q :: q != h ==> Items(s', q) == Items(s, q)
  {
    var h := Home(s.attr[p]);
    var l, k := Items(s, h), Place(s, p);
    if Ordered(h) {
      assert QueueOk(s, h, d);
      PositionIs(s, l, PriorityOf(s, p), 0, k);
      forall i | k <= i < |l| ensures PriorityOf(s, l[i]) > PriorityOf(s, p) {
        assert i == k || Precedes(s, h, l[k], l[i]);
      }
      assert Items(Insert(s, p).value, h) == Spliced(l, k, p);
    } else {
      assert Spliced(l, |l|, p) == l + [p];
    }
  }

  /** Stable insertion has one result. */
  lemma StableIsUnique(s: State, list: seq<Pcb>, p: Pcb, a: seq<Pcb>, b: seq<Pcb>)
    requires StablyInserted(s, list, p, a) && StablyInserted(s, list, p, b)
    ensures a == b
  {
  }

  lemma WithoutExact(l: seq<Pcb>, k: nat)
    requires k < |l| && Distinct(l)
    ensures var r := Without(l, l[k]); k <= |r| && Spliced(r, k, l[k]) == l && l[k] !in r
  {
    WithoutAt(l, k);
    WithoutMembers(l, l[k], l[k]);
  }

  /** pcb_remove takes exactly p out, from the one queue that holds it, and keeps the order of the rest;
      putting p back where it stood restores the list. */
  lemma RemoveIsExact(s: State, d: set<Pcb>, p: Pcb, q: QueueId, k: nat)
    requires Queued(s, d) && k < |Items(s, q)| && Items(s, q)[k] == p
    ensures var l := Items(Remove(s, p), q);
            k <= |l| && Spliced(l, k, p) == Items(s, q) && p !in l
    ensures forall r :: r != q ==> Items(Remove(s, p), r) == Items(s, r)
  {
    assert QueueOk(s, q, d);
    assert Member(s, q, d, p);
    QueueDistinct(s, q, d);
    WithoutExact(Items(s, q), k);
    forall r | r != q ensures Items(Remove(s, p), r) == Items(s, r) {
      RemoveElsewhere(s, d, p, q, r);
    }
  }

  lemma RemoveElsewhere(s: State, d: set<Pcb>, p: Pcb, q: QueueId, r: QueueId)
    requires Queued(s, d) && Member(s, q, d, p) && r != q
    ensures Items(Remove(s, p), r) == Items(s, r)
  {
    assert QueueOk(s, r, d);
    assert forall x :: x in Items(s, r) ==> Member(s, r, d, x);
    WithoutNone(Items(s, r), p);
  }

  // ------------------------------------------------------------ when a command faults

  lemma MovedIsQueued(s: State, e: Event)
    requires Inv(s) && Moved(s, e).Some?
    ensures var p := Moved(s, e).value.0; p in s.attr && p !in Running(s) && p in Items(s, Home(s.attr[p]))
  {
    match e
    case ESuspend(n) => FoundIsQueued(s, n);
    case ESetPriority(n, _) => FoundIsQueued(s, n);
    case EResume(n) => FoundIsQueued(s, n.value);
    case EBlock(n) => FoundIsQueued(s, n.value);
    case EUnblock(n) => FoundIsQueued(s, n.value);
  }

  /** Suspend, resume and block read through a null front exactly when the PCB goes to a blocked queue
      that has been allocated and holds nobody else; the other commands and load never do. */
  lemma CommandFaultsIff(s: State, e: Event)
    requires Inv(s) && Fits(s, e) && !e.ESysCall?
    ensures Step(s, e).None? <==>
              var m := Moved(s, e);
              m.Some? && var h := Home(m.value.1);
              !Ordered(h) && h in s.queues && forall x :: x in s.queues[h] ==> x == m.value.0
  {
    if Moved(s, e).Some? {
      MovedIsQueued(s, e);
      MoveFaultsIff(s, Moved(s, e).value.0, Moved(s, e).value.1);
    }
  }

  lemma WithoutEmpty(l: seq<Pcb>, p: Pcb)
    requires Distinct(l)
    ensures Without(l, p) == [] <==> forall x :: x in l ==> x == p
  {
    hide Without;
    var r := Without(l, p);
    if r == [] {
      forall x | x in l ensures x == p { WithoutMembers(l, p, x); }
    } else {
      assert r[0] in r;
      WithoutMembers(l, p, r[0]);
    }
  }

  lemma MoveFaults(s: State, p: Pcb, a: Attributes)
    ensures var h := Home(a);
            Move(s, p, a).None? <==> !Ordered(h) && h in s.queues && Without(s.queues[h], p) == []
  {
    hide Without;
    hide Place;
  }

  lemma MoveFaultsIff(s: State, p: Pcb, a: Attributes)
    requires Inv(s) && p in s.attr
    ensures var h := Home(a);
            Move(s, p, a).None? <==> !Ordered(h) && h in s.queues && forall x :: x in s.queues[h] ==> x == p
  {
    hide Move;
    var h := Home(a);
    MoveFaults(s, p, a);
    if h in s.queues {
      assert QueueOk(s, h, Running(s));
      QueueDistinct(s, h, Running(s));
      WithoutEmpty(s.queues[h], p);
    }
  }

  /** p is the only PCB called n, a user process, not suspended and queued. */
  ghost predicate Alone(s: State, p: Pcb, n: CStr) {
    && Inv(s) && |n| <= 8 && p in s.attr && p !in Running(s)
    && s.attr[p].name == n && s.attr[p].cls == USER_APP && s.attr[p].disp == NOT_SUSPENDED
    && forall q :: q in s.attr && s.attr[q].name == n ==> q == p
  }

  lemma FirstBlock(s: State, p: Pcb, n: CStr)
    requires Alone(s, p, n) && Blocked !in s.queues
    ensures var r := Block(s, Some(n));
            r.Some? && Alone(r.value, p, n) && Blocked in r.value.queues && r.value.queues[Blocked] == [p]
  {
    FoundAlone(s, p, n);
    MoveFaultsIff(s, p, s.attr[p].(exec := BLOCKED));
    StepInv(s, EBlock(Some(n)));
  }

  lemma ThenUnblock(s: State, p: Pcb, n: CStr)
    requires Alone(s, p, n) && Blocked in s.queues && s.queues[Blocked] == [p]
    ensures var r := Unblock(s, Some(n));
            r.Some? && Alone(r.value, p, n) && Blocked in r.value.queues && r.value.queues[Blocked] == []
  {
    FoundAlone(s, p, n);
    MoveFaultsIff(s, p, s.attr[p].(exec := READY));
    StepInv(s, EUnblock(Some(n)));
    assert IndexOf([p], p, 0) == 0;
    assert Without([p], p) == [];
  }

  /** Blocking is not always safe: blocking, unblocking and blocking again the only process faults. */
  lemma BlockAgainFaults(s: State, p: Pcb, n: CStr)
    requires Alone(s, p, n) && Blocked !in s.queues
    ensures Block(s, Some(n)).Some? && Unblock(Block(s, Some(n)).value, Some(n)).Some?
    ensures Block(Unblock(Block(s, Some(n)).value, Some(n)).value, Some(n)).None?
  {
    FirstBlock(s, p, n);
    var s1 := Block(s, Some(n)).value;
    ThenUnblock(s1, p, n);
    var s2 := Unblock(s1, Some(n)).value;
    FoundAlone(s2, p, n);
    MoveFaultsIff(s2, p, s2.attr[p].(exec := BLOCKED));
  }

  lemma FoundAlone(s: State, p: Pcb, n: CStr)
    requires Inv(s) && p in s.attr && p !in Running(s) && s.attr[p].name == n
    requires forall q :: q in s.attr && s.attr[q].name == n ==> q == p
    ensures Find(s, n) == Some(p)
  {
    assert Placed(s, p);
    InSearchOrder(s, p);
    FindIsFirst(s, n);
    assert Named(s, p, n);
  }

  // ------------------------------------------------------------ priority, suspend and resume

  /** Taking a found PCB out and inserting it with new fields a: the stable place in its new queue, and
      every other PCB of every queue where it was. */
  lemma MoveIsStable(s: State, p: Pcb, a: Attributes)
    requires Inv(s) && p in s.attr && p !in Running(s) && Move(s, p, a).Some?
    ensures var s', h := Move(s, p, a).value, Home(a);
            && (if Ordered(h) then StablyInserted(s', Without(Items(s, h), p), p, Items(s', h))
                else Items(s', h) == Without(Items(s, h), p) + [p])
            && forall q :: q != h ==> Items(s', q) == Without(Items(s, q), p)
  {
    var d, s1 := Running(s), Remove(s, p);
    var s2 := s1.(attr := s.attr[p := a]);
    QueuedRemove(s, d, p);
    QueuedUpdate(s1, d + {p}, p, a);
    assert d + {p} + {p} == d + {p};
    InsertIsStable(s2, d + {p}, p);
    var h, s' := Home(a), Move(s, p, a).value;
    if Ordered(h) {
      StableFrame(s2, s', Items(s2, h), p, Items(s', h));
    }
  }

  lemma StableFrame(s: State, s': State, list: seq<Pcb>, p: Pcb, r: seq<Pcb>)
    requires StablyInserted(s, list, p, r) && s'.attr == s.attr
    ensures StablyInserted(s', list, p, r)
  {
  }

  /** pcb_set_priority: an error changes nothing; a READY process goes to the stable place of its new
      priority in the queue it was in, so an unchanged priority sends it behind its equals; a BLOCKED
      one keeps its place. */
  lemma SetPriorityLaw(s: State, n: CStr, x: int)
    requires Inv(s)
    ensures var s' := SetPriority(s, n, x).value; var f := Find(s, n);
            && SetPriority(s, n, x).Some?
            && (PriorityCode(s, n, x) == -1 <==> f.None?)
            && (PriorityCode(s, n, x) == 0 <==> f.Some? && 0 <= x <= 9)
            && (PriorityCode(s, n, x) != 0 ==> s' == s)
            && (PriorityCode(s, n, x) == 0 ==>
                  var p, h := f.value, Home(s.attr[f.value]);
                  && s'.attr == s.attr[p := s.attr[p].(priority := x)]
                  && (s.attr[p].exec.READY? ==>
                        && StablyInserted(s', Without(Items(s, h), p), p, Items(s', h))
                        && forall q :: q != h ==> Items(s', q) == Items(s, q))
                  && (s.attr[p].exec.BLOCKED? ==> s'.queues == s.queues))
  {
    SetPriorityInv(s, n, x);
    if PriorityCode(s, n, x) == 0 {
      var p := Find(s, n).value;
      FoundIsQueued(s, n);
      if s.attr[p].exec.READY? {
        MoveIsStable(s, p, s.attr[p].(priority := x));
        OnlyHere(s, p);
      }
    }
  }

  lemma OnlyHere(s: State, p: Pcb)
    requires Inv(s) && p in s.attr
    ensures forall q :: q != Home(s.attr[p]) ==> p !in Items(s, q) && Without(Items(s, q), p) == Items(s, q)
  {
    forall q | q != Home(s.attr[p]) ensures p !in Items(s, q) && Without(Items(s, q), p) == Items(s, q) {
      assert QueueOk(s, q, Running(s));
      assert forall x :: x in Items(s, q) ==> Member(s, q, Running(s), x);
      WithoutNone(Items(s, q), p);
    }
  }

  /** Suspending and resuming a ready process sends it behind its equals in the ready queue and leaves
      everybody else where they were, provided resume finds the same process again. */
  lemma SuspendResume(s: State, n: CStr, p: Pcb)
    requires Inv(s) && |n| <= 8 && Find(s, n) == Some(p)
    requires s.attr[p].cls == USER_APP && Home(s.attr[p]) == Ready
    ensures Suspend(s, n).Some?
    ensures var s1 := Suspend(s, n).value;
            Find(s1, n) == Some(p) ==>
              && Resume(s1, Some(n)).Some?
              && var s2 := Resume(s1, Some(n)).value;
              && s2.attr == s.attr
              && StablyInserted(s2, Without(Items(s, Ready), p), p, Items(s2, Ready))
              && forall q :: q != Ready ==> Items(s2, q) == Items(s, q)
  {
    hide Inv;
    hide Suspend;
    hide Resume;
    hide Without;
    var k := SuspendMoves(s, n, p);
    var s1 := Suspend(s, n).value;
    if Find(s1, n) == Some(p) {
      ResumeMoves(s1, n, p);
      Restored(s, s1, Resume(s1, Some(n)).value, p, k);
    }
  }

  /** A queued process that goes to the other ordered queue. */
  lemma MovedAway(s: State, p: Pcb, a: Attributes)
    requires Inv(s) && p in s.attr && p !in Running(s) && Ordered(Home(a)) && Home(a) != Home(s.attr[p])
    ensures Move(s, p, a).Some?
    ensures var s1, h := Move(s, p, a).value, Home(a);
            && p !in Items(s, h) && StablyInserted(s1, Items(s, h), p, Items(s1, h)) && s1.attr == s.attr[p := a]
            && forall q :: q != h ==>
                 Items(s1, q) == if q == Home(s.attr[p]) then Without(Items(s, q), p) else Items(s, q)
  {
    OnlyHere(s, p);
    MoveIsStable(s, p, a);
  }

  lemma StablePlace(s: State, list: seq<Pcb>, p: Pcb, list': seq<Pcb>) returns (k: nat)
    requires StablyInserted(s, list, p, list')
    ensures k <= |list| && list' == Spliced(list, k, p)
    ensures forall i :: 0 <= i < |list| ==> (i < k <==> PriorityOf(s, list[i]) <= PriorityOf(s, p))
  {
    k :| k <= |list| && list' == Spliced(list, k, p)
      && (forall i :: 0 <= i < k ==> PriorityOf(s, list[i]) <= PriorityOf(s, p))
      && (forall i :: k <= i < |list| ==> PriorityOf(s, list[i]) > PriorityOf(s, p));
  }

  lemma SuspendMoves(s: State, n: CStr, p: Pcb) returns (k: nat)
    requires Inv(s) && Find(s, n) == Some(p) && s.attr[p].cls == USER_APP && Home(s.attr[p]) == Ready
    ensures Suspend(s, n).Some?
    ensures var s1, l := Suspend(s, n).value, Items(s, SuspReady);
            && Inv(s1) && s1.attr == s.attr[p := s.attr[p].(disp := SUSPENDED)]
            && p !in l && k <= |l| && Items(s1, SuspReady) == Spliced(l, k, p)
            && Items(s1, Ready) == Without(Items(s, Ready), p)
            && Items(s1, Blocked) == Items(s, Blocked) && Items(s1, SuspBlocked) == Items(s, SuspBlocked)
            && forall i :: 0 <= i < |l| ==> (i < k <==> PriorityOf(s1, l[i]) <= PriorityOf(s1, p))
  {
    var a := s.attr[p].(disp := SUSPENDED);
    FoundIsQueued(s, n);
    MoveFoundInv(s, n, a);
    MovedAway(s, p, a);
    k := StablePlace(Move(s, p, a).value, Items(s, SuspReady), p, Items(Move(s, p, a).value, SuspReady));
  }

  lemma ResumeIsMove(s1: State, n: CStr, p: Pcb)
    requires |n| <= 8 && Find(s1, n) == Some(p) && p in s1.attr
    ensures Resume(s1, Some(n)) == Move(s1, p, s1.attr[p].(disp := NOT_SUSPENDED))
  {
  }

  lemma ResumeMoves(s1: State, n: CStr, p: Pcb)
    requires Inv(s1) && |n| <= 8 && Find(s1, n) == Some(p) && Home(s1.attr[p]) == SuspReady
    ensures Resume(s1, Some(n)).Some?
    ensures var s2 := Resume(s1, Some(n)).value;
            && s2.attr == s1.attr[p := s1.attr[p].(disp := NOT_SUSPENDED)]
            && StablyInserted(s2, Items(s1, Ready), p, Items(s2, Ready))
            && Items(s2, SuspReady) == Without(Items(s1, SuspReady), p)
            && Items(s2, Blocked) == Items(s1, Blocked) && Items(s2, SuspBlocked) == Items(s1, SuspBlocked)
  {
    hide Inv;
    var a := s1.attr[p].(disp := NOT_SUSPENDED);
    assert Home(a) == Ready;
    FoundIsQueued(s1, n);
    ResumeIsMove(s1, n, p);
    MovedAway(s1, p, a);
  }

  lemma Restored(s: State, s1: State, s2: State, p: Pcb, k: nat)
    requires p !in Items(s, SuspReady) && k <= |Items(s, SuspReady)|
    requires Items(s1, SuspReady) == Spliced(Items(s, SuspReady), k, p)
    requires Items(s1, Blocked) == Items(s, Blocked) && Items(s1, SuspBlocked) == Items(s, SuspBlocked)
    requires Items(s2, SuspReady) == Without(Items(s1, SuspReady), p)
    requires Items(s2, Blocked) == Items(s1, Blocked) && Items(s2, SuspBlocked) == Items(s1, SuspBlocked)
    ensures forall q :: q != Ready ==> Items(s2, q) == Items(s, q)
  {
    SplicedBack(Items(s, SuspReady), k, p);
    forall q | q != Ready ensures Items(s2, q) == Items(s, q) {
      match q
      case Blocked => case SuspReady => case SuspBlocked =>
    }
  }

  lemma SplicedBack(l: seq<Pcb>, k: nat, p: Pcb)
    requires k <= |l| && p !in l
    ensures Without(Spliced(l, k, p), p) == l
  {
    var r := Spliced(l, k, p);
    var j := IndexOf(r, p, 0);
    assert r[k] == p;
    if j != |r| {
      assert forall i :: 0 <= i < |r| && i != k ==> r[i] == l[if i < k then i else i - 1];
    } else {
      IndexOfFound(r, p, 0, k);
    }
  }

  lemma {:induction false} IndexOfFound(s: seq<Pcb>, x: Pcb, i: nat, k: nat)
    requires i <= k < |s| && s[k] == x
    ensures IndexOf(s, x, i) <= k
    decreases k - i
  {
    if i < k && s[i] != x { IndexOfFound(s, x, i + 1, k); }
  }

  // ------------------------------------------------------------ when resume finds the suspended process

  /** x would be found before p once p is suspended: it has the name, and it is ready or blocked, or it is
      suspended in front of p's place. */
  ghost predicate Shadows(s: State, n: CStr, p: Pcb, x: Pcb) {
    && x in s.attr && x != p && x !in Running(s) && s.attr[x].name == n
    && (Home(s.attr[x]) == Ready || Home(s.attr[x]) == Blocked
        || (Home(s.attr[x]) == SuspReady && s.attr[x].priority <= PriorityOf(s, p)))
  }

  lemma FindNone(s: State, list: seq<Pcb>, n: CStr)
    ensures FindIn(s, list, n, 0).None? <==> forall x :: x in list ==> !Named(s, x, n)
  {
    var k := FindInFirst(s, list, n, 0);
    FindInIs(s, list, n, 0, k);
  }

  /** In a list with p spliced in at k, p is found exactly when nobody before it has the name. */
  lemma FindSpliced(s: State, l: seq<Pcb>, k: nat, p: Pcb, n: CStr)
    requires k <= |l| && p !in l && Named(s, p, n)
    ensures FindIn(s, Spliced(l, k, p), n, 0) == Some(p) <==> forall i :: 0 <= i < k ==> !Named(s, l[i], n)
  {
    var r := Spliced(l, k, p);
    var j := FindInFirst(s, r, n, 0);
    FindInIs(s, r, n, 0, j);
    assert r[k] == p && forall i :: 0 <= i < k ==> r[i] == l[i];
  }

  lemma FindInFour(s: State, n: CStr, p: Pcb)
    requires p !in Items(s, Ready) && p !in Items(s, Blocked) && p in Items(s, SuspReady)
    requires Named(s, p, n)
    ensures Find(s, n) == Some(p) <==>
      && (forall x :: x in Items(s, Ready) ==> !Named(s, x, n))
      && (forall x :: x in Items(s, Blocked) ==> !Named(s, x, n))
      && FindIn(s, Items(s, SuspReady), n, 0) == Some(p)
  {
    var a, b, c, d := Items(s, Ready), Items(s, Blocked), Items(s, SuspReady), Items(s, SuspBlocked);
    FindInAppend(s, a + b + c, d, n);
    FindInAppend(s, a + b, c, n);
    FindInAppend(s, a, b, n);
    FindNone(s, a, n);
    FindNone(s, b, n);
    FindNone(s, c, n);
  }

  lemma ShadowsAre(s: State, n: CStr, p: Pcb, k: nat)
    requires Inv(s) && p in s.attr && Home(s.attr[p]) == Ready
    requires var l := Items(s, SuspReady);
      k <= |l| && forall i :: 0 <= i < |l| ==> (i < k <==> PriorityOf(s, l[i]) <= PriorityOf(s, p))
    ensures (forall x :: x in s.attr ==> !Shadows(s, n, p, x)) <==>
      && (forall x :: x in Items(s, Ready) && x != p ==> !Named(s, x, n))
      && (forall x :: x in Items(s, Blocked) ==> !Named(s, x, n))
      && (forall i :: 0 <= i < k ==> !Named(s, Items(s, SuspReady)[i], n))
  {
    var l, d := Items(s, SuspReady), Running(s);
    assert QueueOk(s, Ready, d) && QueueOk(s, Blocked, d) && QueueOk(s, SuspReady, d);
    forall x | x in s.attr && Shadows(s, n, p, x)
      ensures (x in Items(s, Ready) && x != p && Named(s, x, n)) || (x in Items(s, Blocked) && Named(s, x, n))
              || exists i :: 0 <= i < k && Named(s, l[i], n)
    {
      assert Placed(s, x);
      if Home(s.attr[x]) == SuspReady {
        var i :| 0 <= i < |l| && l[i] == x;
        assert i < k && Named(s, l[i], n);
      }
    }
    forall x | Named(s, x, n) && x != p && (x in Items(s, Ready) || x in Items(s, Blocked))
      ensures Shadows(s, n, p, x)
    {
      assert x in Items(s, Ready) ==> Member(s, Ready, d, x);
      assert x in Items(s, Blocked) ==> Member(s, Blocked, d, x);
    }
    forall i | 0 <= i < k && Named(s, l[i], n) ensures Shadows(s, n, p, l[i]) {
      assert Member(s, SuspReady, d, l[i]);
    }
  }

  /** Resume finds the process that suspend suspended exactly when no process shadows it. */
  lemma FoundAgainIff(s: State, n: CStr, p: Pcb)
    requires Inv(s) && Find(s, n) == Some(p) && s.attr[p].cls == USER_APP && Home(s.attr[p]) == Ready
    ensures Suspend(s, n).Some?
    ensures Find(Suspend(s, n).value, n) == Some(p) <==> forall x :: x in s.attr ==> !Shadows(s, n, p, x)
  {
    var k := SuspendMoves(s, n, p);
    var s1, l := Suspend(s, n).value, Items(s, SuspReady);
    assert forall x :: (Named(s1, x, n) <==> Named(s, x, n)) && PriorityOf(s1, x) == PriorityOf(s, x);
    FoundIsQueued(s, n);
    OnlyHere(s, p);
    ShadowsAre(s, n, p, k);
    FindSpliced(s1, l, k, p, n);
    assert Spliced(l, k, p)[k] == p;
    assert QueueOk(s, Ready, Running(s));
    QueueDistinct(s, Ready, Running(s));
    forall x ensures x in Items(s1, Ready) <==> x in Items(s, Ready) && x != p {
      WithoutMembers(Items(s, Ready), p, x);
    }
    FindInFour(s1, n, p);
  }
}
