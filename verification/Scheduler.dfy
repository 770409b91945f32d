/**
 The process queues, the PCB commands and the dispatcher as a state machine on values. Module Kernel
 proves that the linked-list code refines it; this module says what each step does and what every
 step keeps.
 */
module Scheduler {
  import opened Common
  import opened Pcbs

  datatype QueueId = Ready | Blocked | SuspReady | SuspBlocked

  /** The two ready queues are kept by priority, the two blocked queues first in, first out. */
  predicate Ordered(q: QueueId) {
    q.Ready? || q.SuspReady?
  }

  /** `queues` has a key for each queue that has been allocated; a missing key is a null pointer.
      `attr` holds the live PCBs. `arrival` and `clock` are history, not program state: they record
      the order in which PCBs were last put in a queue. */
  datatype State = State(
    queues: map<QueueId, seq<Pcb>>,
    attr: map<Pcb, Attributes>,
    current: Option<Pcb>,
    initial: Option<Context>,
    insertFlag: int,
    arrival: map<Pcb, nat>,
    clock: nat)

  const Boot := State(map[], map[], None, None, 0, map[], 0)

  /** The queue pcb_insert chooses (pcb.c:143-146, 195, 225, 274). */
  function Home(a: Attributes): QueueId {
    if a.disp.NOT_SUSPENDED? then
      if a.exec.READY? then Ready else Blocked
    else
      if a.exec.READY? then SuspReady else SuspBlocked
  }

  type Lists = map<QueueId, seq<Pcb>>

  /** What queue q holds: nothing when it has not been allocated. */
  function List(m: Lists, q: QueueId): seq<Pcb> {
    if q in m then m[q] else []
  }

  function Items(s: State, q: QueueId): seq<Pcb> {
    List(s.queues, q)
  }

  function PriorityOf(s: State, p: Pcb): int {
    if p in s.attr then s.attr[p].priority else 0
  }

  function ArrivalOf(s: State, p: Pcb): nat {
    if p in s.arrival then s.arrival[p] else 0
  }

  /** Where priority x belongs in list, from position i on: at the first PCB whose priority number is
      larger, or at the end. */
  function Position(s: State, list: seq<Pcb>, x: int, i: nat): (k: nat)
    requires i <= |list|
    ensures i <= k <= |list|
    decreases |list| - i
  {
    if i == |list| || PriorityOf(s, list[i]) > x then i else Position(s, list, x, i + 1)
  }

  /** k is where x belongs exactly when nothing before it is larger and what stands there is. */
  lemma {:induction false} PositionIs(s: State, list: seq<Pcb>, x: int, i: nat, k: nat)
    requires i <= k <= |list|
    ensures Position(s, list, x, i) == k <==>
              && (forall j :: i <= j < k ==> PriorityOf(s, list[j]) <= x)
              && (k < |list| ==> PriorityOf(s, list[k]) > x)
    decreases |list| - i
  {
    if i < |list| && PriorityOf(s, list[i]) <= x {
      if i < k {
        PositionIs(s, list, x, i + 1, k);
      }
    }
  }

  /** Where pcb_insert puts p in the queue its states name: by priority in an ordered queue, at the
      end otherwise. */
  function Place(s: State, p: Pcb): (k: nat)
    requires p in s.attr
    ensures k <= |Items(s, Home(s.attr[p]))|
  {
    var h := Home(s.attr[p]);
    if Ordered(h) then Position(s, Items(s, h), PriorityOf(s, p), 0) else |Items(s, h)|
  }

  /** pcb_insert (pcb.c:134-300) reads through a null pointer at 210 or 289 when the queue it chooses
      is a blocked one that is allocated but has no front. */
  predicate InsertFaults(s: State, p: Pcb)
    requires p in s.attr
  {
    var h := Home(s.attr[p]);
    !Ordered(h) && h in s.queues && s.queues[h] == []
  }

  function Insert(s: State, p: Pcb): Option<State>
    requires p in s.attr
  {
    if InsertFaults(s, p) then None else Some(PutAt(s, Home(s.attr[p]), Place(s, p), p))
  }

  function PutAt(s: State, q: QueueId, k: nat, p: Pcb): State
    requires k <= |Items(s, q)|
  {
    s.(queues := s.queues[q := Spliced(Items(s, q), k, p)],
       arrival := s.arrival[p := s.clock],
       clock := s.clock + 1)
  }

  function TakeOut(m: map<QueueId, seq<Pcb>>, p: Pcb): map<QueueId, seq<Pcb>> {
    map q | q in m :: Without(m[q], p)
  }

  /** pcb_remove (pcb.c:302-422). */
  function Remove(s: State, p: Pcb): State {
    s.(queues := TakeOut(s.queues, p))
  }

  function Forget(s: State, p: Pcb): State {
    s.(attr := s.attr - {p}, arrival := s.arrival - {p})
  }

  predicate Named(s: State, p: Pcb, name: CStr) {
    p in s.attr && s.attr[p].name == name
  }

  /** The first PCB of list called name, from position i on. */
  function FindIn(s: State, list: seq<Pcb>, name: CStr, i: nat): (r: Option<Pcb>)
    requires i <= |list|
    ensures r.Some? ==> r.value in list && Named(s, r.value, name)
    decreases |list| - i
  {
    if i == |list| then None
    else if Named(s, list[i], name) then Some(list[i])
    else FindIn(s, list, name, i + 1)
  }

  /** FindIn returns what stands at the first position whose PCB has the name. */
  lemma {:induction false} FindInIs(s: State, list: seq<Pcb>, name: CStr, i: nat, k: nat)
    requires i <= k <= |list|
    requires forall j :: i <= j < k ==> !Named(s, list[j], name)
    requires k < |list| ==> Named(s, list[k], name)
    ensures FindIn(s, list, name, i) == if k < |list| then Some(list[k]) else None
    decreases |list| - i
  {
    if i < k { FindInIs(s, list, name, i + 1, k); }
  }

  lemma {:induction false} FindInFirst(s: State, list: seq<Pcb>, name: CStr, i: nat) returns (k: nat)
    requires i <= |list|
    ensures i <= k <= |list|
    ensures forall j :: i <= j < k ==> !Named(s, list[j], name)
    ensures k < |list| ==> Named(s, list[k], name)
    decreases |list| - i
  {
    k := i;
    if i < |list| && !Named(s, list[i], name) {
      k := FindInFirst(s, list, name, i + 1);
    }
  }

  lemma FindInAppend(s: State, a: seq<Pcb>, b: seq<Pcb>, name: CStr)
    ensures FindIn(s, a + b, name, 0) ==
            if FindIn(s, a, name, 0).Some? then FindIn(s, a, name, 0) else FindIn(s, b, name, 0)
  {
    var k := FindInFirst(s, a, name, 0);
    FindInIs(s, a, name, 0, k);
    if k < |a| {
      FindInIs(s, a + b, name, 0, k);
    } else {
      var l := FindInFirst(s, b, name, 0);
      FindInIs(s, b, name, 0, l);
      FindInIs(s, a + b, name, 0, |a| + l);
    }
  }

  /** pcb_find returns the first PCB of that name in the order of the four searches, and nothing
      exactly when no queued PCB has the name. */
  lemma FindIsFirst(s: State, name: CStr)
    ensures Find(s, name).None? <==> forall p :: p in SearchOrder(s) ==> !Named(s, p, name)
    ensures forall k :: 0 <= k < |SearchOrder(s)| && Named(s, SearchOrder(s)[k], name)
                        && (forall j :: 0 <= j < k ==> !Named(s, SearchOrder(s)[j], name))
              ==> Find(s, name) == Some(SearchOrder(s)[k])
  {
    var l := SearchOrder(s);
    var k := FindInFirst(s, l, name, 0);
    FindInIs(s, l, name, 0, k);
    assert k < |l| ==> l[k] in l;
  }

  /** The order in which pcb_find searches (pcb.c:67-129). */
  function SearchOrder(s: State): seq<Pcb> {
    Items(s, Ready) + Items(s, Blocked) + Items(s, SuspReady) + Items(s, SuspBlocked)
  }

  /** pcb_find (pcb.c:63-131). */
  function Find(s: State, name: CStr): Option<Pcb> {
    FindIn(s, SearchOrder(s), name, 0)
  }

  // ---------------------------------------------------------------- which process a name means

  /** The order in which pcb_find looks through the queues (pcb.c:67-129). */
  function Rank(q: QueueId): nat {
    match q
    case Ready => 0
    case Blocked => 1
    case SuspReady => 2
    case SuspBlocked => 3
  }

  /** Where queue q starts in the search. */
  function Offset(s: State, q: QueueId): nat {
    match q
    case Ready => 0
    case Blocked => |Items(s, Ready)|
    case SuspReady => |Items(s, Ready)| + |Items(s, Blocked)|
    case SuspBlocked => |Items(s, Ready)| + |Items(s, Blocked)| + |Items(s, SuspReady)|
  }

  lemma AtOffset(s: State, q: QueueId, i: nat)
    requires i < |Items(s, q)|
    ensures Offset(s, q) + i < |SearchOrder(s)| && SearchOrder(s)[Offset(s, q) + i] == Items(s, q)[i]
  {
    match q
    case Ready => case Blocked => case SuspReady => case SuspBlocked =>
  }

  lemma QueueAt(s: State, k: nat) returns (q: QueueId, i: nat)
    requires k < |SearchOrder(s)|
    ensures i < |Items(s, q)| && k == Offset(s, q) + i && Items(s, q)[i] == SearchOrder(s)[k]
  {
    var a, b, c := |Items(s, Ready)|, |Items(s, Blocked)|, |Items(s, SuspReady)|;
    if k < a {
      q, i := Ready, k;
    } else if k < a + b {
      q, i := Blocked, k - a;
    } else if k < a + b + c {
      q, i := SuspReady, k - a - b;
    } else {
      q, i := SuspBlocked, k - a - b - c;
    }
    AtOffset(s, q, i);
  }

  lemma RankedOffsets(s: State, q: QueueId, i: nat, r: QueueId, j: nat)
    requires i < |Items(s, q)| && j < |Items(s, r)|
    ensures Offset(s, q) + i <= Offset(s, r) + j <==> Rank(q) < Rank(r) || (q == r && i <= j)
  {
    match q
    case Ready => case Blocked => case SuspReady => case SuspBlocked =>
  }

  /** The process at position i of queue q comes before all others called n: they are in queues that are
      searched later, or behind it. */
  ghost predicate First(s: State, n: CStr, q: QueueId, i: nat) {
    && i < |Items(s, q)| && Called(s, Items(s, q)[i], n)
    && forall r, j {:trigger Items(s, r)[j]} :: 0 <= j < |Items(s, r)| && Called(s, Items(s, r)[j], n) ==>
         Rank(q) < Rank(r) || (q == r && i <= j)
  }

  ghost predicate Called(s: State, p: Pcb, n: CStr) {
    p in s.attr && s.attr[p].name == n
  }

  lemma FirstIsFound(s: State, n: CStr, q: QueueId, i: nat)
    requires First(s, n, q, i)
    ensures Find(s, n) == Some(Items(s, q)[i])
  {
    hide SearchOrder;
    hide Find;
    var k := Offset(s, q) + i;
    AtOffset(s, q, i);
    forall j | 0 <= j < k ensures !Named(s, SearchOrder(s)[j], n) {
      var r, l := QueueAt(s, j);
      RankedOffsets(s, q, i, r, l);
      assert Items(s, r)[l] == SearchOrder(s)[j];
    }
    FindIsFirst(s, n);
  }

  lemma FoundIsFirst(s: State, n: CStr) returns (q: QueueId, i: nat)
    requires Find(s, n).Some?
    ensures First(s, n, q, i) && Find(s, n) == Some(Items(s, q)[i])
  {
    var l := SearchOrder(s);
    var k := FindInFirst(s, l, n, 0);
    FindInIs(s, l, n, 0, k);
    q, i := FirstPlace(s, n, k);
  }

  lemma FirstPlace(s: State, n: CStr, k: nat) returns (q: QueueId, i: nat)
    requires k < |SearchOrder(s)| && Named(s, SearchOrder(s)[k], n)
    requires forall j :: 0 <= j < k ==> !Named(s, SearchOrder(s)[j], n)
    ensures First(s, n, q, i) && Items(s, q)[i] == SearchOrder(s)[k]
  {
    hide SearchOrder;
    q, i := QueueAt(s, k);
    forall r, j {:trigger Items(s, r)[j]} | 0 <= j < |Items(s, r)| && Called(s, Items(s, r)[j], n)
      ensures Rank(q) < Rank(r) || (q == r && i <= j)
    {
      AtOffset(s, r, j);
      RankedOffsets(s, q, i, r, j);
      assert Named(s, SearchOrder(s)[Offset(s, r) + j], n);
    }
  }

  /** It means none exactly when no process called so is in a queue. */
  lemma FindsNone(s: State, n: CStr)
    ensures Find(s, n).None? <==>
      forall q, i {:trigger Items(s, q)[i]} :: 0 <= i < |Items(s, q)| ==> !Called(s, Items(s, q)[i], n)
  {
    hide Find;
    if Find(s, n).Some? {
      var q, i := FoundIsFirst(s, n);
      assert Called(s, Items(s, q)[i], n);
    } else {
      FindIsFirst(s, n);
      forall q, i {:trigger Items(s, q)[i]} | 0 <= i < |Items(s, q)| ensures !Called(s, Items(s, q)[i], n) {
        AtOffset(s, q, i);
        assert Items(s, q)[i] in SearchOrder(s);
      }
    }
  }

  /** r is what the name means in the four queues. */
  ghost predicate Meant(s: State, n: CStr, r: Option<Pcb>) {
    match r
    case None => forall q, i {:trigger Items(s, q)[i]} :: 0 <= i < |Items(s, q)| ==> !Called(s, Items(s, q)[i], n)
    case Some(p) => exists q, i: nat :: First(s, n, q, i) && Items(s, q)[i] == p
  }

  lemma FindIsMeant(s: State, n: CStr)
    ensures Meant(s, n, Find(s, n))
  {
    hide Find;
    FindsNone(s, n);
    if Find(s, n).Some? {
      var q, i := FoundIsFirst(s, n);
    }
  }

  // ---------------------------------------------------------------- the invariant

  /** a stands before b in queue q: by priority and then arrival, or by arrival alone. */
  ghost predicate Precedes(s: State, q: QueueId, a: Pcb, b: Pcb) {
    if Ordered(q) && PriorityOf(s, a) != PriorityOf(s, b)
    then PriorityOf(s, a) < PriorityOf(s, b)
    else ArrivalOf(s, a) < ArrivalOf(s, b)
  }

  ghost predicate InOrder(s: State, q: QueueId, list: seq<Pcb>) {
    forall i, j :: 0 <= i < j < |list| ==> Precedes(s, q, list[i], list[j])
  }

  /** p may stand in queue q. d holds the live PCBs that are in no queue. */
  ghost predicate Member(s: State, q: QueueId, d: set<Pcb>, p: Pcb) {
    p in s.attr && p !in d && Home(s.attr[p]) == q && ArrivalOf(s, p) < s.clock
  }

  ghost predicate QueueOk(s: State, q: QueueId, d: set<Pcb>) {
    && (forall p :: p in Items(s, q) ==> Member(s, q, d, p))
    && InOrder(s, q, Items(s, q))
  }

  /** What every queue operation keeps: every live PCB outside d is in the queue its two states name,
      and in no other; every queue is in order. */
  ghost predicate Queued(s: State, d: set<Pcb>) {
    && (forall q :: QueueOk(s, q, d))
    && d <= s.attr.Keys
    && (forall p {:trigger Placed(s, p)} :: p in s.attr && p !in d ==> Placed(s, p))
  }

  /** p is in the queue that its states name. */
  ghost predicate Placed(s: State, p: Pcb)
    requires p in s.attr
  {
    p in Items(s, Home(s.attr[p]))
  }

  ghost function Running(s: State): set<Pcb> {
    if s.current.Some? then {s.current.value} else {}
  }

  /** The invariant between system calls and commands. */
  ghost predicate Inv(s: State) {
    && Queued(s, Running(s))
    && (s.current.Some? ==> Home(s.attr[s.current.value]) == Ready)
    && 0 <= s.insertFlag <= 1
    && (s.insertFlag == 1 ==> s.current.Some? && s.initial.None?)
  }

  lemma QueueDistinct(s: State, q: QueueId, d: set<Pcb>)
    requires QueueOk(s, q, d)
    ensures Distinct(Items(s, q))
  {
  }

  /** The order of a queue depends only on the priorities and arrivals of its members. */
  lemma OrderFrame(s: State, s': State, q: QueueId, list: seq<Pcb>)
    requires InOrder(s, q, list)
    requires forall x :: x in list ==> PriorityOf(s', x) == PriorityOf(s, x) && ArrivalOf(s', x) == ArrivalOf(s, x)
    ensures InOrder(s', q, list)
  {
  }

  lemma InSearchOrder(s: State, p: Pcb)
    ensures p in SearchOrder(s) <==> exists q :: p in Items(s, q)
  {
    var a, b := Items(s, Ready) + Items(s, Blocked), Items(s, SuspReady) + Items(s, SuspBlocked);
    assert SearchOrder(s) == a + b;
    if q :| p in Items(s, q) {
      match q
      case Ready => case Blocked => case SuspReady => case SuspBlocked =>
    }
  }

  lemma InOrderWithout(s: State, q: QueueId, list: seq<Pcb>, p: Pcb)
    requires InOrder(s, q, list)
    ensures InOrder(s, q, Without(list, p))
  {
  }

  lemma QueuedRemove(s: State, d: set<Pcb>, p: Pcb)
    requires Queued(s, d) && p in s.attr
    ensures Queued(Remove(s, p), d + {p})
    ensures forall q :: Items(Remove(s, p), q) == Without(Items(s, q), p)
  {
    var s' := Remove(s, p);
    forall q ensures QueueOk(s', q, d + {p}) && Items(s', q) == Without(Items(s, q), p) {
      assert QueueOk(s, q, d);
      QueueDistinct(s, q, d);
      InOrderWithout(s, q, Items(s, q), p);
      OrderFrame(s, s', q, Items(s', q));
      forall x | x in Items(s', q) ensures Member(s', q, d + {p}, x) {
        WithoutMembers(Items(s, q), p, x);
        assert Member(s, q, d, x);
      }
    }
    forall x | x in s'.attr && x !in d + {p} ensures Placed(s', x) {
      assert Placed(s, x);
      QueueDistinct(s, Home(s.attr[x]), d);
      WithoutMembers(Items(s, Home(s.attr[x])), p, x);
    }
  }

  /** A PCB in no queue may change its fields freely. */
  lemma QueuedUpdate(s: State, d: set<Pcb>, p: Pcb, a: Attributes)
    requires Queued(s, d) && (p in d || p !in s.attr)
    ensures Queued(s.(attr := s.attr[p := a]), d + {p})
  {
    var s' := s.(attr := s.attr[p := a]);
    forall q ensures QueueOk(s', q, d + {p}) {
      assert QueueOk(s, q, d);
      var l := Items(s, q);
      forall x | x in l ensures Member(s', q, d + {p}, x) && x != p {
        assert Member(s, q, d, x);
      }
      OrderFrame(s, s', q, l);
    }
    forall x | x in s'.attr && x !in d + {p} ensures Placed(s', x) { assert Placed(s, x); }
  }

  /** The running process, the initial context and the flag are no concern of the queues. */
  lemma QueuedFrame(s: State, s': State, d: set<Pcb>)
    requires Queued(s, d)
    requires s' == s.(current := s'.current, initial := s'.initial, insertFlag := s'.insertFlag)
    ensures Queued(s', d)
  {
    forall q ensures QueueOk(s', q, d) {
      assert QueueOk(s, q, d);
      assert forall p :: p in Items(s, q) ==> Member(s, q, d, p);
      OrderFrame(s, s', q, Items(s, q));
    }
    forall x | x in s'.attr && x !in d ensures Placed(s', x) { assert Placed(s, x); }
  }

  lemma QueuedForget(s: State, d: set<Pcb>, p: Pcb)
    requires Queued(s, d) && p in d
    ensures Queued(Forget(s, p), d - {p})
  {
    var s' := Forget(s, p);
    forall q ensures QueueOk(s', q, d - {p}) {
      assert QueueOk(s, q, d);
      forall x | x in Items(s, q) ensures Member(s', q, d - {p}, x) && x != p {
        assert Member(s, q, d, x);
      }
      OrderFrame(s, s', q, Items(s, q));
    }
    forall x | x in s'.attr && x !in d - {p} ensures Placed(s', x) { assert Placed(s, x); }
  }

  /** pcb_insert puts p in the queue its states name, at the place its priority and arrival demand,
      and touches no other queue. */
  lemma QueuedInsert(s: State, d: set<Pcb>, p: Pcb)
    requires Queued(s, d) && p in d && p in s.attr
    requires !InsertFaults(s, p)
    ensures Queued(Insert(s, p).value, d - {p})
  {
    var s' := Insert(s, p).value;
    var h := Home(s.attr[p]);
    forall q ensures QueueOk(s', q, d - {p}) {
      assert QueueOk(s, q, d);
      if q == h {
        InsertedQueueOk(s, d, p);
      } else {
        var l := Items(s, q);
        assert Items(s', q) == l;
        assert forall x :: x in l ==> Member(s, q, d, x);
        OrderFrame(s, s', q, l);
      }
    }
    forall x | x in s'.attr && x !in d - {p} ensures Placed(s', x) {
      assert x == p || Placed(s, x);
      SplicedMembers(Items(s, h), Place(s, p), p, x);
    }
  }

  lemma InsertedQueueOk(s: State, d: set<Pcb>, p: Pcb)
    requires Queued(s, d) && p in d && p in s.attr
    requires !InsertFaults(s, p)
    ensures QueueOk(Insert(s, p).value, Home(s.attr[p]), d - {p})
  {
    var h, k := Home(s.attr[p]), Place(s, p);
    var s' := Insert(s, p).value;
    var l, r := Items(s, h), Items(s', h);
    assert QueueOk(s, h, d);
    assert forall x :: x in l ==> Member(s, h, d, x);
    forall x | x in r ensures Member(s', h, d - {p}, x) {
      SplicedMembers(l, k, p, x);
    }
    SplicedInOrder(s, s', h, l, p, k);
  }

  lemma SplicedInOrder(s: State, s': State, q: QueueId, l: seq<Pcb>, p: Pcb, k: nat)
    requires k <= |l| && InOrder(s, q, l)
    requires forall x :: x in l ==>
      PriorityOf(s', x) == PriorityOf(s, x) && ArrivalOf(s', x) == ArrivalOf(s, x) < s.clock
    requires PriorityOf(s', p) == PriorityOf(s, p) && ArrivalOf(s', p) == s.clock
    requires if Ordered(q) then k == Position(s, l, PriorityOf(s, p), 0) else k == |l|
    ensures InOrder(s', q, Spliced(l, k, p))
  {
    if Ordered(q) { PositionIs(s, l, PriorityOf(s, p), 0, k); }
    SplicedAtInOrder(s, s', q, l, p, k);
  }

  lemma SplicedAtInOrder(s: State, s': State, q: QueueId, l: seq<Pcb>, p: Pcb, k: nat)
    requires k <= |l| && InOrder(s, q, l)
    requires forall x :: x in l ==>
      PriorityOf(s', x) == PriorityOf(s, x) && ArrivalOf(s', x) == ArrivalOf(s, x) < s.clock
    requires PriorityOf(s', p) == PriorityOf(s, p) && ArrivalOf(s', p) == s.clock
    requires Ordered(q) ==> forall i :: 0 <= i < k ==> PriorityOf(s, l[i]) <= PriorityOf(s, p)
    requires Ordered(q) && k < |l| ==> PriorityOf(s, l[k]) > PriorityOf(s, p)
    requires !Ordered(q) ==> k == |l|
    ensures InOrder(s', q, Spliced(l, k, p))
  {
    OrderFrame(s, s', q, l);
    var r := Spliced(l, k, p);
    forall i, j | 0 <= i < j < |r| ensures Precedes(s', q, r[i], r[j]) {
      if j == k {
        assert r[i] == l[i] && r[j] == p;
      } else if i == k {
        assert r[i] == p && r[j] == l[j - 1];
        assert k == j - 1 || Precedes(s', q, l[k], l[j - 1]);
      } else {
        var i', j' := if i < k then i else i - 1, if j < k then j else j - 1;
        assert r[i] == l[i'] && r[j] == l[j'];
        assert Precedes(s', q, l[i'], l[j']);
      }
    }
  }
}
