/**
 Memory over whole runs: what load and pcb_insert ask kmalloc for, how many processes fit into the heap,
 and where it puts them. Nothing is ever freed.
 */
module Capacity {
  import opened Common
  import opened Pcbs
  import opened Scheduler
  import opened Steps
  import opened Runs
  import opened MemoryMap
  import opened VirtualMemory
  import Heap = Allocations

  /** The requests of one step: load allocates a PCB (pcb.c:15), and pcb_insert a queue whose pointer is
      null (pcb.c:151, 200, 230, 279). */
  function Asks(s: State, e: Event, s': State): seq<Word> {
    (if e.ELoad? then [Heap.PCB_SIZE] else []) + if s'.queues.Keys == s.queues.Keys then [] else [Heap.QUEUE_SIZE]
  }

  /** The requests of a run, in order. */
  function Requests(es: seq<Event>): seq<Word>
    requires Run(es).Some?
    decreases |es|
  {
    if es == [] then []
    else Requests(Before(es)) + Asks(Run(Before(es)).value, Last(es), Run(es).value)
  }

  // ------------------------------------------------------------ counting the requests

  /** A step allocates at most one queue, and gives none up. */
  lemma OneQueueAtMost(s: State, e: Event)
    requires Step(s, e).Some?
    ensures var k, k' := s.queues.Keys, Step(s, e).value.queues.Keys; k <= k' && |k'| <= |k| + 1
  {
    match e
    case ESysCall(op, ctx) => CallQueues(s, op, ctx);
    case EDelete(_) => DeleteQueues(s, e.name);
    case ELoad(p, a) => InsertQueues(s.(attr := s.attr[p := a]), p);
    case ESetPriority(n, x) =>
      if Moved(s, e).Some? { MoveQueues(s, Moved(s, e).value.0, Moved(s, e).value.1); }
    case _ =>
      if Moved(s, e).Some? { MoveQueues(s, Moved(s, e).value.0, Moved(s, e).value.1); }
  }

  lemma InsertQueues(s: State, p: Pcb)
    requires p in s.attr && !InsertFaults(s, p)
    ensures var k, k' := s.queues.Keys, Insert(s, p).value.queues.Keys; k <= k' && |k'| <= |k| + 1
  {
    assert Insert(s, p).value.queues.Keys == s.queues.Keys + {Home(s.attr[p])};
  }

  lemma MoveQueues(s: State, p: Pcb, a: Attributes)
    requires Move(s, p, a).Some?
    ensures var k, k' := s.queues.Keys, Move(s, p, a).value.queues.Keys; k <= k' && |k'| <= |k| + 1
  {
    var s1 := Remove(s, p).(attr := s.attr[p := a]);
    assert s1.queues.Keys == s.queues.Keys;
    InsertQueues(s1, p);
  }

  lemma DeleteQueues(s: State, name: Option<CStr>)
    ensures Delete(s, name).value.queues.Keys == s.queues.Keys
  {
  }

  lemma DispatchQueues(s: State)
    requires Dispatch(s).Some?
    ensures var k, k' := s.queues.Keys, Dispatch(s).value.0.queues.Keys; k <= k' && |k'| <= |k| + 1
  {
    if Items(s, Ready) != [] {
      var s1 := Remove(s, s.queues[Ready][0]);
      assert s1.queues.Keys == s.queues.Keys;
      if s.insertFlag == 1 && s.current.Some? && s.current.value in s.attr { InsertQueues(s1, s.current.value); }
    }
  }

  lemma CallQueues(s: State, op: Word, ctx: Context)
    requires SysCall(s, op, ctx).Some?
    ensures var k, k' := s.queues.Keys, SysCall(s, op, ctx).value.0.queues.Keys; k <= k' && |k'| <= |k| + 1
  {
    if op == IDLE {
      assert IdleEntry(s, ctx).queues == s.queues;
      DispatchQueues(IdleEntry(s, ctx));
    } else if op == EXIT {
      assert ExitEntry(s).queues.Keys == s.queues.Keys;
      DispatchQueues(ExitEntry(s));
    }
  }

  lemma {:induction false} CountPrefix(a: seq<Word>, b: seq<Word>, size: Word, n: nat)
    requires n <= |a|
    ensures Heap.Count(a + b, size, n) == Heap.Count(a, size, n)
  {
    if n > 0 { CountPrefix(a, b, size, n - 1); }
  }

  lemma {:induction false} CountAppend(a: seq<Word>, b: seq<Word>, size: Word, n: nat)
    requires n <= |b|
    ensures Heap.Count(a + b, size, |a| + n) == Heap.Count(a, size, |a|) + Heap.Count(b, size, n)
  {
    if n == 0 { CountPrefix(a, b, size, |a|); } else { CountAppend(a, b, size, n - 1); }
  }

  lemma AtMostOne(k: set<QueueId>, k': set<QueueId>)
    requires k <= k' && |k'| <= |k| + 1
    ensures |k'| - |k| == if k' == k then 0 else 1
  {
    Subset(k, k');
    if k' != k {
      assert k' - k != {} && k' == k + (k' - k);
    }
  }

  lemma CountShort(r: seq<Word>, size: Word)
    requires |r| <= 2
    ensures Heap.Count(r, size, |r|) ==
      (if |r| > 0 && r[0] == size then 1 else 0) + if |r| > 1 && r[1] == size then 1 else 0
  {
    assert Heap.Count(r, size, 0) == 0;
    assert |r| > 0 ==> Heap.Count(r, size, 1) == if r[0] == size then 1 else 0;
  }

  lemma AsksCount(s: State, e: Event, s': State, size: Word)
    requires s.queues.Keys <= s'.queues.Keys && |s'.queues.Keys| <= |s.queues.Keys| + 1
    ensures var r := Asks(s, e, s');
      Heap.Count(r, size, |r|) ==
        (if size == Heap.PCB_SIZE && e.ELoad? then 1 else 0)
        + if size == Heap.QUEUE_SIZE then |s'.queues.Keys| - |s.queues.Keys| else 0
  {
    hide Heap.Count;
    AtMostOne(s.queues.Keys, s'.queues.Keys);
    CountShort(Asks(s, e, s'), size);
  }

  /** The run asks for PCBs and queues only. */
  lemma {:induction false} RequestSizes(es: seq<Event>)
    requires Run(es).Some?
    ensures forall i :: 0 <= i < |Requests(es)| ==>
      Requests(es)[i] == Heap.PCB_SIZE || Requests(es)[i] == Heap.QUEUE_SIZE
    decreases |es|
  {
    if es != [] { RequestSizes(Before(es)); }
  }

  /** One PCB for each process ever loaded, and the queues there are. */
  lemma {:induction false} RequestsCount(es: seq<Event>)
    requires Run(es).Some?
    ensures Heap.Count(Requests(es), Heap.PCB_SIZE, |Requests(es)|) == |Loaded(es)|
    ensures Heap.Count(Requests(es), Heap.QUEUE_SIZE, |Requests(es)|) == |Run(es).value.queues.Keys|
    decreases |es|
  {
    if es == [] {
      assert Loaded(es) == {};
    } else {
      var b := Before(es);
      RequestsCount(b);
      LastRequests(es, Heap.PCB_SIZE);
      LastRequests(es, Heap.QUEUE_SIZE);
      LoadedGrows(es);
    }
  }

  lemma RequestsAre(es: seq<Event>)
    requires Run(es).Some? && es != []
    ensures Run(Before(es)).Some? && Step(Run(Before(es)).value, Last(es)) == Run(es)
    ensures Requests(es) == Requests(Before(es)) + Asks(Run(Before(es)).value, Last(es), Run(es).value)
  {
  }

  lemma LastRequests(es: seq<Event>, size: Word)
    requires Run(es).Some? && es != []
    ensures Heap.Count(Requests(es), size, |Requests(es)|) ==
      Heap.Count(Requests(Before(es)), size, |Requests(Before(es))|)
      + (if size == Heap.PCB_SIZE && Last(es).ELoad? then 1 else 0)
      + if size == Heap.QUEUE_SIZE then |Run(es).value.queues.Keys| - |Run(Before(es)).value.queues.Keys| else 0
  {
    hide Step;
    hide Asks;
    hide Requests;
    hide Heap.Count;
    var s, s' := Run(Before(es)).value, Run(es).value;
    var r := Asks(s, Last(es), s');
    RequestsAre(es);
    OneQueueAtMost(s, Last(es));
    AsksCount(s, Last(es), s', size);
    CountAppend(Requests(Before(es)), r, size, |r|);
  }

  lemma FourQueues(k: set<QueueId>)
    ensures |k| <= 4
  {
    var all := {Ready, Blocked, SuspReady, SuspBlocked};
    assert k <= all by {
      forall q | q in k ensures q in all {
        match q
        case Ready => case Blocked => case SuspReady => case SuspBlocked =>
      }
    }
    Subset(k, all);
  }

  lemma {:induction false} Subset<T>(a: set<T>, b: set<T>)
    requires a <= b
    ensures |a| <= |b|
  {
    assert b == a + (b - a);
  }

  /** Whatever is deleted or exits, memory lasts for a run exactly when it loads at most 62 processes. */
  lemma RunCapacity(es: seq<Event>)
    requires Run(es).Some?
    ensures Heap.Granted(Requests(es)) <==> |Loaded(es)| <= 62
  {
    RequestSizes(es);
    RequestsCount(es);
    FourQueues(Run(es).value.queues.Keys);
    Heap.LoadCapacity(Requests(es));
  }

  // ------------------------------------------------------------ where the processes are

  /** Where the next block of memory will be. */
  function NextAddress(es: seq<Event>): Word
    requires Run(es).Some?
  {
    Heap.HeapPointer(Requests(es), |Requests(es)|)
  }

  /** The address of a process that has been loaded. */
  function Address(es: seq<Event>, p: Pcb): Word
    requires Run(es).Some?
    decreases |es|
  {
    if es == [] then 0
    else if Last(es).ELoad? && Last(es).p == p then NextAddress(Before(es))
    else Address(Before(es), p)
  }

  lemma {:induction false} SumPrefix(a: seq<Word>, b: seq<Word>, n: nat)
    requires n <= |a|
    ensures Heap.Sum(a + b, n) == Heap.Sum(a, n)
  {
    if n > 0 { SumPrefix(a, b, n - 1); }
  }

  lemma {:induction false} SumAppend(a: seq<Word>, b: seq<Word>, n: nat)
    requires n <= |b|
    ensures Heap.Sum(a + b, |a| + n) == Heap.Sum(a, |a|) + Heap.Sum(b, n)
  {
    if n == 0 { SumPrefix(a, b, |a|); } else { SumAppend(a, b, n - 1); }
  }

  lemma NextIsSum(es: seq<Event>)
    requires Run(es).Some? && |Loaded(es)| <= 62
    ensures NextAddress(es) == KHEAP_BASE + Heap.Sum(Requests(es), |Requests(es)|) <= KHEAP_BASE + KHEAP_SIZE
  {
    RunCapacity(es);
    RequestSizes(es);
    Heap.SmallRequests(Requests(es), |Requests(es)|);
  }

  lemma FewerBefore(es: seq<Event>)
    requires es != []
    ensures |Loaded(Before(es))| <= |Loaded(es)|
  {
    LoadedGrows(es);
    Subset(Loaded(Before(es)), Loaded(es));
  }

  /** What a step allocates lies behind all that was allocated before it. */
  lemma NextGrows(es: seq<Event>)
    requires Run(es).Some? && es != [] && |Loaded(es)| <= 62
    ensures NextAddress(Before(es)) + (if Last(es).ELoad? then Heap.PCB_SIZE else 0) <= NextAddress(es)
  {
    var r := Asks(Run(Before(es)).value, Last(es), Run(es).value);
    FewerBefore(es);
    NextIsSum(es);
    NextIsSum(Before(es));
    SumAppend(Requests(Before(es)), r, |r|);
    if Last(es).ELoad? {
      assert Heap.Sum(r, 1) == Heap.PCB_SIZE;
      Heap.SumGrows(r, 1, |r|);
    }
  }

  lemma {:induction false} AddressBelow(es: seq<Event>, p: Pcb)
    requires Run(es).Some? && |Loaded(es)| <= 62 && p in Loaded(es)
    ensures KHEAP_BASE <= Address(es, p) && Address(es, p) + Heap.PCB_SIZE <= NextAddress(es) <= KHEAP_BASE + KHEAP_SIZE
    decreases |es|
  {
    LoadedGrows(es);
    FewerBefore(es);
    NextIsSum(es);
    NextIsSum(Before(es));
    NextGrows(es);
    if !(Last(es).ELoad? && Last(es).p == p) {
      AddressBelow(Before(es), p);
    }
  }

  /** As long as memory lasts, every process has a block of the heap of its own, also among those that have
      been deleted or have exited. */
  lemma {:induction false} ProcessesApart(es: seq<Event>, p: Pcb, q: Pcb)
    requires Run(es).Some? && |Loaded(es)| <= 62 && p in Loaded(es) && q in Loaded(es) && p != q
    ensures KHEAP_BASE <= Address(es, p) && Address(es, p) + Heap.PCB_SIZE <= KHEAP_BASE + KHEAP_SIZE
    ensures Address(es, p) + Heap.PCB_SIZE <= Address(es, q) || Address(es, q) + Heap.PCB_SIZE <= Address(es, p)
    decreases |es|
  {
    LoadedGrows(es);
    FewerBefore(es);
    AddressBelow(es, p);
    if Last(es).ELoad? && Last(es).p == p {
      AddressBelow(Before(es), q);
    } else if Last(es).ELoad? && Last(es).p == q {
      AddressBelow(Before(es), p);
    } else {
      ProcessesApart(Before(es), p, q);
    }
  }

  // ------------------------------------------------------------ the same with kmalloc

  lemma {:induction false} PointerPrefix(a: seq<Word>, b: seq<Word>, n: nat)
    requires n <= |a|
    ensures Heap.HeapPointer(a + b, n) == Heap.HeapPointer(a, n)
  {
    if n > 0 { PointerPrefix(a, b, n - 1); }
  }

  /** The address of a process is where the request number k of the run, which load made for it, puts it. */
  lemma {:induction false} RequestOf(es: seq<Event>, p: Pcb) returns (k: nat)
    requires Run(es).Some? && p in Loaded(es)
    ensures k < |Requests(es)| && Requests(es)[k] == Heap.PCB_SIZE
    ensures Address(es, p) == Heap.HeapPointer(Requests(es), k)
    decreases |es|
  {
    hide Run;
    RequestsAre(es);
    LoadedGrows(es);
    var b, r := Requests(Before(es)), Asks(Run(Before(es)).value, Last(es), Run(es).value);
    if Last(es).ELoad? && Last(es).p == p {
      k := |b|;
    } else {
      k := RequestOf(Before(es), p);
    }
    PointerPrefix(b, r, k);
  }

  /** The requests of a run, made of kmalloc when vm_init has returned. None panics exactly when the run loads
      at most 62 processes, and every process is at an address that kmalloc returned for a PCB. */
  method ServeRun(m: Memory, sizes: seq<Word>, ghost es: seq<Event>) returns (addrs: seq<Word>)
    requires Run(es).Some? && sizes == Requests(es)
    requires m.heapIsInitialized && m.kdir != null && m.heapAddr == KHEAP_BASE
    modifies m`physAllocAddr, m`heapAddr
    ensures |addrs| == |sizes| <==> |Loaded(es)| <= 62
    ensures |Loaded(es)| <= 62 ==> forall p :: p in Loaded(es) ==>
      exists k :: 0 <= k < |sizes| && sizes[k] == Heap.PCB_SIZE && Address(es, p) == addrs[k]
  {
    hide Run;
    hide Requests;
    hide Loaded;
    RunCapacity(es);
    addrs := m.ServeHeap(sizes, seq(|sizes|, _ => false));
    assert Heap.Granted(sizes) <==> |addrs| == |sizes|;
    if |Loaded(es)| <= 62 {
      forall p | p in Loaded(es)
        ensures exists k :: 0 <= k < |sizes| && sizes[k] == Heap.PCB_SIZE && Address(es, p) == addrs[k]
      {
        var k := RequestOf(es, p);
      }
    }
  }
}
