/**
 What the memory map and the allocator of kernel/core-c.c guarantee: address translation after vm_init,
 and the regions that runs of kmalloc hand out.
 */
module Allocations {
  import opened Common
  import opened Frames
  import opened MemoryMap

  // ------------------------------------------------------------ translation after vm_init

  /** The physical address of a, when its page is present. */
  function Translate(e: Word, a: Word): Option<int>
    requires LowPages(e) <= NFRAMES
  {
    var entry := Final(e, a / PAGE_SIZE);
    if entry.present then Some(entry.frameaddr * PAGE_SIZE + a % PAGE_SIZE) else None
  }

  predicate InHeap(a: int) {
    KHEAP_BASE <= a < KHEAP_BASE + KHEAP_SIZE
  }

  predicate InLowPages(e: Word, a: int) {
    PAGE_SIZE <= a < LowPages(e) * PAGE_SIZE
  }

  /** The page entries after vm_init, field by field: present, writeable, usermode, accessed, dirty, reserved
      and frameaddr. */
  lemma EntryFields(e: Word, p: nat)
    requires LowPages(e) <= NFRAMES
    ensures 0 < p < LowPages(e) ==> Final(e, p) == PageEntry(true, true, false, false, false, 0, p)
    ensures HEAP_PAGE <= p < HEAP_PAGE + HEAP_PAGES ==>
      Final(e, p) == PageEntry(true, true, false, false, false, 0, LowPages(e) + p - HEAP_PAGE)
    ensures p == 0 || LowPages(e) <= p < HEAP_PAGE || HEAP_PAGE + HEAP_PAGES <= p ==>
      Final(e, p) == PageEntry(false, false, false, false, false, 0, 0)
  {
  }

  /** The low pages map to themselves, the heap maps linearly to the frames behind them, and nothing
      else is mapped, page 0 included. */
  lemma TranslationIs(e: Word, a: Word)
    requires LowPages(e) <= NFRAMES
    ensures Translate(e, a) ==
      if InLowPages(e, a) then Some(a)
      else if InHeap(a) then Some(LowPages(e) * PAGE_SIZE + (a - KHEAP_BASE))
      else None
  {
  }

  /** No two addresses share a physical address. */
  lemma TranslationIsInjective(e: Word, a: Word, b: Word)
    requires LowPages(e) <= NFRAMES
    requires Translate(e, a).Some? && Translate(e, a) == Translate(e, b)
    ensures a == b
  {
  }

  /** The image, the directory, the heap's table and the low tables follow one another without overlap, and
      with the 64 KB behind them they are exactly what the low pages map. */
  lemma MapCoversItself(e: Word, i: nat)
    requires i < LowTables(e)
    ensures e <= DirAddr(e) && DirAddr(e) + DIR_SIZE <= TableAddr(e, HEAP_TABLE)
    ensures TableAddr(e, HEAP_TABLE) + TABLE_SIZE <= TableAddr(e, 0)
    ensures i < HEAP_TABLE ==> TableAddr(e, 0) <= TableAddr(e, i)
    ensures i + 1 < LowTables(e) && i + 1 < HEAP_TABLE ==> TableAddr(e, i) + TABLE_SIZE <= TableAddr(e, i + 1)
    ensures i < HEAP_TABLE && i + 1 == LowTables(e) ==>
      TableAddr(e, i) + TABLE_SIZE + 0x10000 == LowPages(e) * PAGE_SIZE
  {
  }

  /** Once vm_init has returned, the kernel reaches every byte of its image from page 1 on, of its directory
      and of its tables at the address it used before. */
  lemma KernelKeepsItsAddresses(e: Word, i: nat, a: Word)
    requires 0x1000 <= e && LowPages(e) <= NFRAMES && HasTable(LowTables(e), i)
    requires
      || PAGE_SIZE <= a < e
      || DirAddr(e) <= a < DirAddr(e) + DIR_SIZE
      || TableAddr(e, i) <= a < TableAddr(e, i) + TABLE_SIZE
    ensures Translate(e, a) == Some(a)
  {
  }

  // ------------------------------------------------------------ kmalloc after vm_init

  /** The entry kmalloc looks up, None when there is no table for the page. */
  function FoundEntry(e: Word, p: nat): Option<PageEntry>
    requires LowPages(e) <= NFRAMES
  {
    if HasTable(LowTables(e), p / ENTRIES) then Some(Final(e, p)) else None
  }

  /** The physical address kmalloc reports is the translation of the address it returns, except for an
      empty block at the very end of the heap, which it reports at 0. */
  lemma ReportedAddress(e: Word, h: Word, size: Word)
    requires LowPages(e) <= NFRAMES && KHEAP_BASE <= h <= KHEAP_BASE + KHEAP_SIZE
    requires h + size <= KHEAP_BASE + KHEAP_SIZE
    ensures HeapResult(h, size, true, FoundEntry(e, h / PAGE_SIZE)) == At(h, Some(
      if h == KHEAP_BASE + KHEAP_SIZE then 0 else LowPages(e) * PAGE_SIZE + (h - KHEAP_BASE)))
  {
  }

  /** The heap pointer after the first n requests. */
  function HeapPointer(sizes: seq<Word>, n: nat): Word
    requires n <= |sizes|
  {
    if n == 0 then KHEAP_BASE else Add32(HeapPointer(sizes, n - 1), sizes[n - 1])
  }

  /** None of these requests, made one after the other from the start, panics. */
  ghost predicate Granted(sizes: seq<Word>) {
    GrantedUpTo(sizes, |sizes|)
  }

  ghost predicate GrantedUpTo(sizes: seq<Word>, n: nat)
    requires n <= |sizes|
  {
    forall i :: 0 < i <= n ==> HeapPointer(sizes, i) <= KHEAP_BASE + KHEAP_SIZE
  }

  function Sum(sizes: seq<Word>, n: nat): nat
    requires n <= |sizes|
  {
    if n == 0 then 0 else Sum(sizes, n - 1) + sizes[n - 1]
  }

  lemma {:induction false} SumGrows(sizes: seq<Word>, i: nat, j: nat)
    requires i <= j <= |sizes|
    ensures Sum(sizes, i) <= Sum(sizes, j)
  {
    if i < j {
      SumGrows(sizes, i, j - 1);
    }
  }

  /** Region n of the run lies in the heap. */
  predicate Inside(sizes: seq<Word>, n: nat)
    requires n < |sizes|
  {
    KHEAP_BASE <= HeapPointer(sizes, n) && HeapPointer(sizes, n) + sizes[n] <= KHEAP_BASE + KHEAP_SIZE
  }

  lemma {:induction false} PointerIsSum(sizes: seq<Word>, n: nat)
    requires n <= |sizes| && Sum(sizes, n) <= KHEAP_SIZE
    ensures HeapPointer(sizes, n) == KHEAP_BASE + Sum(sizes, n)
  {
    if n > 0 {
      PointerIsSum(sizes, n - 1);
    }
  }

  lemma {:induction false} InsideIsSum(sizes: seq<Word>, n: nat)
    requires n <= |sizes| && forall i :: 0 <= i < n ==> Inside(sizes, i)
    ensures HeapPointer(sizes, n) == KHEAP_BASE + Sum(sizes, n)
  {
    if n > 0 {
      InsideIsSum(sizes, n - 1);
      assert Inside(sizes, n - 1);
    }
  }

  /** Requests all get regions of the heap exactly when together they fit into it. When they do, none panics
      and no two regions overlap. */
  lemma HeapRegions(sizes: seq<Word>)
    ensures Granted(sizes) && (forall i :: 0 <= i < |sizes| ==> Inside(sizes, i)) <==> Sum(sizes, |sizes|) <= KHEAP_SIZE
    ensures Sum(sizes, |sizes|) <= KHEAP_SIZE ==>
      forall i, j :: 0 <= i < j < |sizes| ==> HeapPointer(sizes, i) + sizes[i] <= HeapPointer(sizes, j)
  {
    if Granted(sizes) && forall i :: 0 <= i < |sizes| ==> Inside(sizes, i) {
      InsideIsSum(sizes, |sizes|);
      if sizes != [] {
        assert HeapPointer(sizes, |sizes|) <= KHEAP_BASE + KHEAP_SIZE;
      }
    }
    if Sum(sizes, |sizes|) <= KHEAP_SIZE {
      forall n: nat | n <= |sizes|
        ensures HeapPointer(sizes, n) == KHEAP_BASE + Sum(sizes, n) <= KHEAP_BASE + KHEAP_SIZE
      {
        SumGrows(sizes, n, |sizes|);
        PointerIsSum(sizes, n);
      }
      forall i | 0 <= i < |sizes| ensures Inside(sizes, i) {
        assert HeapPointer(sizes, i + 1) == KHEAP_BASE + Sum(sizes, i + 1);
      }
      forall i, j | 0 <= i < j < |sizes| ensures HeapPointer(sizes, i) + sizes[i] <= HeapPointer(sizes, j) {
        SumGrows(sizes, i + 1, j);
      }
    }
  }

  /** The heap check looks at the wrapped pointer only: a request that wraps it is granted although it does
      not fit, and a later region can be an earlier one again. */
  lemma WrapIsGranted()
    ensures Granted([0x10, 0xFFFF_FFF0, 0x10]) && !Inside([0x10, 0xFFFF_FFF0, 0x10], 1)
    ensures HeapPointer([0x10, 0xFFFF_FFF0, 0x10], 2) == HeapPointer([0x10, 0xFFFF_FFF0, 0x10], 0)
  {
    var sizes: seq<Word> := [0x10, 0xFFFF_FFF0, 0x10];
    assert HeapPointer(sizes, 0) == KHEAP_BASE;
    assert HeapPointer(sizes, 1) == KHEAP_BASE + 0x10;
    assert HeapPointer(sizes, 2) == KHEAP_BASE;
    assert HeapPointer(sizes, 3) == KHEAP_BASE + 0x10;
  }

  // ------------------------------------------------------------ how many processes fit

  const PCB_SIZE: Word := 1056    // sizeof(struct pcb) on i386: a name of 8, four ints, a stack of 1024, two pointers
  const QUEUE_SIZE: Word := 4     // sizeof(struct queue)

  function Count(sizes: seq<Word>, size: Word, n: nat): nat
    requires n <= |sizes|
  {
    if n == 0 then 0 else Count(sizes, size, n - 1) + if sizes[n - 1] == size then 1 else 0
  }

  /** The requests of load and pcb_insert, the only ones there are: PCBs, and each queue once. */
  ghost predicate ProcessRequests(sizes: seq<Word>) {
    && (forall i :: 0 <= i < |sizes| ==> sizes[i] == PCB_SIZE || sizes[i] == QUEUE_SIZE)
    && Count(sizes, QUEUE_SIZE, |sizes|) <= 4
  }

  lemma {:induction false} SumOfCounts(sizes: seq<Word>, n: nat)
    requires n <= |sizes| && forall i :: 0 <= i < |sizes| ==> sizes[i] == PCB_SIZE || sizes[i] == QUEUE_SIZE
    ensures Sum(sizes, n) == PCB_SIZE * Count(sizes, PCB_SIZE, n) + QUEUE_SIZE * Count(sizes, QUEUE_SIZE, n)
  {
    if n > 0 {
      SumOfCounts(sizes, n - 1);
    }
  }

  /** Small requests cannot wrap the pointer, so they are granted exactly as long as they fit. */
  lemma {:induction false} SmallRequests(sizes: seq<Word>, n: nat)
    requires n <= |sizes| && forall i :: 0 <= i < |sizes| ==> sizes[i] <= KHEAP_SIZE
    ensures GrantedUpTo(sizes, n) <==> Sum(sizes, n) <= KHEAP_SIZE
    ensures Sum(sizes, n) <= KHEAP_SIZE ==> HeapPointer(sizes, n) == KHEAP_BASE + Sum(sizes, n)
  {
    if n > 0 {
      SmallRequests(sizes, n - 1);
      assert GrantedUpTo(sizes, n) <==> GrantedUpTo(sizes, n - 1) && HeapPointer(sizes, n) <= KHEAP_BASE + KHEAP_SIZE;
    }
  }

  /** The heap holds 62 processes, counting those that have been deleted or have exited; the load after
      that panics. */
  lemma LoadCapacity(sizes: seq<Word>)
    requires ProcessRequests(sizes)
    ensures Granted(sizes) <==> Count(sizes, PCB_SIZE, |sizes|) <= 62
  {
    var pcbs, queues := Count(sizes, PCB_SIZE, |sizes|), Count(sizes, QUEUE_SIZE, |sizes|);
    SumOfCounts(sizes, |sizes|);
    SmallRequests(sizes, |sizes|);
    assert Granted(sizes) <==> Sum(sizes, |sizes|) <= KHEAP_SIZE;
    assert 1056 * pcbs + 4 * queues <= 0x10000 <==> pcbs <= 62;
  }

  /** Memory given out before vm_init lies below all heap memory, in its addresses and in the frames. */
  lemma EarlyAndHeapApart(e: Word, a: Word, b: Word)
    requires LowPages(e) <= NFRAMES && a < (LowPages(e) - HEAP_PAGES) * PAGE_SIZE && InHeap(b)
    ensures a < b && Translate(e, b).Some? && a < Translate(e, b).value
  {
  }

  // ------------------------------------------------------------ kmalloc before vm_init

  datatype Request = Request(size: Word, pageAlign: bool)

  /** The physical pointer after the first n requests, and the address that request n gets. */
  function EarlyPointer(p: Word, reqs: seq<Request>, n: nat): Word
    requires n <= |reqs|
    decreases n, 0
  {
    if n == 0 then p else Add32(EarlyBlock(p, reqs, n - 1), reqs[n - 1].size)
  }

  function EarlyBlock(p: Word, reqs: seq<Request>, n: nat): Word
    requires n < |reqs|
    decreases n, 1
  {
    EarlyAddr(EarlyPointer(p, reqs, n), reqs[n].pageAlign)
  }

  /** Request n neither rounds up nor adds past the end of the address space. */
  predicate Fits(p: Word, reqs: seq<Request>, n: nat)
    requires n < |reqs|
  {
    EarlyPointer(p, reqs, n) <= EarlyBlock(p, reqs, n) && EarlyBlock(p, reqs, n) + reqs[n].size < 0x1_0000_0000
  }

  lemma {:induction false} EarlyPointerGrows(p: Word, reqs: seq<Request>, i: nat, j: nat)
    requires i <= j <= |reqs| && forall n :: i <= n < j ==> Fits(p, reqs, n)
    ensures EarlyPointer(p, reqs, i) <= EarlyPointer(p, reqs, j)
  {
    if i < j {
      EarlyPointerGrows(p, reqs, i, j - 1);
      assert Fits(p, reqs, j - 1);
    }
  }

  lemma BlockEnd(p: Word, reqs: seq<Request>, n: nat)
    requires n < |reqs| && Fits(p, reqs, n)
    ensures EarlyPointer(p, reqs, n) <= EarlyBlock(p, reqs, n)
    ensures EarlyPointer(p, reqs, n + 1) == EarlyBlock(p, reqs, n) + reqs[n].size
  {
  }

  lemma FromTheStart(p: Word, reqs: seq<Request>)
    ensures EarlyPointer(p, reqs, 0) == p
  {
  }

  /** The regions of requests that fit come in order, behind p, and do not overlap. */
  lemma EarlyRegions(p: Word, reqs: seq<Request>, i: nat, j: nat)
    requires i < j < |reqs| && forall n :: 0 <= n <= j ==> Fits(p, reqs, n)
    ensures p <= EarlyBlock(p, reqs, i)
    ensures EarlyBlock(p, reqs, i) + reqs[i].size <= EarlyBlock(p, reqs, j)
  {
    hide EarlyPointer;
    hide EarlyBlock;
    hide Fits;
    FromTheStart(p, reqs);
    EarlyPointerGrows(p, reqs, 0, i);
    EarlyPointerGrows(p, reqs, i + 1, j);
    BlockEnd(p, reqs, i);
    BlockEnd(p, reqs, j);
  }

  /** An unaligned request gets the pointer as it is; an aligned one gets, from page 1 on, the first page
      boundary above the pointer, which is address 0 for the last page. */
  lemma NextBoundary(p: Word)
    ensures EarlyAddr(p, false) == p
    ensures p < PAGE_SIZE ==> EarlyAddr(p, true) == p
    ensures PAGE_SIZE <= p < 0xFFFF_F000 ==>
      p < EarlyAddr(p, true) <= p + PAGE_SIZE && EarlyAddr(p, true) % PAGE_SIZE == 0
    ensures 0xFFFF_F000 <= p ==> EarlyAddr(p, true) == 0
  {
  }

  /** A page-aligned request gets a page boundary exactly when the pointer is 0 or at least one page up;
      inside page 0 the code leaves it where it is. */
  lemma AlignedIff(p: Word)
    ensures EarlyAddr(p, true) % PAGE_SIZE == 0 <==> p == 0 || p >= PAGE_SIZE
  {
  }
}
