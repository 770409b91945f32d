/** The address arithmetic of kernel/core-c.c and the memory map vm_init builds. */
module MemoryMap {
  import opened Common
  import opened Frames

  const KHEAP_BASE: Word := 0xD000000
  const KHEAP_SIZE: Word := 0x10000
  const ENTRIES: nat := 1024             // entries of a table, tables of a directory
  const TABLE_SIZE: Word := 0x1000       // sizeof(page_table)
  const DIR_SIZE: Word := 0x2000         // sizeof(page_dir)

  type FrameNo = x: int | 0 <= x < 0x10_0000
  type Field7 = x: int | 0 <= x < 0x80

  datatype PageEntry = PageEntry(
    present: bool, writeable: bool, usermode: bool, accessed: bool, dirty: bool, reserved: Field7, frameaddr: FrameNo)

  const BLANK := PageEntry(false, false, false, false, false, 0, 0)

  /** The result of kmalloc: kpanic does not return, and a missing page table is a null dereference. */
  datatype Allocation = Panicked | Faulted | At(addr: Word, phys: Option<Word>)

  /** Where the early allocator places the next block. */
  function EarlyAddr(p: Word, pageAlign: bool): Word {
    if pageAlign && p / PAGE_SIZE != 0 then Add32(p / PAGE_SIZE * PAGE_SIZE, PAGE_SIZE) else p
  }

  /** What kmalloc answers in heap mode, given the entry of the page of the heap pointer h. */
  function HeapResult(h: Word, size: Word, wantPhys: bool, entry: Option<PageEntry>): Allocation {
    if Add32(h, size) > KHEAP_BASE + KHEAP_SIZE then Panicked
    else if !wantPhys then At(h, None)
    else if entry == None then Faulted
    else At(h, Some(entry.value.frameaddr * PAGE_SIZE + h % PAGE_SIZE))
  }

  /** A page entry that has been given frame f. */
  function Backed(entry: PageEntry, f: FrameNo): PageEntry {
    entry.(present := true, writeable := true, usermode := false, frameaddr := f)
  }

  /** What new_frame does to the bitmap and an entry when it returns; f is the frame it gives. */
  ghost predicate NewFrameStep(words: Bitmap, entry: PageEntry, f: Word, words': Bitmap, entry': PageEntry) {
    if entry.frameaddr != 0 then words' == words && entry' == entry
    else f < NFRAMES && FirstFree(words, f) && words' == Take(words, f) && entry' == Backed(entry, f)
  }

  /** Calling new_frame again on the same entry changes nothing, except when the entry got frame 0: the
      code takes that for no frame, takes another one, and frame 0 is lost. */
  lemma NewFrameTwice(words: Bitmap, entry: PageEntry, f: Word, words': Bitmap, entry': PageEntry,
                      g: Word, words'': Bitmap, entry'': PageEntry)
    requires NewFrameStep(words, entry, f, words', entry') && NewFrameStep(words', entry', g, words'', entry'')
    ensures words'' == words' && entry'' == entry' <==> entry.frameaddr != 0 || Taken(words, 0)
  {
    if entry.frameaddr == 0 {
      assert f == 0 <==> 0 in Free(words);
      if f == 0 {
        TakeFree(words', g);
        assert g in Free(words') && g !in Free(words'');
      }
    }
  }

  /** The bitmap marks exactly frames 0 to c - 1. */
  ghost predicate TakenExactly(words: Bitmap, c: nat) {
    forall f: nat :: f < NFRAMES ==> (Taken(words, f) <==> f < c)
  }

  lemma NothingTaken(words: Bitmap)
    requires forall i :: 0 <= i < WORDS ==> words[i] == 0
    ensures TakenExactly(words, 0)
  {
  }

  lemma FullIff(words: Bitmap, c: nat)
    requires TakenExactly(words, c)
    ensures Free(words) == {} <==> c >= NFRAMES
  {
    if c < NFRAMES {
      assert c in Free(words);
    }
  }

  /** What find_free answers on such a bitmap, and what set_bit makes of it. */
  lemma NextTaken(words: Bitmap, c: nat, r: Word)
    requires TakenExactly(words, c) && FirstFree(words, r)
    ensures r == if c < NFRAMES then c else NONE
    ensures r != NONE ==> TakenExactly(Take(words, r), c + 1)
  {
    if c < NFRAMES {
      assert c in Free(words);
    }
    if r != NONE {
      forall f: nat | f < NFRAMES ensures Taken(Take(words, r), f) <==> f < c + 1 {
        TakeOne(words, r, f);
      }
    }
  }

  // ------------------------------------------------------------ the plan of vm_init

  const HEAP_TABLE: nat := 52            // KHEAP_BASE / PAGE_SIZE / ENTRIES
  const HEAP_PAGE: nat := 53248          // KHEAP_BASE / PAGE_SIZE
  const HEAP_PAGES: nat := 16            // KHEAP_SIZE / PAGE_SIZE
  const ALL_PAGES: nat := 0x10_0000

  /** Tables that n low pages need. */
  function Tables(n: nat): nat {
    (n + ENTRIES - 1) / ENTRIES
  }

  /** The first page behind the image, the directory and the heap's table. */
  function FirstPage(e: Word): nat {
    e / PAGE_SIZE + 5
  }

  /** The number of low tables, and of low pages, that vm_init ends with. */
  function LowTables(e: Word): nat {
    (FirstPage(e) + 16 + 1021) / 1022
  }

  function LowPages(e: Word): nat {
    FirstPage(e) + 16 + 2 * LowTables(e)
  }

  /** With n low pages mapped the loop of 442-444 goes on exactly while n is below LowPages: its bound
      moves by two pages with each table, and each table serves 1024. */
  lemma GoesOnIff(e: Word, n: nat)
    requires n <= LowPages(e)
    ensures n < FirstPage(e) + 2 * Tables(n) + 16 <==> n < LowPages(e)
  {
  }

  /** The same for the guard of the loop, in 32-bit arithmetic. */
  lemma GuardIff(e: Word, n: nat)
    requires e <= 0xFFFC_0000 && n <= LowPages(e) && n <= NFRAMES
    ensures 0 <= (FirstPage(e) + 2 * Tables(n)) * PAGE_SIZE < 0xFFFF_0000
    ensures n * PAGE_SIZE < Add32((FirstPage(e) + 2 * Tables(n)) * PAGE_SIZE, 0x10000) <==> n < LowPages(e)
  {
    GoesOnIff(e, n);
  }

  lemma LowTablesServe(e: Word)
    ensures Tables(LowPages(e)) == LowTables(e)
  {
  }

  /** vm_init finds a frame for every page exactly when the image leaves room for it. */
  lemma EnoughFramesIff(e: Word)
    ensures LowPages(e) + HEAP_PAGES <= NFRAMES <==> e / PAGE_SIZE <= 16315
  {
  }

  function DirAddr(e: Word): nat {
    (e / PAGE_SIZE + 1) * PAGE_SIZE
  }

  function TableAddr(e: Word, i: nat): nat {
    if i == HEAP_TABLE then (FirstPage(e) - 1) * PAGE_SIZE else (FirstPage(e) + 2 * i + 1) * PAGE_SIZE
  }

  lemma PagesDivide(k: nat)
    ensures k * PAGE_SIZE / PAGE_SIZE == k
  {
  }

  lemma EightsDivide(k: nat)
    ensures 8 * k / 8 * 8 == 8 * k
  {
  }

  lemma NextPage(k: nat)
    requires 0 < k <= 0xFFFF0
    ensures EarlyAddr(k * PAGE_SIZE, true) == (k + 1) * PAGE_SIZE
    ensures (k + 1) * PAGE_SIZE / 8 * 8 == (k + 1) * PAGE_SIZE
    ensures Add32((k + 1) * PAGE_SIZE, TABLE_SIZE) == (k + 2) * PAGE_SIZE
  {
    PagesDivide(k);
    EightsDivide(0x200 * (k + 1));
  }

  /** The early allocator places low table t where the plan says. */
  lemma TablePlaced(e: Word, t: nat)
    requires e <= 0xFFFC_0000 && t <= 16
    ensures EarlyAddr((FirstPage(e) + 2 * t) * PAGE_SIZE, true) == TableAddr(e, t)
    ensures TableAddr(e, t) / 8 * 8 == TableAddr(e, t)
    ensures Add32(TableAddr(e, t), TABLE_SIZE) == (FirstPage(e) + 2 * (t + 1)) * PAGE_SIZE
  {
    NextPage(FirstPage(e) + 2 * t);
  }

  lemma HeapTablePlaced(e: Word)
    requires 0x1000 <= e <= 0xFFFC_0000
    ensures EarlyAddr(DirAddr(e) + DIR_SIZE, true) == TableAddr(e, HEAP_TABLE)
    ensures TableAddr(e, HEAP_TABLE) / 8 * 8 == TableAddr(e, HEAP_TABLE)
    ensures Add32(TableAddr(e, HEAP_TABLE), TABLE_SIZE) == FirstPage(e) * PAGE_SIZE
  {
    NextPage(e / PAGE_SIZE + 3);
  }

  /** A low page needs a new table exactly when it is the first of its 1024, and that table is the next one. */
  lemma TableNeeded(n: nat)
    requires n < HEAP_PAGE
    ensures !HasTable(Tables(n), n / ENTRIES) <==> n % ENTRIES == 0
    ensures Tables(n + 1) == if n % ENTRIES == 0 then n / ENTRIES + 1 else Tables(n)
    ensures n % ENTRIES == 0 ==> n / ENTRIES == Tables(n)
  {
  }

  predicate HasTable(t: nat, i: nat) {
    i < t || i == HEAP_TABLE
  }

  /** The entry of page p once n low pages and k heap pages have frames. */
  function Planned(n: nat, k: nat, p: nat): PageEntry
    requires n <= NFRAMES && (p >= HEAP_PAGE ==> n + p - HEAP_PAGE < 0x10_0000 || p >= HEAP_PAGE + k)
  {
    if p < n then Backed(BLANK, p)
    else if HEAP_PAGE <= p < HEAP_PAGE + k then Backed(BLANK, n + p - HEAP_PAGE)
    else BLANK
  }

  lemma PageIndex(i: nat, o: nat, p: nat)
    requires o < ENTRIES
    ensures ENTRIES * i + o == p <==> i == p / ENTRIES && o == p % ENTRIES
  {
  }

  /** The entry of page p after vm_init; page 0 is taken out again. */
  function Final(e: Word, p: nat): PageEntry
    requires LowPages(e) <= NFRAMES
  {
    if p == 0 then BLANK else Planned(LowPages(e), HEAP_PAGES, p)
  }
}
