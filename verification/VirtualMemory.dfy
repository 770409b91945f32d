/** kernel/core-c.c: page tables, the two-mode allocator and vm_init. */
module VirtualMemory {
  import opened Common
  import opened Frames
  import opened MemoryMap
  import opened Allocations

  type Entries = s: seq<PageEntry> | |s| == ENTRIES witness seq(ENTRIES, _ => BLANK)
  type Pointers = s: seq<PageTable?> | |s| == ENTRIES witness seq(ENTRIES, _ => null)
  type Addresses = s: seq<Word> | |s| == ENTRIES witness seq(ENTRIES, _ => 0)

  /** The memory of a page_table is found zeroed. */
  class PageTable {
    const addr: Word
    var pages: Entries

    constructor (addr: Word)
      ensures this.addr == addr && forall o :: 0 <= o < ENTRIES ==> pages[o] == BLANK
    {
      this.addr := addr;
      pages := seq(ENTRIES, _ => BLANK);
    }
  }

  class PageDir {
    const addr: Word
    var tables: Pointers
    var tablesPhys: Addresses

    constructor (addr: Word)
      ensures this.addr == addr && forall i :: 0 <= i < ENTRIES ==> tables[i] == null && tablesPhys[i] == 0
    {
      this.addr := addr;
      tables := seq(ENTRIES, _ => null);
      tablesPhys := seq(ENTRIES, _ => 0);
    }

    /** The tables there are. */
    ghost function All(): set<object>
      reads this
    {
      set i | 0 <= i < ENTRIES && tables[i] != null :: tables[i]
    }

    /** The entry of page p; None when its table does not exist. */
    ghost function EntryOf(p: nat): Option<PageEntry>
      requires p < ALL_PAGES
      reads this, All()
    {
      var table := tables[p / ENTRIES];
      if table == null then None else Some(table.pages[p % ENTRIES])
    }
  }

  /** There are the heap's table and the first t, each where the plan puts it. */
  ghost predicate Shape(tables: Pointers, phys: Addresses, e: Word, t: nat) {
    forall i {:trigger tables[i]} :: 0 <= i < ENTRIES ==>
      if HasTable(t, i) then tables[i] != null && tables[i].addr == TableAddr(e, i) && phys[i] == TableAddr(e, i) + 7
      else tables[i] == null && phys[i] == 0
  }

  ghost predicate Apart(tables: Pointers) {
    forall i, j {:trigger tables[i], tables[j]} :: 0 <= i < j < ENTRIES && tables[i] != null ==> tables[i] != tables[j]
  }

  lemma NextTable(tables: Pointers, phys: Addresses, e: Word, t: nat, table: PageTable)
    requires Shape(tables, phys, e, t) && t < HEAP_TABLE && table.addr == TableAddr(e, t) <= 0xFFFF_F000
    ensures Shape(tables[t := table], phys[t := TableAddr(e, t) + 7], e, t + 1)
  {
    var tables', phys' := tables[t := table], phys[t := TableAddr(e, t) + 7];
    assert forall i :: 0 <= i < ENTRIES && i != t ==> tables'[i] == tables[i] && phys'[i] == phys[i];
  }

  lemma HeapTable(tables: Pointers, phys: Addresses, e: Word, table: PageTable)
    requires forall i :: 0 <= i < ENTRIES ==> tables[i] == null && phys[i] == 0
    requires table.addr == TableAddr(e, HEAP_TABLE) <= 0xFFFF_F000
    ensures Shape(tables[HEAP_TABLE := table], phys[HEAP_TABLE := TableAddr(e, HEAP_TABLE) + 7], e, 0)
    ensures Apart(tables[HEAP_TABLE := table])
  {
  }

  class Memory {
    const frames: array<bv32>
    var kdir: PageDir?
    var physAllocAddr: Word
    var heapIsInitialized: bool
    var heapAddr: Word

    /** The state before vm_init: e is the end of the kernel image. */
    constructor (e: Word)
      ensures fresh(frames) && frames.Length == WORDS && TakenExactly(frames[..], 0)
      ensures kdir == null && physAllocAddr == e && !heapIsInitialized && heapAddr == KHEAP_BASE
    {
      frames := new bv32[WORDS](_ => 0);
      kdir, physAllocAddr, heapIsInitialized, heapAddr := null, e, false, KHEAP_BASE;
      new;
      NothingTaken(frames[..]);
    }

    /** alloc (315-327); false when it panics. */
    method Alloc(size: Word) returns (ok: bool, base: Word)
      modifies this`heapAddr
      ensures base == old(heapAddr) && heapAddr == Add32(base, size)
      ensures ok <==> heapAddr <= KHEAP_BASE + KHEAP_SIZE
    {
      base := heapAddr;
      heapAddr := Add32(heapAddr, size);
      ok := heapAddr <= KHEAP_BASE + KHEAP_SIZE;
    }

    /** What kmalloc answers: from the heap once there is one, whatever the alignment asked for. */
    ghost function Block(size: Word, pageAlign: bool, wantPhys: bool): Allocation
      requires heapIsInitialized ==> kdir != null
      reads this, if kdir != null then {kdir} + kdir.All() else {}
    {
      if heapIsInitialized then HeapResult(heapAddr, size, wantPhys, kdir.EntryOf(heapAddr / PAGE_SIZE))
      else
        var addr := EarlyAddr(physAllocAddr, pageAlign);
        At(addr, if wantPhys then Some(addr) else None)
    }

    /** get_page (332-352): the table and the index of the entry in it; false when the table has to be made
        and kmalloc has no memory for it. */
    method GetPage(addr: Word, dir: PageDir, makeTable: bool) returns (ok: bool, table: PageTable?, offset: nat)
      requires makeTable && heapIsInitialized ==> kdir != null
      modifies this`physAllocAddr, this`heapAddr, if makeTable then {dir} else {}
      ensures offset == addr / PAGE_SIZE % ENTRIES
      ensures old(dir.tables[addr / PAGE_SIZE / ENTRIES]) != null || !makeTable ==>
        ok && table == dir.tables[addr / PAGE_SIZE / ENTRIES] && unchanged(this) && unchanged(dir)
      ensures old(dir.tables[addr / PAGE_SIZE / ENTRIES]) == null && makeTable ==>
        && (ok <==> old(Block(TABLE_SIZE, true, true)).At?)
        && physAllocAddr == (if heapIsInitialized then old(physAllocAddr)
                             else Add32(EarlyAddr(old(physAllocAddr), true), TABLE_SIZE))
        && heapAddr == (if heapIsInitialized then Add32(old(heapAddr), TABLE_SIZE) else old(heapAddr))
      ensures old(dir.tables[addr / PAGE_SIZE / ENTRIES]) == null && makeTable && ok ==>
        var block := old(Block(TABLE_SIZE, true, true));
        && table != null && fresh(table) && table.addr == block.addr
        && (forall o :: 0 <= o < ENTRIES ==> table.pages[o] == BLANK)
        && dir.tables == old(dir.tables)[addr / PAGE_SIZE / ENTRIES := table]
        && dir.tablesPhys == old(dir.tablesPhys)[addr / PAGE_SIZE / ENTRIES := block.phys.value / 8 * 8 + 7]
      decreases makeTable, 0
    {
      var index := addr / PAGE_SIZE / ENTRIES;
      offset := addr / PAGE_SIZE % ENTRIES;
      table := dir.tables[index];
      if table != null || !makeTable {
        return true, table, offset;
      }
      var r := Kmalloc(TABLE_SIZE, true, true);
      if !r.At? {
        return false, null, offset;
      }
      ok := true;
      table := new PageTable(r.addr);
      dir.tables := dir.tables[index := table];
      dir.tablesPhys := dir.tablesPhys[index := r.phys.value / 8 * 8 + 7];  // | 0x7
    }

    /** kmalloc (354-381). */
    method Kmalloc(size: Word, pageAlign: bool, wantPhys: bool) returns (r: Allocation)
      requires heapIsInitialized ==> kdir != null
      modifies this`physAllocAddr, this`heapAddr
      ensures r == old(Block(size, pageAlign, wantPhys))
      ensures heapIsInitialized && r.At? ==> r.addr == old(heapAddr)
      ensures !heapIsInitialized ==> physAllocAddr == Add32(r.addr, size) && heapAddr == old(heapAddr)
      ensures heapIsInitialized ==>
        physAllocAddr == old(physAllocAddr) && heapAddr == Add32(old(heapAddr), size)
      decreases false, 1
    {
      if heapIsInitialized {
        var ok, addr := Alloc(size);
        if !ok {
          return Panicked;
        }
        if wantPhys {
          var _, table, offset := GetPage(addr, kdir, false);
          if table == null {
            return Faulted;
          }
          return At(addr, Some(table.pages[offset].frameaddr * PAGE_SIZE + addr % PAGE_SIZE));
        }
        return At(addr, None);
      }
      if pageAlign && physAllocAddr / PAGE_SIZE != 0 {
        physAllocAddr := physAllocAddr / PAGE_SIZE * PAGE_SIZE;  // & 0xFFFFF000
        physAllocAddr := Add32(physAllocAddr, PAGE_SIZE);
      }
      var addr := physAllocAddr;
      physAllocAddr := Add32(physAllocAddr, size);
      return At(addr, if wantPhys then Some(addr) else None);
    }

    /** Calls of kmalloc one after the other, up to the one that panics, as sys_alloc_mem makes them (it passes
        no place for the physical address). The blocks are those of HeapPointer. */
    method ServeHeap(sizes: seq<Word>, aligned: seq<bool>) returns (addrs: seq<Word>)
      requires heapIsInitialized && kdir != null && heapAddr == KHEAP_BASE && |aligned| == |sizes|
      modifies this`physAllocAddr, this`heapAddr
      ensures |addrs| <= |sizes| && forall i :: 0 <= i < |addrs| ==> addrs[i] == HeapPointer(sizes, i)
      ensures forall i :: 0 < i <= |addrs| ==> HeapPointer(sizes, i) <= KHEAP_BASE + KHEAP_SIZE
      ensures |addrs| < |sizes| ==> HeapPointer(sizes, |addrs| + 1) > KHEAP_BASE + KHEAP_SIZE
    {
      addrs := [];
      while |addrs| < |sizes|
        invariant |addrs| <= |sizes| && heapAddr == HeapPointer(sizes, |addrs|)
        invariant forall i :: 0 <= i < |addrs| ==> addrs[i] == HeapPointer(sizes, i)
        invariant forall i :: 0 < i <= |addrs| ==> HeapPointer(sizes, i) <= KHEAP_BASE + KHEAP_SIZE
      {
        var r := Kmalloc(sizes[|addrs|], aligned[|addrs|], false);
        if !r.At? {
          return;
        }
        addrs := addrs + [r.addr];
      }
    }

    /** The same before there is a heap; the physical address is the address. */
    method ServeEarly(reqs: seq<Request>) returns (addrs: seq<Word>)
      requires !heapIsInitialized
      modifies this`physAllocAddr, this`heapAddr
      ensures |addrs| == |reqs| && forall i :: 0 <= i < |addrs| ==> addrs[i] == EarlyBlock(old(physAllocAddr), reqs, i)
      ensures physAllocAddr == EarlyPointer(old(physAllocAddr), reqs, |reqs|) && heapAddr == old(heapAddr)
    {
      addrs := [];
      while |addrs| < |reqs|
        invariant |addrs| <= |reqs| && physAllocAddr == EarlyPointer(old(physAllocAddr), reqs, |addrs|)
        invariant forall i :: 0 <= i < |addrs| ==> addrs[i] == EarlyBlock(old(physAllocAddr), reqs, i)
        invariant heapAddr == old(heapAddr)
      {
        var req := reqs[|addrs|];
        var r := Kmalloc(req.size, req.pageAlign, true);
        assert r == At(r.addr, Some(r.addr));
        addrs := addrs + [r.addr];
      }
    }

    /** new_frame (409-426) on entry o of a table; false when it panics. f is what find_free found. */
    method NewFrame(table: PageTable, o: nat) returns (ok: bool, ghost f: Word)
      requires frames.Length == WORDS && o < ENTRIES
      modifies frames, table`pages
      ensures ok <==> old(table.pages[o]).frameaddr != 0 || Free(old(frames[..])) != {}
      ensures ok && old(table.pages[o]).frameaddr == 0 ==>
        var was, now := old(table.pages[o]), table.pages[o];
        && now.present && now.writeable && !now.usermode && now.frameaddr == f
        && now.accessed == was.accessed && now.dirty == was.dirty && now.reserved == was.reserved
      ensures ok ==> NewFrameStep(old(frames[..]), old(table.pages[o]), f, frames[..], table.pages[o])
      ensures table.pages == old(table.pages)[o := table.pages[o]]
    {
      if table.pages[o].frameaddr != 0 {
        return true, 0;
      }
      var index := FindFree(frames);
      f := index;
      if index == NONE {
        return false, f;
      }
      assert index * PAGE_SIZE / PAGE_SIZE == index;
      SetBit(frames, index * PAGE_SIZE);
      table.pages := table.pages[o := table.pages[o].(present := true)];
      table.pages := table.pages[o := table.pages[o].(frameaddr := index)];
      table.pages := table.pages[o := table.pages[o].(writeable := true)];
      table.pages := table.pages[o := table.pages[o].(usermode := false)];
      ok := true;
    }

    // ---------------------------------------------------------- vm_init

    /** n low pages and k heap pages have their frames, no other page has one. */
    ghost predicate Filled(dir: PageDir, n: nat, k: nat)
      requires n <= NFRAMES && k <= HEAP_PAGES
      reads dir, dir.All()
    {
      forall i, o {:trigger dir.tables[i].pages[o]} :: 0 <= i < ENTRIES && dir.tables[i] != null && 0 <= o < ENTRIES ==>
        dir.tables[i].pages[o] == Planned(n, k, ENTRIES * i + o)
    }

    /** vm_init has t low tables and has mapped n low pages and k heap pages. */
    ghost predicate Ready(dir: PageDir, e: Word, t: nat, n: nat, k: nat)
      requires n <= NFRAMES && k <= HEAP_PAGES
      reads this, frames, dir, dir.All()
    {
      && frames.Length == WORDS && TakenExactly(frames[..], n + k)
      && !heapIsInitialized && physAllocAddr == (FirstPage(e) + 2 * t) * PAGE_SIZE
      && Shape(dir.tables, dir.tablesPhys, e, t) && Apart(dir.tables) && Filled(dir, n, k)
    }

    /** get_page in the loop of 442-444: page n gets its table if it needs one. */
    method LowTable(i: Word, dir: PageDir, ghost e: Word, ghost n: nat) returns (table: PageTable, o: nat)
      requires e <= 0xFFFC_0000 && n <= NFRAMES && i == n * PAGE_SIZE
      requires Ready(dir, e, Tables(n), n, 0)
      modifies this`physAllocAddr, this`heapAddr, dir
      ensures Ready(dir, e, Tables(n + 1), n, 0) && heapAddr == old(heapAddr)
      ensures table == dir.tables[n / ENTRIES] && o == n % ENTRIES
      ensures fresh(dir.All() - old(dir.All())) && frames[..] == old(frames[..])
    {
      assert i / PAGE_SIZE == n;
      TablePlaced(e, Tables(n));
      TableNeeded(n);
      ghost var t := n / ENTRIES;
      assert dir.tables[t] == null <==> !HasTable(Tables(n), t);
      var _, page, offset := GetPage(i, dir, true);
      table, o := page, offset;
      if !HasTable(Tables(n), t) {
        NextTable(old(dir.tables), old(dir.tablesPhys), e, t, table);
      }
    }

    /** One round of the loop of 442-444; false when new_frame panics. */
    method MapLowPage(i: Word, dir: PageDir, ghost e: Word, ghost n: nat) returns (ok: bool)
      requires e <= 0xFFFC_0000 && n <= NFRAMES && i == n * PAGE_SIZE
      requires Ready(dir, e, Tables(n), n, 0)
      modifies this`physAllocAddr, this`heapAddr, frames, dir, dir.All()
      ensures ok <==> n < NFRAMES
      ensures ok ==> Ready(dir, e, Tables(n + 1), n + 1, 0) && heapAddr == old(heapAddr)
      ensures ok ==> fresh(dir.All() - old(dir.All()))
    {
      var table, o := LowTable(i, dir, e, n);
      ghost var words := frames[..];
      ghost var f;
      assert table.pages[o] == Planned(n, 0, ENTRIES * (n / ENTRIES) + o);
      FullIff(words, n);
      ok, f := NewFrame(table, o);
      if ok {
        NextTaken(words, n, f);
        forall i, j | 0 <= i < ENTRIES && dir.tables[i] != null && 0 <= j < ENTRIES
          ensures dir.tables[i].pages[j] == Planned(n + 1, 0, ENTRIES * i + j)
        {
          PageIndex(i, j, n);
        }
      }
    }

    /** One round of the loop of 448-450. */
    method MapHeapPage(i: Word, dir: PageDir, ghost e: Word, ghost n: nat, ghost k: nat) returns (ok: bool)
      requires n <= NFRAMES && k < HEAP_PAGES && i == (HEAP_PAGE + k) * PAGE_SIZE
      requires Ready(dir, e, Tables(n), n, k)
      modifies this`physAllocAddr, this`heapAddr, frames, dir, dir.All()
      ensures ok <==> n + k < NFRAMES
      ensures ok ==> Ready(dir, e, Tables(n), n, k + 1) && heapAddr == old(heapAddr)
      ensures ok ==> fresh(dir.All() - old(dir.All()))
    {
      assert i / PAGE_SIZE == HEAP_PAGE + k && HEAP_PAGE / ENTRIES == HEAP_TABLE && HEAP_PAGE % ENTRIES == 0;
      assert dir.tables[HEAP_TABLE] != null;
      var _, table, o := GetPage(i, dir, true);
      assert o == k && table == dir.tables[HEAP_TABLE];
      ghost var words := frames[..];
      ghost var f;
      assert table.pages[o] == Planned(n, k, HEAP_PAGE + k);
      FullIff(words, n + k);
      ok, f := NewFrame(table, o);
      if ok {
        NextTaken(words, n + k, f);
      }
    }

    /** get_page in the loop of 437-439, for an address of the heap: it makes the heap's table once. */
    method AskHeapTable(i: Word, dir: PageDir, ghost e: Word)
      requires KHEAP_BASE <= i < KHEAP_BASE + KHEAP_SIZE && 0x1000 <= e <= 0xFFFC_0000 && !heapIsInitialized
      requires dir.tables[HEAP_TABLE] == null ==>
        && physAllocAddr == DirAddr(e) + DIR_SIZE
        && forall j :: 0 <= j < ENTRIES ==> dir.tables[j] == null && dir.tablesPhys[j] == 0
      modifies this`physAllocAddr, this`heapAddr, dir
      ensures heapAddr == old(heapAddr)
      ensures old(dir.tables[HEAP_TABLE]) != null ==> unchanged(this) && unchanged(dir)
      ensures old(dir.tables[HEAP_TABLE]) == null ==>
        && physAllocAddr == FirstPage(e) * PAGE_SIZE
        && Shape(dir.tables, dir.tablesPhys, e, 0) && Apart(dir.tables) && Filled(dir, 0, 0) && fresh(dir.All())
    {
      assert i / PAGE_SIZE / ENTRIES == HEAP_TABLE;
      HeapTablePlaced(e);
      var _, table, _ := GetPage(i, dir, true);
      if old(dir.tables[HEAP_TABLE]) == null {
        HeapTable(old(dir.tables), old(dir.tablesPhys), e, table);
      }
    }

    /** The loop of 437-439: every byte of the heap asks for the table of its page. */
    method MakeHeapTable(dir: PageDir, ghost e: Word)
      requires 0x1000 <= e <= 0xFFFC_0000
      requires frames.Length == WORDS && TakenExactly(frames[..], 0) && !heapIsInitialized
      requires physAllocAddr == DirAddr(e) + DIR_SIZE
      requires forall i :: 0 <= i < ENTRIES ==> dir.tables[i] == null && dir.tablesPhys[i] == 0
      modifies this`physAllocAddr, this`heapAddr, dir
      ensures Ready(dir, e, 0, 0, 0) && heapAddr == old(heapAddr) && fresh(dir.All())
    {
      var i := KHEAP_BASE;
      while i < KHEAP_BASE + KHEAP_SIZE
        invariant KHEAP_BASE <= i <= KHEAP_BASE + KHEAP_SIZE && heapAddr == old(heapAddr)
        invariant i == KHEAP_BASE ==> unchanged(this) && unchanged(dir)
        invariant i > KHEAP_BASE ==> Ready(dir, e, 0, 0, 0) && fresh(dir.All())
      {
        AskHeapTable(i, dir, e);
        i := i + 1;
      }
    }

    /** The loop of 442-444; false when new_frame panics. Its bound moves whenever get_page makes a table. */
    method MapLow(dir: PageDir, ghost e: Word) returns (ok: bool)
      requires e <= 0xFFFC_0000
      requires Ready(dir, e, 0, 0, 0)
      modifies this`physAllocAddr, this`heapAddr, frames, dir, dir.All()
      ensures LowPages(e) <= NFRAMES ==> ok
      ensures ok ==> LowPages(e) <= NFRAMES && Ready(dir, e, LowTables(e), LowPages(e), 0) && heapAddr == old(heapAddr)
      ensures ok ==> fresh(dir.All() - old(dir.All()))
    {
      hide TakenExactly;
      hide Apart;
      hide Shape;
      var i := 0;
      ghost var n := 0;
      while i < Add32(physAllocAddr, 0x10000)
        invariant n <= LowPages(e) && n <= NFRAMES && i == n * PAGE_SIZE
        invariant Ready(dir, e, Tables(n), n, 0) && heapAddr == old(heapAddr) && fresh(dir.All() - old(dir.All()))
        decreases LowPages(e) - n
      {
        GuardIff(e, n);
        ok := MapLowPage(i, dir, e, n);
        if !ok {
          return;
        }
        i := Add32(i, PAGE_SIZE);
        n := n + 1;
      }
      GuardIff(e, n);
      LowTablesServe(e);
      ok := true;
    }

    /** The loop of 448-450; false when new_frame panics. */
    method MapHeap(dir: PageDir, ghost e: Word, ghost n: nat) returns (ok: bool)
      requires n <= NFRAMES
      requires Ready(dir, e, Tables(n), n, 0)
      modifies this`physAllocAddr, this`heapAddr, frames, dir, dir.All()
      ensures ok <==> n + HEAP_PAGES <= NFRAMES
      ensures ok ==> Ready(dir, e, Tables(n), n, HEAP_PAGES) && heapAddr == old(heapAddr)
      ensures ok ==> fresh(dir.All() - old(dir.All()))
    {
      hide TakenExactly;
      hide Apart;
      hide Shape;
      var i := KHEAP_BASE;
      ghost var k := 0;
      while i < KHEAP_BASE + KHEAP_SIZE
        invariant k <= HEAP_PAGES && i == (HEAP_PAGE + k) * PAGE_SIZE && (k > 0 ==> n + k <= NFRAMES)
        invariant Ready(dir, e, Tables(n), n, k) && heapAddr == old(heapAddr) && fresh(dir.All() - old(dir.All()))
      {
        ok := MapHeapPage(i, dir, e, n, k);
        if !ok {
          return;
        }
        i := i + PAGE_SIZE;
        k := k + 1;
      }
      ok := true;
    }

    /** What vm_init leaves behind. */
    ghost predicate Built(e: Word)
      requires LowPages(e) <= NFRAMES
      reads this, frames, if kdir != null then {kdir} + kdir.All() else {}
    {
      && kdir != null && kdir.addr == DirAddr(e)
      && Shape(kdir.tables, kdir.tablesPhys, e, LowTables(e)) && Apart(kdir.tables)
      && (forall i, o {:trigger kdir.tables[i].pages[o]} ::
           0 <= i < ENTRIES && kdir.tables[i] != null && 0 <= o < ENTRIES ==>
             kdir.tables[i].pages[o] == Final(e, ENTRIES * i + o))
      && frames.Length == WORDS && TakenExactly(frames[..], LowPages(e) + HEAP_PAGES)
      && physAllocAddr == (LowPages(e) - HEAP_PAGES) * PAGE_SIZE && heapIsInitialized
    }

    /** The page tables vm_init leaves behind answer get_page as planned. */
    lemma BuiltEntry(e: Word, p: nat)
      requires LowPages(e) <= NFRAMES && Built(e) && p < ALL_PAGES
      ensures kdir.EntryOf(p) == FoundEntry(e, p)
      ensures 0 < p < LowPages(e) ==> kdir.EntryOf(p) == Some(PageEntry(true, true, false, false, false, 0, p))
      ensures InHeap(p * PAGE_SIZE) ==>
        kdir.EntryOf(p) == Some(PageEntry(true, true, false, false, false, 0, LowPages(e) + p - HEAP_PAGE))
    {
      EntryFields(e, p);
    }

    /** So kmalloc reports, for a block of the heap, the address that the page tables translate it to. */
    lemma ReportsTranslation(e: Word, h: Word, size: Word)
      requires LowPages(e) <= NFRAMES && Built(e) && InHeap(h) && h + size <= KHEAP_BASE + KHEAP_SIZE
      ensures HeapResult(h, size, true, kdir.EntryOf(h / PAGE_SIZE)) == At(h, Translate(e, h))
      ensures Translate(e, h) == Some(LowPages(e) * PAGE_SIZE + (h - KHEAP_BASE))
    {
    }

    /** vm_init (428-465), for an image that ends at e; false when new_frame panics. */
    method VmInit(ghost e: Word) returns (ok: bool)
      requires 0x1000 <= e <= 0xFFFC_0000 && physAllocAddr == e
      requires frames.Length == WORDS && TakenExactly(frames[..], 0) && !heapIsInitialized
      modifies this, frames
      ensures ok <==> e / PAGE_SIZE <= 16315
      ensures ok ==> LowPages(e) <= NFRAMES && Built(e) && heapAddr == old(heapAddr)
    {
      hide TakenExactly;
      hide Apart;
      hide Shape;
      hide Built;
      EnoughFramesIff(e);
      LowTablesServe(e);
      var r := Kmalloc(DIR_SIZE, true, false);
      var dir := new PageDir(r.addr);
      kdir := dir;
      MakeHeapTable(dir, e);
      ok := MapLow(dir, e);
      if !ok {
        return;
      }
      ok := MapHeap(dir, e, LowPages(e));
      if ok {
        Finish(dir, e);
      }
    }

    /** Page 0 loses its frame, and the heap serves from now on (core-c.c:453, 464). */
    method Finish(dir: PageDir, ghost e: Word)
      requires 0x1000 <= e <= 0xFFFC_0000 && LowPages(e) <= NFRAMES && kdir == dir && dir.addr == DirAddr(e)
      requires Ready(dir, e, LowTables(e), LowPages(e), HEAP_PAGES)
      modifies this`heapIsInitialized, dir.All()
      ensures Built(e)
    {
      hide TakenExactly;
      LowTablesServe(e);
      var table := dir.tables[0];
      table.pages := table.pages[0 := BLANK];
      heapIsInitialized := true;
    }
  }
}
