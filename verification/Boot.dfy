/** The boot loader's configuration object: a downward page allocator, the ownership tracker and
    the translation tables, all living in the same array of RAM words. */
module Boot {
  import opened Arith
  import opened Layout
  import opened Armv7
  import opened PageTables
  import opened Tracker
  import opened RamPages

  /** A loader routine either returns or panics; a panic ends the boot. */
  datatype Outcome = Done | Panicked {
    predicate IsFailure() { Panicked? }
    function PropagateFailure(): Outcome requires Panicked? { Panicked }
  }

  /** The pages from `image` on and those below `top` are the same, but for the tracker's. */
  ghost predicate Kept(m: Ram, m': Ram, image: int, top: int, tracker: int, n: int) {
    forall p: PageIndex {:trigger Page(m', p)} :: (image <= p || p < top) && !(tracker <= p < tracker + n) ==>
        Page(m', p) == Page(m, p)
  }

  /** Only the tracker's pages and pages that are tables now have changed. */
  ghost predicate TablesOnly(m: Ram, m': Ram, l1: PageIndex, l2: map<int, PageIndex>, tracker: int, n: int) {
    forall p: PageIndex {:trigger Page(m', p)} :: !IsTablePage(l1, l2, p) && !(tracker <= p < tracker + n) ==>
      Page(m', p) == Page(m, p)
  }

  lemma TablesOnlyThen(m0: Ram, m1: Ram, m2: Ram, l1: PageIndex, b: map<int, PageIndex>, tb: int,
                       c: map<int, PageIndex>, tc: int, tracker: int, n: int)
    requires TablesOnly(m0, m1, l1, b, tracker, n) && TablesOnly(m1, m2, l1, c, tracker, n) && Grown(b, tb, c, tc)
    ensures TablesOnly(m0, m2, l1, c, tracker, n)
  {
    hide Page;
    forall p: PageIndex | !IsTablePage(l1, c, p) && !(tracker <= p < tracker + n)
      ensures Page(m2, p) == Page(m0, p)
    {
      assert !IsTablePage(l1, b, p);
    }
  }

  lemma KeptThen(m0: Ram, m1: Ram, m2: Ram, image: int, top1: int, top2: int, tracker: int, n: int)
    requires Kept(m0, m1, image, top1, tracker, n) && Kept(m1, m2, image, top2, tracker, n) && top2 <= top1
    ensures Kept(m0, m2, image, top2, tracker, n)
  {
    hide Page;
  }

  class BootConfig {
    const ram: array<Word>
    /** Memory regions other than DRAM. */
    const regions: seq<Range>

    var extraPages: nat
    var rptSizeBytes: nat
    /** The tracker slice: address of its first byte, and its length. */
    var trackerBase: Word
    var trackerLen: nat
    var ttbr0: Word
    var entrypoint: Word
    var sp: Word

    /** Size of the tracker in pages, and the entries it marks. */
    ghost var rptPages: nat
    ghost var owned: set<int>
    /** First page of the first-level table, second-level pages by group, and the map they encode. */
    ghost var l1: PageIndex
    ghost var l2: map<int, PageIndex>
    ghost var pages: PageMap
    ghost var sections: SectionMap

    /** The configuration before anything is allocated: only the splash image is set aside. */
    constructor (ram: array<Word>, regions: seq<Range>)
      ensures this.ram == ram && this.regions == regions
      ensures extraPages == BOOT_SPLASH_PAGES && rptSizeBytes == 0 && trackerLen == 0 && rptPages == 0
      ensures owned == {} && l2 == map[] && pages == map[] && sections == map[]
    {
      // the splash image ends where RAM ends, as the source asserts when it is compiled
      ConstantsAgree();
      this.ram, this.regions := ram, regions;
      extraPages, rptSizeBytes, trackerBase, trackerLen := BOOT_SPLASH_PAGES, 0, 0, 0;
      ttbr0, entrypoint, sp := 0, 0, 0;
      rptPages, owned, l1, l2, pages, sections := 0, {}, 0, map[], map[], map[];
    }

    ghost function Mem(): Ram
      reads this, ram
      requires ram.Length == RAM_WORDS
    {
      ram[..]
    }

    /** Index of the lowest page handed out so far. */
    ghost function TopPage(): int
      reads this
    {
      RAM_PAGES - rptPages - extraPages
    }

    ghost function TrackerPage(): int
      reads this
    {
      RAM_PAGES - BOOT_SPLASH_PAGES - rptPages
    }

    ghost predicate InTracker(p: int)
      reads this
    {
      TrackerPage() <= p < TrackerPage() + rptPages
    }

    /** The allocator and the tracker are set up and agree with RAM. */
    ghost predicate Ready()
      reads this, ram
    {
      && ram.Length == RAM_WORDS
      && (forall r :: r in regions ==> WholePages(r))
      && rptSizeBytes == rptPages * PAGE_SIZE
      && BOOT_SPLASH_PAGES <= extraPages && 0 <= TopPage()
      && trackerBase == ENCRYPTED_DRAM_BASE + TrackerPage() * PAGE_SIZE
      && RAM_PAGES + RegionPages(regions) <= trackerLen <= rptSizeBytes
      && Tracks(Mem(), TrackerPage(), rptPages, trackerLen, owned)
    }

    /** A first-level table is installed, lies between the allocator's top and the tracker with all
        second-level tables below it, and RAM holds the abstract map. */
    ghost predicate Mapping()
      reads this, ram
    {
      && Ready()
      && ttbr0 == AddrOf(l1)
      && l1 + 4 <= TrackerPage()
      && (forall g :: g in l2 ==> TopPage() <= l2[g])
      && 0 < TopPage() <= l1
      && Tables(Mem(), l1, l2, pages, sections)
    }

    /** What is left of free memory once every group of a set has its tables. */
    ghost function Spare(gs: set<int>): int
      reads this
    {
      TopPage() - Missing(gs, l2)
    }

    /** The translation tables survive writes to the tracker and to pages below all tables. */
    lemma TablesKept(m: Ram, from: int, to: int)
      requires Ready() && l1 + 4 <= TrackerPage()
      requires Keeps(m, from, to) && Tables(m, l1, l2, pages, sections)
      requires to <= l1 && forall g :: g in l2 ==> to <= l2[g]
      ensures Tables(Mem(), l1, l2, pages, sections)
    {
      forall p: PageIndex | IsTablePage(l1, l2, p)
        ensures Page(Mem(), p) == Page(m, p)
      {
        if !(l1 <= p < l1 + 4) {
          var g :| g in l2 && l2[g] == p;
        }
      }
      TablesFrame(m, Mem(), l1, l2, pages, sections);
    }

    function GetTop(): int
      reads this
    {
      ENCRYPTED_DRAM_END - rptSizeBytes - extraPages * PAGE_SIZE
    }

    /** RAM differs from `m` at most in the tracker and in pages `from <= p < to`. */
    ghost predicate Keeps(m: Ram, from: int, to: int)
      reads this, ram
      requires ram.Length == RAM_WORDS
    {
      forall p: PageIndex {:trigger Page(Mem(), p)} :: !(from <= p < to) && !InTracker(p) ==>
          Page(Mem(), p) == Page(m, p)
    }

    // ---- primitive writes ----

    /** Clear words from one pointer up to another. */
    method Bzero(start: int, end: int)
      requires ram.Length == RAM_WORDS
      requires ENCRYPTED_DRAM_BASE <= start <= end <= ENCRYPTED_DRAM_END && start % 4 == 0 && end % 4 == 0
      modifies ram
      ensures Mem() == Cleared(old(Mem()), (start - ENCRYPTED_DRAM_BASE) / 4, (end - ENCRYPTED_DRAM_BASE) / 4)
    {
      var p := start;
      ghost var a, b := (start - ENCRYPTED_DRAM_BASE) / 4, (end - ENCRYPTED_DRAM_BASE) / 4;
      while p < end
        invariant start <= p <= end && p % 4 == 0
        invariant forall w :: a <= w < (p - ENCRYPTED_DRAM_BASE) / 4 ==> ram[w] == 0
        invariant forall w :: 0 <= w < RAM_WORDS && !(a <= w < (p - ENCRYPTED_DRAM_BASE) / 4) ==> ram[w] == old(ram[w])
      {
        ram[(p - ENCRYPTED_DRAM_BASE) / 4] := 0;
        p := p + 4;
      }
      assert Mem() == Cleared(old(Mem()), a, b);
    }

    /** Copy `count / 4` words; the source may be given in either view of DRAM. */
    method Memcpy(dest: Word, src: Word, count: nat)
      requires ram.Length == RAM_WORDS && dest % 4 == 0 && src % 4 == 0
      requires InEncrypted(DramView(src)) && InEncrypted(dest)
      requires DramView(src) + count / 4 * 4 <= dest && dest + count / 4 * 4 <= ENCRYPTED_DRAM_END
      modifies ram
      ensures Mem() == Copied(old(Mem()), WordIndex(dest), WordIndex(DramView(src)), count / 4)
    {
      hide Copied;
      var from := if InPlaintext(src) then ToEncrypted(src) else src;
      var s, d, n := (from - ENCRYPTED_DRAM_BASE) / 4, (dest - ENCRYPTED_DRAM_BASE) / 4, count / 4;
      var k := 0;
      while k < n
        invariant 0 <= k <= n
        invariant forall w :: d <= w < d + k ==> ram[w] == old(Mem())[w - d + s]
        invariant forall w :: 0 <= w < RAM_WORDS && !(d <= w < d + k) ==> ram[w] == old(ram[w])
      {
        ram[d + k] := ram[s + k];
        k := k + 1;
      }
      CopiedIs(old(Mem()), Mem(), d, s, n);
    }

    /** `runtime_page_tracker[i] = 1`, with the bounds check of the slice. */
    method SetTracker(i: nat) returns (r: Outcome)
      requires Ready()
      modifies ram, this`owned
      ensures r.Done? <==> i < trackerLen
      ensures r.Done? ==> Ready() && owned == old(owned) + {i}
      ensures r.Done? ==> Keeps(old(Mem()), 0, 0)
    {
      if i >= trackerLen {
        return Panicked;
      }
      var addr := trackerBase + i;
      TrackerCell(Mem(), TrackerPage(), i);
      SetEntryTracks(Mem(), TrackerPage(), rptPages, trackerLen, owned, i);
      var w := (addr - ENCRYPTED_DRAM_BASE) / 4;
      ram[w] := SetByte(ram[w], addr % 4, 1);
      assert Mem() == SetEntry(old(Mem()), TrackerPage(), i);
      owned := owned + {i};
      return Done;
    }

    // ---- allocation and ownership ----

    /** Zero-alloc a new page just below the ones handed out so far and mark it as owned. */
    method Alloc() returns (r: Outcome, page: Word)
      requires Ready()
      modifies ram, this`extraPages, this`owned
      ensures r.Done? <==> old(TopPage()) > 1
      ensures r.Done? ==> Ready() && TopPage() == old(TopPage()) - 1 && page == AddrOf(TopPage())
      ensures r.Done? ==> ZeroPage(Mem(), TopPage()) && owned == old(owned) + {TopPage()}
      ensures r.Done? ==> Keeps(old(Mem()), TopPage(), TopPage() + 1)
    {
      extraPages := extraPages + 1;
      Euclid(rptSizeBytes, PAGE_SIZE, rptPages, 0);
      if !(extraPages < RAM_PAGES - rptSizeBytes / PAGE_SIZE) {
        return Panicked, 0;
      }
      page := ClearTop();
      r := SetTracker(RAM_PAGES - extraPages - rptSizeBytes / PAGE_SIZE);
    }

    /** Zero the page at the top pointer and return its address. */
    method ClearTop() returns (pg: Word)
      requires Ready() && TopPage() < TrackerPage()
      modifies ram
      ensures Ready() && pg == AddrOf(TopPage()) && ZeroPage(Mem(), TopPage())
      ensures Keeps(old(Mem()), TopPage(), TopPage() + 1)
    {
      ghost var top := TopPage();
      TopAddress(rptPages, extraPages);
      pg := GetTop();
      Bzero(pg, pg + PAGE_SIZE);
      assert Mem() == Cleared(old(Mem()), top * PAGE_WORDS, (top + 1) * PAGE_WORDS);
      ClearedPage(old(Mem()), top);
      TracksFrame(old(Mem()), Mem(), TrackerPage(), rptPages, trackerLen, owned);
    }

    /** Mark the page of a physical address as owned, whichever view or region it lies in. */
    method MarkAsOwned(phys: Word) returns (r: Outcome)
      requires Ready()
      modifies ram, this`owned
      ensures r.Done? <==> EntryOf(regions, phys).Some?
      ensures r.Done? ==> Ready() && owned == old(owned) + {EntryOf(regions, phys).value}
      ensures r.Done? ==> Keeps(old(Mem()), 0, 0)
    {
      if EntryOf(regions, phys).Some? {
        EntryInBounds(regions, phys);
      }
      var addr := if InPlaintext(phys) then ToEncrypted(phys) else phys;
      if ENCRYPTED_DRAM_BASE <= addr < ENCRYPTED_DRAM_END {
        r := SetTracker((addr - ENCRYPTED_DRAM_BASE) / PAGE_SIZE);
        return;
      }
      var rptOffset := RAM_PAGES;
      var k := 0;
      while k < |regions|
        invariant 0 <= k <= |regions|
        invariant rptOffset == RAM_PAGES + RegionPages(regions[..k])
        invariant FindRegion(regions, addr, 0) == FindRegion(regions, addr, k)
      {
        var range := regions[k];
        var rlen := range.end - range.start;
        if range.start <= addr < range.end {
          r := SetTracker(rptOffset + (addr - range.start) / PAGE_SIZE);
          return;
        }
        assert regions[..k + 1][..k] == regions[..k] && WholePages(range);
        rptOffset := rptOffset + rlen / PAGE_SIZE;
        k := k + 1;
      }
      return Panicked;
    }

    /** Allocate a page and mark it a second time through its address, as the table allocators do. */
    method AllocMarked() returns (r: Outcome, page: Word)
      requires Ready()
      modifies ram, this`extraPages, this`owned
      ensures r.Done? <==> old(TopPage()) > 1
      ensures r.Done? ==> Ready() && TopPage() == old(TopPage()) - 1 && page == AddrOf(TopPage())
      ensures r.Done? ==> ZeroPage(Mem(), TopPage()) && owned == old(owned) + {TopPage()}
      ensures r.Done? ==> Keeps(old(Mem()), TopPage(), TopPage() + 1)
    {
      page :- Alloc();
      OwnEntry(regions, TopPage());
      r := MarkAsOwned(page);
    }

    /** `n` further pages, one below the other; the address of the last one. */
    method AllocRun(n: nat) returns (r: Outcome, page: Word)
      requires Ready()
      modifies ram, this`extraPages, this`owned
      ensures r.Done? <==> old(TopPage()) > n || n == 0
      ensures r.Done? ==> Ready() && TopPage() == old(TopPage()) - n && (n > 0 ==> page == AddrOf(TopPage()))
      ensures r.Done? ==> owned == old(owned) + PageSpan(TopPage(), old(TopPage()))
      ensures r.Done? ==> ZeroPages(Mem(), TopPage(), old(TopPage()))
      ensures r.Done? ==> Keeps(old(Mem()), TopPage(), old(TopPage()))
    {
      var k := 0;
      page := 0;
      ghost var start := TopPage();
      while k < n
        invariant 0 <= k <= n
        invariant Ready() && TopPage() == start - k && start <= TrackerPage()
        invariant k > 0 ==> page == AddrOf(TopPage())
        invariant k > 0 ==> TopPage() > 0
        invariant owned == old(owned) + PageSpan(TopPage(), start)
        invariant ZeroPages(Mem(), TopPage(), start)
        invariant Keeps(old(Mem()), TopPage(), start)
      {
        ghost var before := Mem();
        page :- AllocMarked();
        ZeroPagesJoin(before, Mem(), TopPage(), TopPage() + 1, start);
        k := k + 1;
      }
      return Done, page;
    }

    /** An aligned page is the table's first if it was the fourth; otherwise the pages below it are still
        missing. */
    method FinishL1(dummy: Word, numAllocPages: nat, ghost start: int) returns (r: Outcome, page: Word)
      requires Ready() && 0 < numAllocPages <= 4 && TopPage() == start - numAllocPages && start <= TrackerPage()
      requires TopPage() % 4 == 0 && dummy == AddrOf(TopPage()) && ZeroPages(Mem(), TopPage(), start)
      modifies ram, this`extraPages, this`owned
      ensures r.Done? <==> numAllocPages == 4 || old(TopPage()) > 4
      ensures r.Done? ==> Ready() && page == AddrOf(TopPage()) && page % 0x4000 == 0
      ensures r.Done? ==> TopPage() == old(TopPage()) - if numAllocPages == 4 then 0 else 4
      ensures r.Done? ==> owned == old(owned) + PageSpan(TopPage(), old(TopPage()))
      ensures r.Done? ==> ZeroPages(Mem(), TopPage(), start)
      ensures r.Done? ==> Keeps(old(Mem()), TopPage(), old(TopPage()))
    {
      hide Tracks, RegionPages, WholePages, Page;
      page := dummy;
      Aligned(TopPage());
      if numAllocPages != 4 {
        ghost var before, top := Mem(), TopPage();
        page :- AllocRun(4);
        ZeroPagesJoin(before, Mem(), TopPage(), top, start);
        Aligned(TopPage());
      }
      return Done, page;
    }

    /** Four consecutive pages for a first-level table, aligned to 16 KiB. The loop runs until an
        aligned page turns up, which takes at most four tries. */
    method AllocL1PageTable() returns (r: Outcome, page: Word)
      requires Ready()
      modifies ram, this`extraPages, this`owned
      ensures r.Done? ==> Ready() && page == AddrOf(TopPage()) && page % 0x4000 == 0
      ensures r.Done? ==> TopPage() == old(TopPage()) - 4 - old(TopPage()) % 4
      ensures r.Done? ==> owned == old(owned) + PageSpan(TopPage(), old(TopPage()))
      ensures r.Done? ==> ZeroPages(Mem(), TopPage(), old(TopPage()))
      ensures r.Done? ==> Keeps(old(Mem()), TopPage(), old(TopPage()))
      ensures r.Done? <==> old(TopPage()) > 4 + old(TopPage()) % 4
    {
      hide Tracks, RegionPages, WholePages, Page;
      page := 0;
      var numAllocPages := 0;
      ghost var start := TopPage();
      while numAllocPages < 4
        invariant 0 <= numAllocPages <= 4
        invariant Ready() && TopPage() == start - numAllocPages && start <= TrackerPage()
        invariant forall p :: TopPage() <= p < start ==> p % 4 != 0
        invariant owned == old(owned) + PageSpan(TopPage(), start)
        invariant ZeroPages(Mem(), TopPage(), start)
        invariant Keeps(old(Mem()), TopPage(), start)
        decreases 4 - numAllocPages
      {
        ghost var before := Mem();
        page :- AllocMarked();
        ZeroPagesJoin(before, Mem(), TopPage(), TopPage() + 1, start);
        numAllocPages := numAllocPages + 1;
        Aligned(TopPage());
        if page % 0x4000 == 0 {
          r, page := FinishL1(page, numAllocPages, start);
          return;
        }
      }
      OneOfFourAligned(TopPage());
      assert false;
    }

    // ---- translation tables ----

    /** Store a word through a pointer into DRAM; `p` and `j` say which word of which page it is. */
    method Write(addr: Word, v: Word, ghost p: PageIndex, ghost j: nat)
      requires ram.Length == RAM_WORDS && j < PAGE_WORDS && addr == AddrOf(p) + 4 * j
      modifies ram
      ensures Mem() == Store(old(Mem()), p, j, v)
    {
      Euclid(addr - ENCRYPTED_DRAM_BASE, 4, p * PAGE_WORDS + j, 0);
      ram[(addr - ENCRYPTED_DRAM_BASE) / 4] := v;
    }

    /** Load a word through a pointer into DRAM. */
    method Read(addr: Word) returns (v: Word)
      requires ram.Length == RAM_WORDS && InEncrypted(addr)
      ensures v == Load(Mem(), addr)
    {
      v := ram[(addr - ENCRYPTED_DRAM_BASE) / 4];
    }

    /** Write the four descriptors of a group, one per quarter of its page of second-level tables. */
    method WriteGroup(groupBase: nat, na: Word, ghost g: nat, ghost p: PageIndex)
      requires ram.Length == RAM_WORDS && ttbr0 == AddrOf(l1) && l1 + 4 <= RAM_PAGES
      requires g < 1024 && groupBase == 4 * g && na == AddrOf(p)
      modifies ram
      ensures Mem() == GroupStore(old(Mem()), l1, g, p, 4)
    {
      var k := 0;
      while k < 4
        invariant 0 <= k <= 4
        invariant Mem() == GroupStore(old(Mem()), l1, g, p, k)
      {
        var i := groupBase + k;
        EntryAddress(l1, i);
        Write(ttbr0 + 4 * i, PageTableDescriptor(na + k * 0x400), l1 + i / PAGE_WORDS, i % PAGE_WORDS);
        k := k + 1;
      }
    }

    /** Install a zeroed page as the second-level tables of a group that has none. */
    method FillGroup(groupBase: nat, na: Word, ghost g: nat, ghost p: PageIndex)
      requires Ready() && ttbr0 == AddrOf(l1) && l1 + 4 <= TrackerPage()
      requires Tables(Mem(), l1, l2, pages, sections)
      requires g < 1024 && groupBase == 4 * g && na == AddrOf(p)
      requires g !in l2 && (forall i :: i in sections ==> i / 4 != g)
      requires p < l1 && (forall h :: h in l2 ==> l2[h] != p) && ZeroPage(Mem(), p)
      modifies ram, this`l2
      ensures Ready() && l2 == old(l2)[g := p] && Tables(Mem(), l1, l2, pages, sections)
      ensures Keeps(old(Mem()), l1, l1 + 4)
    {
      WriteGroup(groupBase, na, g, p);
      TablesAddGroup(old(Mem()), l1, l2, pages, sections, g, p);
      GroupStoreEntries(old(Mem()), l1, g, p, 4);
      TracksFrame(old(Mem()), Mem(), TrackerPage(), rptPages, trackerLen, owned);
      l2 := l2[g := p];
    }

    /** Back the aligned group of four first-level entries that contains `vpn1` with one fresh page
        holding their four second-level tables. */
    method AddGroup(vpn1: nat) returns (r: Outcome)
      requires Mapping() && vpn1 < 4096 && vpn1 / 4 !in l2
      requires forall i :: i in sections ==> i / 4 != vpn1 / 4
      modifies ram, this`extraPages, this`owned, this`l2
      ensures r.Done? <==> old(TopPage()) > 1
      ensures r.Done? ==> Mapping() && TopPage() == old(TopPage()) - 1
      ensures r.Done? ==> l2 == old(l2)[vpn1 / 4 := TopPage()] && owned == old(owned) + {TopPage()}
      ensures r.Done? ==> OnlyTables(old(Mem()))
    {
      var na :- AllocMarked();
      ghost var top, g := TopPage(), vpn1 / 4;
      TablesKept(old(Mem()), top, top + 1);
      FillGroup(vpn1 - vpn1 % 4, na, g, top);
      assert IsTablePage(l1, l2, l2[g]);
      return Done;
    }

    /** Allocate a page while tables are installed; they are not affected. */
    method AllocMapped() returns (r: Outcome, page: Word)
      requires Mapping()
      modifies ram, this`extraPages, this`owned
      ensures r.Done? <==> old(TopPage()) > 1
      ensures r.Done? ==> Mapping() && TopPage() == old(TopPage()) - 1 && page == AddrOf(TopPage())
      ensures r.Done? ==> ZeroPage(Mem(), TopPage()) && owned == old(owned) + {TopPage()}
      ensures r.Done? ==> Keeps(old(Mem()), TopPage(), TopPage() + 1)
    {
      page :- Alloc();
      TablesKept(old(Mem()), TopPage(), TopPage() + 1);
      r := Done;
    }

    /** Mark a page as owned; the translation tables are not affected. */
    method MarkMapped(phys: Word) returns (r: Outcome)
      requires Mapping()
      modifies ram, this`owned
      ensures r.Done? <==> EntryOf(regions, phys).Some?
      ensures r.Done? ==> Mapping() && owned == old(owned) + {EntryOf(regions, phys).value}
      ensures r.Done? ==> Keeps(old(Mem()), 0, 0)
    {
      r := MarkAsOwned(phys);
      if r.Done? {
        TablesKept(old(Mem()), 0, 0);
      }
    }

    /** Address of the second-level entry of `virt`, found through its first-level entry. */
    method FindEntry2(virt: Word) returns (addr: Word)
      requires Mapping() && virt / 0x10_0000 / 4 in l2
      ensures addr == AddrOf(l2[virt / 0x10_0000 / 4]) + 4 * (virt / 0x1000 % PAGE_WORDS)
    {
      hide DecodeL1, DecodeL2, Tracks, RegionPages, WholePages;
      FirstLookup(Mem(), l1, l2, pages, sections, virt);
      var vpn1, vpn2 := virt / 0x10_0000, virt % 0x10_0000 / 0x1000;
      var entry := Read(ttbr0 + 4 * vpn1);
      addr := entry - entry % 0x400 + 4 * vpn2;
    }

    /** Replace a second-level entry, and with it the translation of its virtual page. */
    method StoreEntry2(addr: Word, e: Word, ghost g: int, ghost q: nat, ghost pages': PageMap)
      requires Mapping() && g in l2 && q < PAGE_WORDS && addr == AddrOf(l2[g]) + 4 * q
      requires DecodeL2(e) == L2Spec(pages', g * PAGE_WORDS + q)
      requires forall v :: v != g * PAGE_WORDS + q ==> L2Spec(pages', v) == L2Spec(pages, v)
      modifies ram, this`pages
      ensures Mapping() && pages == pages' && Keeps(old(Mem()), l2[g], l2[g] + 1)
    {
      TablesSetPage(Mem(), l1, l2, pages, sections, g, q, e, pages');
      StorePages(Mem(), l2[g], q, e);
      Write(addr, e, l2[g], q);
      TracksFrame(old(Mem()), Mem(), TrackerPage(), rptPages, trackerLen, owned);
      pages := pages';
    }

    /** Fill the second-level entry of `virt`, whose group has tables, unless it is already taken. */
    method SetEntry2(p: Word, virt: Word, f: Flags) returns (r: Outcome)
      requires Mapping() && virt / 0x10_0000 / 4 in l2 && p % 0x1000 == 0
      modifies ram, this`pages
      ensures r.Done? <==> virt / 0x1000 !in old(pages)
      ensures r.Done? ==> Mapping() && pages == WithPage(old(pages), p / 0x1000, virt / 0x1000, f)
      ensures r.Done? ==> Keeps(old(Mem()), l2[virt / 0x10_0000 / 4], l2[virt / 0x10_0000 / 4] + 1)
    {
      hide DecodeL1, DecodeL2, SmallPageBits, Tracks, Tables, RegionPages, WholePages;
      ghost var g, q := virt / 0x10_0000 / 4, virt / 0x1000 % PAGE_WORDS;
      var addr := FindEntry2(virt);
      SecondLookup(Mem(), l1, l2, pages, sections, virt);
      var existing := Read(addr);
      if existing % 4 != 0 {
        return Panicked;
      }
      var isGlobal := virt / 0x10_0000 >= L1_USER_PAGE_TABLE_ENTRIES;
      EntryFits(pages, p, virt, f, isGlobal);
      StoreEntry2(addr, p + SmallPageBits(f, isGlobal), g, q, WithPage(pages, p / 0x1000, virt / 0x1000, f));
      return Done;
    }

    /** Allocate second-level tables for the group of `vpn1` if its entry is invalid. */
    method EnsureTables(vpn1: nat) returns (r: Outcome)
      requires Mapping() && vpn1 < 4096
      requires vpn1 !in sections ==> forall i :: i in sections ==> i / 4 != vpn1 / 4
      modifies ram, this`extraPages, this`owned, this`l2
      ensures r.Done? <==> vpn1 in sections || vpn1 / 4 in old(l2) || old(TopPage()) > 1
      ensures r.Done? ==> Mapping() && (vpn1 / 4 in l2 <==> vpn1 !in sections)
      ensures r.Done? ==> forall g :: g in l2 ==> g in old(l2) || g == vpn1 / 4
      ensures r.Done? ==> owned == old(owned) + PageSpan(TopPage(), old(TopPage()))
      ensures r.Done? ==> GrownTables(old(l2), old(TopPage()))
      ensures r.Done? && vpn1 !in sections ==> OneGroup(old(l2), old(TopPage()), vpn1 / 4)
      ensures r.Done? ==> OnlyTables(old(Mem()))
    {
      hide Tables, DecodeL1, Tracks, RegionPages, WholePages, Page;
      FirstIsTable(Mem(), l1, l2, pages, sections, vpn1);
      var first := Read(ttbr0 + 4 * vpn1);
      if first % 4 == 0 {
        // previously unmapped first-level entry
        r := AddGroup(vpn1);
        if r.Done? {
          FirstIsTable(Mem(), l1, l2, pages, sections, vpn1);
        }
      } else {
        r := Done;
      }
    }

    /** Map a page whose first-level entry is in place; anything but a page table there is refused. */
    method MapInGroup(p: Word, virt: Word, f: Flags) returns (r: Outcome)
      requires Mapping() && p % 0x1000 == 0
      modifies ram, this`pages
      ensures r.Done? <==> virt / 0x10_0000 / 4 in l2 && virt / 0x1000 !in old(pages)
      ensures r.Done? ==> Mapping() && pages == WithPage(old(pages), p / 0x1000, virt / 0x1000, f)
      ensures r.Done? ==> OnlyTables(old(Mem()))
    {
      hide Tables, DecodeL1, Tracks, RegionPages, WholePages, EntryOf, Page, WithPage;
      var vpn1 := virt / 0x10_0000;
      FirstIsTable(Mem(), l1, l2, pages, sections, vpn1);
      var existing := Read(ttbr0 + 4 * vpn1);
      if existing % 4 != 1 {
        return Panicked;
      }
      assert IsTablePage(l1, l2, l2[vpn1 / 4]);
      r := SetEntry2(p, virt, f);
    }

    /** Map one page. It is a single insertion into the abstract map, although a page may be
        allocated and four first-level entries written on the way. */
    method MapPage(phys: Word, virt: Word, f: Flags) returns (r: Outcome)
      requires Mapping()
      requires virt / 0x10_0000 !in sections ==> forall i :: i in sections ==> i / 4 != virt / 0x10_0000 / 4
      modifies ram, this`extraPages, this`owned, this`l2, this`pages
      ensures r.Done? <==>
              && !(f.x && f.w) && EntryOf(regions, phys).Some?
              && virt / 0x10_0000 !in sections && virt / 0x1000 !in old(pages)
              && (virt / 0x10_0000 / 4 in old(l2) || old(TopPage()) > 1)
      ensures r.Done? ==> Mapping() && pages == WithPage(old(pages), phys / 0x1000, virt / 0x1000, f)
      ensures r.Done? && f.valid && old(Tight(l2, pages)) ==> Tight(l2, pages)
      ensures r.Done? ==> owned == old(owned) + {EntryOf(regions, phys).value} + PageSpan(TopPage(), old(TopPage()))
      ensures r.Done? ==> GrownTables(old(l2), old(TopPage()))
      ensures r.Done? ==> OneGroup(old(l2), old(TopPage()), virt / 0x10_0000 / 4)
      ensures r.Done? ==> OnlyTables(old(Mem()))
    {
      hide Tables, DecodeL1, Tracks, RegionPages, WholePages, EntryOf, Page, Tight, WithPage;
      if f.x && f.w {
        return Panicked;
      }
      :- MarkMapped(phys);
      var vpn1 := virt / 0x10_0000;
      var p := phys - phys % 0x1000;
      FrameBase(phys);
      :- EnsureTables(vpn1);
      :- MapInGroup(p, virt, f);
      if f.valid {
        TightAfter(old(l2), old(pages), l2, phys / 0x1000, virt, f);
      }
      return Done;
    }

    /** The second-level tables of earlier groups are where they were; new ones were just allocated. */
    ghost predicate GrownTables(was: map<int, PageIndex>, top: int)
      reads this
    {
      Grown(was, top, l2, TopPage())
    }

    /** The group has its tables now, in one further page unless it had them before. */
    ghost predicate OneGroup(was: map<int, PageIndex>, top: int, g: int)
      reads this
    {
      && l2.Keys == was.Keys + {g}
      && TopPage() == top - if g in was then 0 else 1
    }

    /** RAM differs from `m` at most in the tracker and in the table pages. */
    ghost predicate OnlyTables(m: Ram)
      reads this, ram
      requires ram.Length == RAM_WORDS
    {
      TablesOnly(m, Mem(), l1, l2, TrackerPage(), rptPages)
    }

    /** RAM above the first-level table, where the kernel image is, and free RAM below the top differ
        from `m` at most in the tracker. */
    ghost predicate KeepsImage(m: Ram)
      reads this, ram
      requires ram.Length == RAM_WORDS
    {
      Kept(m, Mem(), l1 + 4, TopPage(), TrackerPage(), rptPages)
    }

    /** All tables lie between the free memory and the image. */
    lemma TablesBelowImage(m: Ram)
      requires Mapping() && OnlyTables(m)
      ensures KeepsImage(m)
    {
      forall p: PageIndex | l1 + 4 <= p && !InTracker(p)
        ensures Page(Mem(), p) == Page(m, p)
      {
        assert !IsTablePage(l1, l2, p);
      }
    }

    /** Map one 1 MiB section. */
    method MapSection(phys: Word, virt: Word, f: Flags) returns (r: Outcome)
      requires Mapping()
      modifies ram, this`sections
      ensures r.Done? <==>
              && virt % 0x10_0000 == 0 && phys % 0x10_0000 == 0
              && virt / 0x10_0000 !in old(sections) && virt / 0x10_0000 / 4 !in l2
      ensures r.Done? ==> Mapping()
      ensures r.Done? ==> sections == old(sections)[virt / 0x10_0000 := SectionMapping(phys / 0x10_0000,
                SectionAccess(f))]
      ensures r.Done? ==> Keeps(old(Mem()), l1, l1 + 4)
    {
      hide Tables, DecodeL1, SectionBits, RegionPages, WholePages, Page;
      if virt % 0x10_0000 != 0 || phys % 0x10_0000 != 0 {
        return Panicked;
      }
      var vpn1 := virt / 0x10_0000;
      FirstIsTable(Mem(), l1, l2, pages, sections, vpn1);
      var first := Read(ttbr0 + 4 * vpn1);
      if first % 4 != 0 {
        return Panicked;
      }
      var isGlobal := vpn1 >= L1_USER_PAGE_TABLE_ENTRIES;
      SectionDecodes(phys / 0x10_0000, f, isGlobal);
      ghost var s := SectionMapping(phys / 0x10_0000, SectionAccess(f));
      var d := phys + SectionBits(f, isGlobal);
      TablesAddSection(Mem(), l1, l2, pages, sections, vpn1, d, s);
      L1StoreEntries(Mem(), l1, vpn1, d);
      EntryAddress(l1, vpn1);
      Write(ttbr0 + 4 * vpn1, d, l1 + vpn1 / PAGE_WORDS, vpn1 % PAGE_WORDS);
      TracksFrame(old(Mem()), Mem(), TrackerPage(), rptPages, trackerLen, owned);
      sections := sections[vpn1 := s];
      return Done;
    }
  }

  lemma FrameBase(phys: Word)
    ensures (phys - phys % 0x1000) % 0x1000 == 0 && (phys - phys % 0x1000) / 0x1000 == phys / 0x1000
  {
    Euclid(phys - phys % 0x1000, 0x1000, phys / 0x1000, 0);
  }

  /** What the type bits of a first-level entry say about the abstract map. */
  lemma FirstIsTable(m: Ram, l1: PageIndex, l2: map<int, PageIndex>, pages: PageMap, sections: SectionMap, i: nat)
    requires Tables(m, l1, l2, pages, sections) && i < 4096
    ensures var first := AddrOf(l1) + 4 * i;
            && InEncrypted(first)
            && (Load(m, first) % 4 == 0 <==> i !in sections && i / 4 !in l2)
            && (Load(m, first) % 4 == 1 <==> i / 4 in l2)
            && (i / 4 in l2 ==> i !in sections)
  {
    hide L2Holds, Load, Page;
    FirstLoad(m, l1, i);
    assert DecodeL1(L1Entry(m, l1, i)) == L1Spec(l2, sections, i);
  }

  /** In a group that has tables, the first-level entry leads to the group's page. */
  lemma FirstLookup(m: Ram, l1: PageIndex, l2: map<int, PageIndex>, pages: PageMap, sections: SectionMap, virt: Word)
    requires Tables(m, l1, l2, pages, sections) && virt / 0x10_0000 / 4 in l2
    ensures var first := AddrOf(l1) + 4 * (virt / 0x10_0000);
            && InEncrypted(first) && Load(m, first) % 4 == 1
            && Load(m, first) - Load(m, first) % 0x400 + 4 * (virt % 0x10_0000 / 0x1000)
            == AddrOf(l2[virt / 0x10_0000 / 4]) + 4 * (virt / 0x1000 % PAGE_WORDS)
  {
    var i := virt / 0x10_0000;
    VirtualIndices(virt);
    IndexSplit(virt);
    FirstLoad(m, l1, i);
    assert DecodeL1(L1Entry(m, l1, i)) == L1Spec(l2, sections, i);
    IsPageTable(L1Entry(m, l1, i), AddrOf(l2[i / 4]) + (i % 4) * 0x400);
  }

  lemma IsPageTable(d: Word, base: nat)
    requires DecodeL1(d) == L1PageTable(base)
    ensures d % 4 == 1 && d - d % 0x400 == base
  {
  }

  /** The second-level entry is invalid exactly when its page is not mapped. */
  lemma SecondLookup(m: Ram, l1: PageIndex, l2: map<int, PageIndex>, pages: PageMap, sections: SectionMap, virt: Word)
    requires Tables(m, l1, l2, pages, sections) && virt / 0x10_0000 / 4 in l2
    ensures var second := AddrOf(l2[virt / 0x10_0000 / 4]) + 4 * (virt / 0x1000 % PAGE_WORDS);
            InEncrypted(second) && (Load(m, second) % 4 == 0 <==> virt / 0x1000 !in pages)
  {
    hide L1Holds, DecodeL1, DecodeL2, Load, Page;
    var g, q := virt / 0x10_0000 / 4, virt / 0x1000 % PAGE_WORDS;
    IndexSplit(virt);
    LoadFromPage(m, l2[g], q);
    assert GroupHolds(Page(m, l2[g]), g, pages);
    assert DecodeL2(Page(m, l2[g])[q]) == L2Spec(pages, virt / 0x1000);
    InvalidEntry(Page(m, l2[g])[q], pages, virt / 0x1000);
  }

  lemma InvalidEntry(e: Word, pages: PageMap, vpn: int)
    requires DecodeL2(e) == L2Spec(pages, vpn)
    ensures e % 4 == 0 <==> vpn !in pages
  {
  }

  /** The new entry encodes the new map at its own page, and the map changes nowhere else. */
  lemma EntryFits(pages: PageMap, p: Word, virt: Word, f: Flags, isGlobal: bool)
    requires p % 0x1000 == 0 && virt / 0x1000 !in pages && isGlobal == IsGlobal(virt / 0x10_0000)
    ensures p + SmallPageBits(f, isGlobal) < ADDRESS_SPACE
    ensures var g, q, pages' := virt / 0x10_0000 / 4, virt / 0x1000 % PAGE_WORDS,
              WithPage(pages, p / 0x1000, virt / 0x1000, f);
            && DecodeL2(p + SmallPageBits(f, isGlobal)) == L2Spec(pages', g * PAGE_WORDS + q)
            && (forall v :: v != g * PAGE_WORDS + q ==> L2Spec(pages', v) == L2Spec(pages, v))
  {
    IndexSplit(virt);
    SmallPageDecodes(p / 0x1000, f, isGlobal);
  }

  lemma TightAfter(l2: map<int, PageIndex>, pages: PageMap, l2': map<int, PageIndex>, frame: nat, virt: Word, f: Flags)
    requires f.valid && virt / 0x1000 !in pages
    requires forall g :: g in l2' ==> g in l2 || g == virt / 0x10_0000 / 4
    ensures Tight(l2, pages) ==> Tight(l2', WithPage(pages, frame, virt / 0x1000, f))
  {
    SameGroup(virt);
    if Tight(l2, pages) {
      StaysTight(l2, pages, l2', WithPage(pages, frame, virt / 0x1000, f), virt / 0x1000);
    }
  }

  /** The abstract map after mapping virtual page `vpn` to a frame: one more page when the request
      is valid, and nothing new otherwise. */
  function WithPage(pages: PageMap, frame: nat, vpn: nat, f: Flags): PageMap {
    if f.valid then pages[vpn := PageMapping(frame, Requested(f), f.x)] else pages
  }
}
