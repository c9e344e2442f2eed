/** Mapping runs of pages. Addresses advance modulo 2^32, as the release-mode arithmetic does. */
module Ranges {
  import opened Arith
  import opened Layout
  import opened Armv7
  import opened PageTables
  import opened Tracker
  import opened RamPages
  import opened Boot
  import opened Wrappers

  /** Number of pages in the 32-bit address space. */
  const PAGE_NUMBERS := 0x10_0000

  /** The address `k` pages further on. */
  function StepAddr(a: Word, k: nat): Word {
    (a + k * PAGE_SIZE) % ADDRESS_SPACE
  }

  lemma StepPage(a: Word, k: nat)
    ensures StepAddr(a, k) / PAGE_SIZE == (a / PAGE_SIZE + k) % PAGE_NUMBERS
  {
    var page, off := a / PAGE_SIZE, a % PAGE_SIZE;
    var q, r := (page + k) / PAGE_NUMBERS, (page + k) % PAGE_NUMBERS;
    Euclid(a + k * PAGE_SIZE, ADDRESS_SPACE, q, r * PAGE_SIZE + off);
    Euclid(r * PAGE_SIZE + off, PAGE_SIZE, r, off);
  }

  /** Distance of page `u` behind page `v`, modulo the address space. */
  function Behind(u: int, v: int): (d: int)
    ensures 0 <= d < PAGE_NUMBERS
  {
    (u - v) % PAGE_NUMBERS
  }

  lemma BehindStep(u: int, v: nat, k: nat)
    requires 0 <= u < PAGE_NUMBERS && k < PAGE_NUMBERS
    ensures Behind(u, v) == k <==> u == (v + k) % PAGE_NUMBERS
  {
    var w := (v + k) % PAGE_NUMBERS;
    Euclid(w - v, PAGE_NUMBERS, -((v + k) / PAGE_NUMBERS), k);
    var q := (u - v) / PAGE_NUMBERS;
    if Behind(u, v) == k {
      Euclid(v + k, PAGE_NUMBERS, -q, u);
    }
  }

  /** The map of `n` consecutive virtual pages onto consecutive frames. */
  function RangeMap(virt: Word, phys: Word, n: nat, f: Flags): PageMap {
    map u: int | 0 <= u < PAGE_NUMBERS && Behind(u, virt / PAGE_SIZE) < n ::
      PageMapping((phys / PAGE_SIZE + Behind(u, virt / PAGE_SIZE)) % PAGE_NUMBERS, Requested(f), f.x)
  }

  lemma RangeMapStep(pages: PageMap, virt: Word, phys: Word, k: nat, f: Flags)
    requires f.valid && k < PAGE_NUMBERS
    ensures pages + RangeMap(virt, phys, k + 1, f)
         == WithPage(pages + RangeMap(virt, phys, k, f), StepAddr(phys, k) / PAGE_SIZE, StepAddr(virt, k) / PAGE_SIZE,
             f)
  {
    var v := virt / PAGE_SIZE;
    StepPage(virt, k);
    StepPage(phys, k);
    forall u: int | 0 <= u < PAGE_NUMBERS
      ensures Behind(u, v) == k <==> u == (v + k) % PAGE_NUMBERS
    {
      BehindStep(u, v, k);
    }
  }

  /** Tracker entries of `n` consecutive pages. */
  function EntrySpan(regions: seq<Range>, phys: Word, n: nat): set<int> {
    if n == 0 then {}
    else
      var e := EntryOf(regions, StepAddr(phys, n - 1));
      EntrySpan(regions, phys, n - 1) + (if e.Some? then {e.value} else {})
  }

  /** The tracker entries of a run of DRAM pages are their page numbers, in either view. */
  lemma {:induction false} EntrySpanOfDram(regions: seq<Range>, phys: Word, p: int, n: nat)
    requires 0 <= p && p + n <= RAM_PAGES
    requires phys == ENCRYPTED_DRAM_BASE + p * PAGE_SIZE || phys == PLAINTEXT_DRAM_BASE + p * PAGE_SIZE
    ensures EntrySpan(regions, phys, n) == PageSpan(p, p + n)
  {
    hide EntryOf, StepAddr;
    if n > 0 {
      EntrySpanOfDram(regions, phys, p, n - 1);
      DramEntry(regions, phys, p, n - 1);
    }
  }

  lemma DramEntry(regions: seq<Range>, phys: Word, p: int, k: nat)
    requires 0 <= p && p + k < RAM_PAGES
    requires phys == ENCRYPTED_DRAM_BASE + p * PAGE_SIZE || phys == PLAINTEXT_DRAM_BASE + p * PAGE_SIZE
    ensures EntryOf(regions, StepAddr(phys, k)) == Some(p + k)
  {
    var a := phys + k * PAGE_SIZE;
    Euclid(a, ADDRESS_SPACE, 0, a);
    ViewsAreInverse(a);
    assert DramView(a) == AddrOf(p + k);
    Euclid((p + k) * PAGE_SIZE, PAGE_SIZE, p + k, 0);
  }

  /** The groups of four first-level entries in which a run of virtual pages lies. */
  function Groups(virt: Word, n: nat): set<int> {
    set k | 0 <= k < n :: StepAddr(virt, k) / PAGE_SIZE / PAGE_WORDS
  }

  /** All groups of a run belong to a set. */
  ghost predicate Covers(gs: set<int>, virt: Word, n: nat) {
    forall k {:trigger StepAddr(virt, k)} :: 0 <= k < n ==> StepAddr(virt, k) / PAGE_SIZE / PAGE_WORDS in gs
  }

  lemma CoversGroups(gs: set<int>, virt: Word, n: nat)
    ensures Covers(gs, virt, n) <==> Groups(virt, n) <= gs
  {
    hide StepAddr;
    forall k | 0 <= k < n
      ensures StepAddr(virt, k) / PAGE_SIZE / PAGE_WORDS in Groups(virt, n)
    {
    }
  }

  /** Mapping a page of one of the groups leaves as much to spare as before. */
  lemma SpareStep(cfg: BootConfig, gs: set<int>, was: map<int, PageIndex>, top: int, g: int)
    requires g in gs && cfg.OneGroup(was, top, g)
    ensures cfg.Spare(gs) == top - Missing(gs, was)
  {
    OneLess(gs, was.Keys, cfg.l2.Keys, g);
  }

  lemma OneLess(gs: set<int>, was: set<int>, now: set<int>, g: int)
    requires g in gs && now == was + {g}
    ensures |gs - now| == |gs - was| - if g in was then 0 else 1
  {
    if g in was {
      assert gs - now == gs - was;
    } else {
      assert gs - was == (gs - now) + {g};
    }
  }

  /** If there is more than nothing to spare, a group without tables can get them. */
  lemma SpareForGroup(cfg: BootConfig, gs: set<int>, g: int)
    requires g in gs && cfg.Spare(gs) > 0
    ensures g in cfg.l2 || cfg.TopPage() > 1
  {
    if g !in cfg.l2 {
      assert g in gs - cfg.l2.Keys;
    }
  }

  /** No page of the run lies in a group of four first-level entries that holds a section. */
  ghost predicate SectionFree(sections: SectionMap, virt: Word, n: nat) {
    forall i, k {:trigger i in sections, StepAddr(virt, k)} :: i in sections && 0 <= k < n ==>
        i / 4 != StepAddr(virt, k) / 0x10_0000 / 4
  }

  /** Every page of the run is free and its frame is tracked; no page is both writable and executable. */
  ghost predicate Mappable(pages: PageMap, sections: SectionMap, regions: seq<Range>, phys: Word, virt: Word, n: nat,
                           f: Flags) {
    forall k {:trigger StepAddr(virt, k)} :: 0 <= k < n ==>
        StepMappable(pages, sections, regions, StepAddr(phys, k), StepAddr(virt, k), f)
  }

  predicate StepMappable(pages: PageMap, sections: SectionMap, regions: seq<Range>, phys: Word, virt: Word, f: Flags) {
    && !(f.x && f.w) && EntryOf(regions, phys).Some?
    && virt / 0x10_0000 !in sections && virt / PAGE_SIZE !in pages
  }

  /** The pages of a run before it is reached are no obstacle to it, and those before the run are. */
  lemma StillFree(pages: PageMap, virt: Word, phys: Word, k: nat, f: Flags)
    requires k < PAGE_NUMBERS
    ensures StepAddr(virt, k) / PAGE_SIZE in pages + RangeMap(virt, phys, k, f)
       <==> StepAddr(virt, k) / PAGE_SIZE in pages
  {
    StepPage(virt, k);
    BehindStep(StepAddr(virt, k) / PAGE_SIZE, virt / PAGE_SIZE, k);
  }

  /** The next page of a run. */
  method MapNext(cfg: BootConfig, ghost was: PageMap, phys: Word, virt: Word, i: nat, f: Flags, ghost gs: set<int>)
    returns (r: Outcome)
    requires cfg.Mapping() && f.valid && i < PAGE_NUMBERS && cfg.pages == was + RangeMap(virt, phys, i, f)
    requires forall s :: s in cfg.sections ==> s / 4 != StepAddr(virt, i) / 0x10_0000 / 4
    requires StepAddr(virt, i) / PAGE_SIZE / PAGE_WORDS in gs
    modifies cfg.ram, cfg`extraPages, cfg`owned, cfg`l2, cfg`pages
    ensures r.Done? ==>
              cfg.Mapping() && cfg.pages == was + RangeMap(virt, phys, i + 1, f)
              && Extends(cfg.pages, old(cfg.pages))
    ensures r.Done? ==> EntryOf(cfg.regions, StepAddr(phys, i)).Some?
    ensures r.Done? ==>
              cfg.owned == old(cfg.owned) + {EntryOf(cfg.regions, StepAddr(phys, i)).value}
              + PageSpan(cfg.TopPage(), old(cfg.TopPage()))
    ensures r.Done? ==> cfg.GrownTables(old(cfg.l2), old(cfg.TopPage())) && cfg.OnlyTables(old(cfg.Mem()))
    ensures r.Done? && old(Tight(cfg.l2, cfg.pages)) ==> Tight(cfg.l2, cfg.pages)
    ensures r.Done? ==> cfg.Spare(gs) == old(cfg.Spare(gs))
    ensures r.Done? ==> StepMappable(was, cfg.sections, cfg.regions, StepAddr(phys, i), StepAddr(virt, i), f)
    ensures StepMappable(was, cfg.sections, cfg.regions, StepAddr(phys, i), StepAddr(virt, i), f)
              && old(cfg.Spare(gs)) > 0 ==>
            r.Done?
  {
    hide Tables, Tracks, RegionPages, WholePages, EntryOf, Page, StepAddr, RangeMap, Tight, Missing;
    ghost var l2, top, g := cfg.l2, cfg.TopPage(), StepAddr(virt, i) / PAGE_SIZE / PAGE_WORDS;
    SameGroup(StepAddr(virt, i));
    RangeMapStep(was, virt, phys, i, f);
    StillFree(was, virt, phys, i, f);
    if cfg.Spare(gs) > 0 {
      SpareForGroup(cfg, gs, g);
    }
    r := cfg.MapPage(StepAddr(phys, i), StepAddr(virt, i), f);
    if r.Done? {
      SpareStep(cfg, gs, l2, top, g);
    }
  }

  /** Map `n` pages one by one. It panics if one of them cannot be mapped. Otherwise it goes through if
      there is something to spare beyond the tables for a set of groups that contains the run's; and
      exactly that much is to spare afterwards. */
  method MapRange(cfg: BootConfig, phys: Word, virt: Word, n: nat, f: Flags, ghost gs: set<int>) returns (r: Outcome)
    requires cfg.Mapping() && f.valid && n <= PAGE_NUMBERS && SectionFree(cfg.sections, virt, n)
    requires Covers(gs, virt, n)
    modifies cfg.ram, cfg`extraPages, cfg`owned, cfg`l2, cfg`pages
    ensures r.Done? ==>
              cfg.Mapping() && cfg.pages == old(cfg.pages) + RangeMap(virt, phys, n, f)
              && Extends(cfg.pages, old(cfg.pages))
    ensures r.Done? ==>
              cfg.owned == old(cfg.owned) + EntrySpan(cfg.regions, phys, n)
              + PageSpan(cfg.TopPage(), old(cfg.TopPage()))
    ensures r.Done? ==> cfg.GrownTables(old(cfg.l2), old(cfg.TopPage()))
    ensures r.Done? ==> cfg.OnlyTables(old(cfg.Mem())) && cfg.KeepsImage(old(cfg.Mem()))
    ensures r.Done? && old(Tight(cfg.l2, cfg.pages)) ==> Tight(cfg.l2, cfg.pages)
    ensures r.Done? ==> cfg.Spare(gs) == old(cfg.Spare(gs))
    ensures r.Done? ==> Mappable(old(cfg.pages), cfg.sections, cfg.regions, phys, virt, n, f)
    ensures Mappable(old(cfg.pages), cfg.sections, cfg.regions, phys, virt, n, f) && old(cfg.Spare(gs)) > 0 ==> r.Done?
  {
    hide Tables, Tracks, RegionPages, WholePages, EntryOf, Page, StepAddr, RangeMap, StepMappable, Tight, Missing;
    var i := 0;
    assert cfg.pages + RangeMap(virt, phys, 0, f) == cfg.pages by { EmptyRange(virt, phys, f); }
    while i < n
      invariant 0 <= i <= n
      invariant cfg.Mapping() && cfg.pages == old(cfg.pages) + RangeMap(virt, phys, i, f)
                  && Extends(cfg.pages, old(cfg.pages))
      invariant cfg.owned == old(cfg.owned) + EntrySpan(cfg.regions, phys, i)
                  + PageSpan(cfg.TopPage(), old(cfg.TopPage()))
      invariant cfg.GrownTables(old(cfg.l2), old(cfg.TopPage())) && cfg.OnlyTables(old(cfg.Mem()))
      invariant cfg.Spare(gs) == old(cfg.Spare(gs))
      invariant old(Tight(cfg.l2, cfg.pages)) ==> Tight(cfg.l2, cfg.pages)
      invariant forall k :: 0 <= k < i ==>
                  StepMappable(old(cfg.pages), cfg.sections, cfg.regions, StepAddr(phys, k), StepAddr(virt, k), f)
    {
      :- MapNext(cfg, old(cfg.pages), phys, virt, i, f, gs);
      i := i + 1;
    }
    cfg.TablesBelowImage(old(cfg.Mem()));
    return Done;
  }

  lemma EmptyRange(virt: Word, phys: Word, f: Flags)
    ensures RangeMap(virt, phys, 0, f) == map[]
  {
  }

  /** No page of the run is mapped yet. */
  ghost predicate VirtFree(pages: PageMap, virt: Word, n: nat) {
    forall k {:trigger StepAddr(virt, k)} :: 0 <= k < n ==> StepAddr(virt, k) / PAGE_SIZE !in pages
  }

  /** The run does not wrap around the end of the address space. */
  predicate Whole(virt: Word, n: nat) {
    virt / PAGE_SIZE + n <= PAGE_NUMBERS
  }

  /** No page number of the run is mapped yet. */
  ghost predicate Clear(pages: PageMap, virt: Word, n: nat) {
    forall u :: virt / PAGE_SIZE <= u < virt / PAGE_SIZE + n ==> u !in pages
  }

  /** Two runs do not overlap; the first one may wrap around the end of the address space. */
  predicate Disjoint(v1: Word, n1: nat, v2: Word, n2: nat) {
    || v1 / PAGE_SIZE + n1 <= v2 / PAGE_SIZE
    || (v2 / PAGE_SIZE + n2 <= v1 / PAGE_SIZE && v1 / PAGE_SIZE + n1 <= PAGE_NUMBERS + v2 / PAGE_SIZE)
  }

  lemma StepNumber(virt: Word, n: nat, k: nat)
    requires Whole(virt, n) && k < n
    ensures StepAddr(virt, k) / PAGE_SIZE == virt / PAGE_SIZE + k
  {
    StepPage(virt, k);
    Euclid(virt / PAGE_SIZE + k, PAGE_NUMBERS, 0, virt / PAGE_SIZE + k);
  }

  lemma ClearIsFree(pages: PageMap, virt: Word, n: nat)
    requires Whole(virt, n) && Clear(pages, virt, n)
    ensures VirtFree(pages, virt, n)
  {
    hide StepAddr;
    forall k | 0 <= k < n
      ensures StepAddr(virt, k) / PAGE_SIZE !in pages
    {
      StepNumber(virt, n, k);
    }
  }

  /** A run that is mapped elsewhere leaves a run clear. */
  lemma ClearRange(pages: PageMap, v1: Word, phys: Word, n1: nat, f: Flags, v2: Word, n2: nat)
    requires Clear(pages, v2, n2) && Disjoint(v1, n1, v2, n2)
    ensures Clear(pages + RangeMap(v1, phys, n1, f), v2, n2)
  {
    forall u | v2 / PAGE_SIZE <= u < v2 / PAGE_SIZE + n2
      ensures u !in RangeMap(v1, phys, n1, f)
    {
      if 0 <= u < PAGE_NUMBERS {
        var d := u - v1 / PAGE_SIZE;
        if d >= 0 {
          Euclid(d, PAGE_NUMBERS, 0, d);
        } else {
          Euclid(d, PAGE_NUMBERS, -1, d + PAGE_NUMBERS);
        }
      }
    }
  }

  /** The page numbers of a run that does not wrap. */
  lemma InWholeRange(virt: Word, phys: Word, n: nat, f: Flags, u: int)
    requires Whole(virt, n)
    ensures u in RangeMap(virt, phys, n, f) <==> virt / PAGE_SIZE <= u < virt / PAGE_SIZE + n
  {
    if 0 <= u < PAGE_NUMBERS {
      var d := u - virt / PAGE_SIZE;
      Euclid(d, PAGE_NUMBERS, if d >= 0 then 0 else -1, if d >= 0 then d else d + PAGE_NUMBERS);
    }
  }

  /** Every frame of the run has a tracker entry. */
  ghost predicate Tracked(regions: seq<Range>, phys: Word, n: nat) {
    forall k {:trigger StepAddr(phys, k)} :: 0 <= k < n ==> EntryOf(regions, StepAddr(phys, k)).Some?
  }

  lemma DramTracked(regions: seq<Range>, phys: Word, p: int, n: nat)
    requires 0 <= p && p + n <= RAM_PAGES
    requires phys == ENCRYPTED_DRAM_BASE + p * PAGE_SIZE || phys == PLAINTEXT_DRAM_BASE + p * PAGE_SIZE
    ensures Tracked(regions, phys, n)
  {
    hide EntryOf, StepAddr;
    forall k | 0 <= k < n
      ensures EntryOf(regions, StepAddr(phys, k)).Some?
    {
      DramEntry(regions, phys, p, k);
    }
  }

  /** A run can be mapped exactly if its pages are free, its frames tracked, and no page both writable and
      executable, provided that no sections are in its way. */
  lemma FreeMappable(pages: PageMap, sections: SectionMap, regions: seq<Range>, phys: Word, virt: Word, n: nat,
                     f: Flags)
    requires SectionFree(sections, virt, n)
    ensures Mappable(pages, sections, regions, phys, virt, n, f) <==>
              (n == 0 || !(f.x && f.w)) && VirtFree(pages, virt, n) && Tracked(regions, phys, n)
  {
    hide EntryOf, StepAddr;
    if Mappable(pages, sections, regions, phys, virt, n, f) && n > 0 {
      assert StepMappable(pages, sections, regions, StepAddr(phys, 0), StepAddr(virt, 0), f);
      forall k | 0 <= k < n
        ensures StepAddr(virt, k) / PAGE_SIZE !in pages && EntryOf(regions, StepAddr(phys, k)).Some?
      {
        assert StepMappable(pages, sections, regions, StepAddr(phys, k), StepAddr(virt, k), f);
      }
    }
    if n > 0 && !(f.x && f.w) && VirtFree(pages, virt, n) && Tracked(regions, phys, n) {
      forall k | 0 <= k < n
        ensures StepMappable(pages, sections, regions, StepAddr(phys, k), StepAddr(virt, k), f)
      {
        NotInSections(sections, virt, n, k);
      }
    }
  }

  lemma NotInSections(sections: SectionMap, virt: Word, n: nat, k: nat)
    requires SectionFree(sections, virt, n) && k < n
    ensures StepAddr(virt, k) / 0x10_0000 !in sections
  {
    hide StepAddr;
    var i := StepAddr(virt, k) / 0x10_0000;
    assert i / 4 == StepAddr(virt, k) / 0x10_0000 / 4;
  }

  /** Map a run of DRAM pages, given in either view. */
  method MapDram(cfg: BootConfig, phys: Word, virt: Word, n: nat, f: Flags, ghost p: int, ghost gs: set<int>)
    returns (r: Outcome)
    requires cfg.Mapping() && f.valid && n <= PAGE_NUMBERS && SectionFree(cfg.sections, virt, n)
    requires Covers(gs, virt, n)
    requires 0 <= p && p + n <= RAM_PAGES
    requires phys == ENCRYPTED_DRAM_BASE + p * PAGE_SIZE || phys == PLAINTEXT_DRAM_BASE + p * PAGE_SIZE
    modifies cfg.ram, cfg`extraPages, cfg`owned, cfg`l2, cfg`pages
    ensures r.Done? ==>
              cfg.Mapping() && cfg.pages == old(cfg.pages) + RangeMap(virt, phys, n, f)
              && Extends(cfg.pages, old(cfg.pages))
    ensures r.Done? ==> cfg.owned == old(cfg.owned) + PageSpan(p, p + n) + PageSpan(cfg.TopPage(), old(cfg.TopPage()))
    ensures r.Done? ==> cfg.TopPage() <= old(cfg.TopPage()) && cfg.KeepsImage(old(cfg.Mem()))
    ensures r.Done? ==> cfg.GrownTables(old(cfg.l2), old(cfg.TopPage())) && cfg.OnlyTables(old(cfg.Mem()))
    ensures r.Done? && old(Tight(cfg.l2, cfg.pages)) ==> Tight(cfg.l2, cfg.pages)
    ensures r.Done? ==> cfg.Spare(gs) == old(cfg.Spare(gs)) && VirtFree(old(cfg.pages), virt, n)
    ensures VirtFree(old(cfg.pages), virt, n) && !(f.x && f.w) && old(cfg.Spare(gs)) > 0 ==> r.Done?
  {
    hide Tables, Tracks, RegionPages, WholePages, EntryOf, Page, StepAddr, RangeMap, Mappable, VirtFree, Tight,
         Tracked, EntrySpan, Covers, Missing, SectionFree, PageSpan;
    DramTracked(cfg.regions, phys, p, n);
    FreeMappable(cfg.pages, cfg.sections, cfg.regions, phys, virt, n, f);
    EntrySpanOfDram(cfg.regions, phys, p, n);
    r := MapRange(cfg, phys, virt, n, f, gs);
  }

  /** Stack pages: `n` fresh pages in one physical run, mapped so that virtual and physical addresses
      ascend together. Returns the address of the highest page. */
  method AllocateStack(cfg: BootConfig, base: Word, n: nat, f: Flags, ghost gs: set<int>)
    returns (r: Outcome, stackTopPhys: Word)
    requires cfg.Mapping() && cfg.sections == map[] && f.valid && 0 < n < 0x1000 && base - PAGE_SIZE * n >= 0
    requires Covers(gs, base - PAGE_SIZE * n, n)
    modifies cfg.ram, cfg`extraPages, cfg`owned, cfg`l2, cfg`pages
    ensures r.Done? ==> cfg.Mapping() && old(cfg.TopPage()) > n && stackTopPhys == AddrOf(old(cfg.TopPage()) - 1)
    ensures r.Done? ==>
              cfg.pages == old(cfg.pages)
              + RangeMap(base - PAGE_SIZE * n, AddrOf(old(cfg.TopPage()) - n), n, f)
    ensures r.Done? ==> cfg.TopPage() <= old(cfg.TopPage()) - n
    ensures r.Done? ==> cfg.GrownTables(old(cfg.l2), old(cfg.TopPage()))
    ensures r.Done? ==> NoTables(cfg.l2, old(cfg.TopPage()) - n, n)
    ensures r.Done? ==> cfg.owned == old(cfg.owned) + PageSpan(cfg.TopPage(), old(cfg.TopPage()))
    ensures r.Done? ==> ZeroPages(cfg.Mem(), old(cfg.TopPage()) - n, old(cfg.TopPage()))
    ensures r.Done? ==> cfg.KeepsImage(old(cfg.Mem()))
    ensures r.Done? && old(Tight(cfg.l2, cfg.pages)) ==> Tight(cfg.l2, cfg.pages)
    ensures r.Done? ==> cfg.Spare(gs) == old(cfg.Spare(gs)) - n
    ensures r.Done? ==> !(f.x && f.w) && VirtFree(old(cfg.pages), base - PAGE_SIZE * n, n)
    ensures !(f.x && f.w) && VirtFree(old(cfg.pages), base - PAGE_SIZE * n, n) && old(cfg.Spare(gs)) > n ==> r.Done?
  {
    hide Tables, Tracks, RegionPages, WholePages, EntryOf, Page, StepAddr, RangeMap, Mappable, VirtFree, Tight, Covers,
         Tracked, Missing;
    ghost var start := cfg.TopPage();
    stackTopPhys :- AllocStackPages(cfg, n);
    ghost var m, low := cfg.Mem(), start - n;
    DramTracked(cfg.regions, AddrOf(low), low, n);
    FreeMappable(cfg.pages, cfg.sections, cfg.regions, AddrOf(low), base - PAGE_SIZE * n, n, f);
    r := MapRange(cfg, stackTopPhys - PAGE_SIZE * n + PAGE_SIZE, base - PAGE_SIZE * n, n, f, gs);
    if r.Done? {
      EntrySpanOfDram(cfg.regions, AddrOf(low), low, n);
      forall p: PageIndex | low <= p < start
        ensures Page(cfg.Mem(), p) == Page(m, p)
      {
        assert !IsTablePage(cfg.l1, cfg.l2, p);
      }
      ZeroPagesJoin(m, cfg.Mem(), low, low, start);
    }
  }

  /** The allocation loop of a stack: consecutive pages, remembering the first and highest one. */
  method AllocStackPages(cfg: BootConfig, n: nat) returns (r: Outcome, stackTopPhys: Word)
    requires cfg.Mapping() && 0 < n
    modifies cfg.ram, cfg`extraPages, cfg`owned
    ensures r.Done? <==> old(cfg.TopPage()) > n
    ensures r.Done? ==> cfg.Mapping() && cfg.TopPage() == old(cfg.TopPage()) - n > 0
    ensures r.Done? ==> stackTopPhys == AddrOf(old(cfg.TopPage()) - 1)
    ensures r.Done? ==> cfg.owned == old(cfg.owned) + PageSpan(cfg.TopPage(), old(cfg.TopPage()))
    ensures r.Done? ==> ZeroPages(cfg.Mem(), cfg.TopPage(), old(cfg.TopPage()))
    ensures r.Done? ==> cfg.Keeps(old(cfg.Mem()), cfg.TopPage(), old(cfg.TopPage()))
  {
    hide Tables, Tracks, RegionPages, WholePages, EntryOf, Page;
    stackTopPhys := 0;
    ghost var start := cfg.TopPage();
    var k := 0;
    while k < n
      invariant 0 <= k <= n
      invariant cfg.Mapping() && cfg.TopPage() == start - k
      invariant if k == 0 then stackTopPhys == 0 else stackTopPhys == AddrOf(start - 1) && cfg.TopPage() > 0
      invariant cfg.owned == old(cfg.owned) + PageSpan(cfg.TopPage(), start)
      invariant ZeroPages(cfg.Mem(), cfg.TopPage(), start)
      invariant cfg.Keeps(old(cfg.Mem()), cfg.TopPage(), start)
    {
      ghost var before := cfg.Mem();
      var phys :- cfg.AllocMapped();
      ZeroPagesJoin(before, cfg.Mem(), cfg.TopPage(), cfg.TopPage() + 1, start);
      if stackTopPhys == 0 {
        stackTopPhys := phys;
      }
      k := k + 1;
    }
    r := Done;
  }

  /** Allocate one page and map it. */
  method MapFresh(cfg: BootConfig, virt: Word, f: Flags, ghost gs: set<int>) returns (r: Outcome, phys: Word)
    requires cfg.Mapping() && cfg.sections == map[] && f.valid && Covers(gs, virt, 1)
    modifies cfg.ram, cfg`extraPages, cfg`owned, cfg`l2, cfg`pages
    ensures r.Done? && old(Tight(cfg.l2, cfg.pages)) ==> Tight(cfg.l2, cfg.pages)
    ensures r.Done? ==> cfg.Spare(gs) == old(cfg.Spare(gs)) - 1
    ensures r.Done? ==> !(f.x && f.w) && VirtFree(old(cfg.pages), virt, 1)
    ensures !(f.x && f.w) && VirtFree(old(cfg.pages), virt, 1) && old(cfg.Spare(gs)) > 1 ==> r.Done?
    ensures r.Done? ==> old(cfg.TopPage()) > 1 && phys == AddrOf(old(cfg.TopPage()) - 1)
    ensures r.Done? ==> cfg.Mapping() && cfg.TopPage() < old(cfg.TopPage())
    ensures r.Done? ==> cfg.pages == old(cfg.pages) + RangeMap(virt, phys, 1, f) && Extends(cfg.pages, old(cfg.pages))
    ensures r.Done? ==> cfg.owned == old(cfg.owned) + PageSpan(cfg.TopPage(), old(cfg.TopPage()))
    ensures r.Done? ==> cfg.GrownTables(old(cfg.l2), old(cfg.TopPage())) && cfg.KeepsImage(old(cfg.Mem()))
    ensures r.Done? ==> !IsTablePage(cfg.l1, cfg.l2, old(cfg.TopPage()) - 1)
    ensures r.Done? ==> forall p: PageIndex ::
              old(cfg.TopPage()) <= p && !IsTablePage(cfg.l1, cfg.l2, p) && !cfg.InTracker(p) ==>
                Page(cfg.Mem(), p) == Page(old(cfg.Mem()), p)
  {
    hide Tables, Tracks, RegionPages, WholePages, EntryOf, StepAddr, RangeMap, Page, Mappable, VirtFree, Tight, Covers,
         Tracked, Missing;
    phys :- cfg.AllocMapped();
    DramTracked(cfg.regions, phys, cfg.TopPage(), 1);
    FreeMappable(cfg.pages, cfg.sections, cfg.regions, phys, virt, 1, f);
    EntrySpanOfDram(cfg.regions, phys, cfg.TopPage(), 1);
    r := MapRange(cfg, phys, virt, 1, f, gs);
  }
}
