/** The fixed mappings after the kernel, and the whole boot sequence up to the hand-off. */
module BootSequence {
  import opened Arith
  import opened Layout
  import opened Armv7
  import opened PageTables
  import opened Tracker
  import opened RamPages
  import opened Boot
  import opened KernelImage
  import opened Ranges
  import opened Loader
  import opened Wrappers

  /** A device window: virtual base, physical base and number of pages. */
  datatype Peripheral = Peripheral(virt: Word, phys: Word, pages: nat)

  /** UART, TRNG, L2CC, AIC, SAIC, SECURAM, RSTC, RXLP, SFC and ICM. */
  const PERIPHERALS: seq<Peripheral> := [
    Peripheral(0xFFCF_0000, 0xF802_0000, 4), Peripheral(0xFFCE_0000, 0xFC01_C000, 4),
    Peripheral(0xFFC8_0000, 0x00A0_0000, 4), Peripheral(0xFFCA_0000, 0xFC02_0000, 4),
    Peripheral(0xFFCB_0000, 0xF803_C000, 4), Peripheral(0xFFC5_0000, 0xF804_4000, 4),
    Peripheral(0xFFC4_0000, 0xF804_8000, 1), Peripheral(0xFFCC_0000, 0xF804_9000, 4),
    Peripheral(0xFFCD_0000, 0xF804_C000, 4), Peripheral(0xFFCE_4000, 0xF804_0000, 4)]

  /** The map after the first windows of a list of peripherals. */
  function PeripheralMap(ps: seq<Peripheral>, pages: PageMap): PageMap {
    if |ps| == 0 then pages
    else
      var p := ps[|ps| - 1];
      PeripheralMap(ps[..|ps| - 1], pages) + RangeMap(p.virt, p.phys, p.pages, DEVICE_FLAGS)
  }

  function PeripheralEntries(ps: seq<Peripheral>, regions: seq<Range>): set<int> {
    if |ps| == 0 then {}
    else
      var p := ps[|ps| - 1];
      PeripheralEntries(ps[..|ps| - 1], regions) + EntrySpan(regions, p.phys, p.pages)
  }

  function PeripheralGroups(ps: seq<Peripheral>): set<int> {
    if |ps| == 0 then {}
    else
      var p := ps[|ps| - 1];
      PeripheralGroups(ps[..|ps| - 1]) + Groups(p.virt, p.pages)
  }

  /** The groups of all windows belong to a set. */
  ghost predicate CoversAll(gs: set<int>, ps: seq<Peripheral>) {
    forall i :: 0 <= i < |ps| ==> Covers(gs, ps[i].virt, ps[i].pages)
  }

  lemma {:induction false} CoversPeripherals(gs: set<int>, ps: seq<Peripheral>)
    requires PeripheralGroups(ps) <= gs
    ensures CoversAll(gs, ps)
  {
    hide Covers, Groups;
    if |ps| > 0 {
      var last := |ps| - 1;
      CoversPeripherals(gs, ps[..last]);
      CoversGroups(gs, ps[last].virt, ps[last].pages);
      forall i | 0 <= i < |ps|
        ensures Covers(gs, ps[i].virt, ps[i].pages)
      {
        if i < last {
          assert ps[..last][i] == ps[i];
        }
      }
    }
  }

  /** The windows do not wrap and do not overlap. */
  predicate Separate(ps: seq<Peripheral>) {
    && (forall i :: 0 <= i < |ps| ==> Whole(ps[i].virt, ps[i].pages))
    && (forall i, j :: 0 <= i < j < |ps| ==> Disjoint(ps[i].virt, ps[i].pages, ps[j].virt, ps[j].pages))
  }

  ghost predicate AllClear(pages: PageMap, ps: seq<Peripheral>) {
    forall i :: 0 <= i < |ps| ==> Clear(pages, ps[i].virt, ps[i].pages)
  }

  ghost predicate AllTracked(regions: seq<Range>, ps: seq<Peripheral>) {
    forall i :: 0 <= i < |ps| ==> Tracked(regions, ps[i].phys, ps[i].pages)
  }

  /** The run lies outside all windows. */
  predicate Outside(ps: seq<Peripheral>, virt: Word, n: nat) {
    forall i :: 0 <= i < |ps| ==> Whole(ps[i].virt, ps[i].pages) && Disjoint(ps[i].virt, ps[i].pages, virt, n)
  }

  lemma {:induction false} ClearOfPeripherals(ps: seq<Peripheral>, pages: PageMap, virt: Word, n: nat)
    requires Clear(pages, virt, n) && Outside(ps, virt, n)
    ensures Clear(PeripheralMap(ps, pages), virt, n)
  {
    hide RangeMap, Clear, Whole, Disjoint;
    if |ps| > 0 {
      var last := |ps| - 1;
      ClearOfPeripherals(ps[..last], pages, virt, n);
      var p := ps[last];
      ClearRange(PeripheralMap(ps[..last], pages), p.virt, p.phys, p.pages, DEVICE_FLAGS, virt, n);
    }
  }

  lemma NextClear(ps: seq<Peripheral>, pages: PageMap, i: nat)
    requires i < |ps| && Separate(ps) && AllClear(pages, ps)
    ensures VirtFree(PeripheralMap(ps[..i], pages), ps[i].virt, ps[i].pages)
  {
    hide Clear, Whole, Disjoint, PeripheralMap, VirtFree;
    ClearOfPeripherals(ps[..i], pages, ps[i].virt, ps[i].pages);
    ClearIsFree(PeripheralMap(ps[..i], pages), ps[i].virt, ps[i].pages);
  }

  /** Map one device window. */
  method MapDevice(cfg: BootConfig, p: Peripheral, ghost gs: set<int>) returns (r: Outcome)
    requires cfg.Mapping() && cfg.sections == map[] && p.pages <= PAGE_NUMBERS && Covers(gs, p.virt, p.pages)
    modifies cfg.ram, cfg`extraPages, cfg`owned, cfg`l2, cfg`pages
    ensures r.Done? ==> cfg.Mapping() && cfg.pages == old(cfg.pages) + RangeMap(p.virt, p.phys, p.pages, DEVICE_FLAGS)
    ensures r.Done? ==> Extends(cfg.pages, old(cfg.pages)) && cfg.KeepsImage(old(cfg.Mem()))
    ensures r.Done? ==>
              cfg.owned == old(cfg.owned) + EntrySpan(cfg.regions, p.phys, p.pages)
              + PageSpan(cfg.TopPage(), old(cfg.TopPage()))
    ensures r.Done? && old(Tight(cfg.l2, cfg.pages)) ==> Tight(cfg.l2, cfg.pages)
    ensures r.Done? ==> cfg.GrownTables(old(cfg.l2), old(cfg.TopPage()))
    ensures r.Done? ==> cfg.TopPage() <= old(cfg.TopPage()) && cfg.Spare(gs) == old(cfg.Spare(gs))
    ensures r.Done? ==> VirtFree(old(cfg.pages), p.virt, p.pages) && Tracked(cfg.regions, p.phys, p.pages)
    ensures VirtFree(old(cfg.pages), p.virt, p.pages) && Tracked(cfg.regions, p.phys, p.pages)
              && old(cfg.Spare(gs)) > 0 ==>
            r.Done?
  {
    hide Tables, Tracks, RegionPages, WholePages, EntryOf, StepAddr, RangeMap, Page, EntrySpan, Tight, VirtFree,
         Tracked, Mappable, PageSpan, Covers, Missing;
    NoSections(p.virt, p.pages);
    FreeMappable(cfg.pages, map[], cfg.regions, p.phys, p.virt, p.pages, DEVICE_FLAGS);
    r := MapRange(cfg, p.phys, p.virt, p.pages, DEVICE_FLAGS, gs);
  }

  /** Map a list of device windows. */
  method MapPeripherals(cfg: BootConfig, ps: seq<Peripheral>, ghost gs: set<int>) returns (r: Outcome)
    requires cfg.Mapping() && cfg.sections == map[] && forall p :: p in ps ==> p.pages <= PAGE_NUMBERS
    requires CoversAll(gs, ps)
    modifies cfg.ram, cfg`extraPages, cfg`owned, cfg`l2, cfg`pages
    ensures r.Done? ==>
              cfg.Mapping() && cfg.pages == PeripheralMap(ps, old(cfg.pages))
              && Extends(cfg.pages, old(cfg.pages))
    ensures r.Done? ==> cfg.TopPage() <= old(cfg.TopPage()) && cfg.KeepsImage(old(cfg.Mem()))
    ensures r.Done? ==>
              cfg.owned == old(cfg.owned) + PeripheralEntries(ps, cfg.regions)
              + PageSpan(cfg.TopPage(), old(cfg.TopPage()))
    ensures r.Done? && old(Tight(cfg.l2, cfg.pages)) ==> Tight(cfg.l2, cfg.pages)
    ensures r.Done? ==> cfg.GrownTables(old(cfg.l2), old(cfg.TopPage()))
    ensures r.Done? ==> cfg.Spare(gs) == old(cfg.Spare(gs)) && AllTracked(cfg.regions, ps)
    ensures Separate(ps) && AllClear(old(cfg.pages), ps) && AllTracked(cfg.regions, ps) && old(cfg.Spare(gs)) > 0 ==>
            r.Done?
  {
    hide Tables, Tracks, RegionPages, WholePages, EntryOf, StepAddr, RangeMap, Page, EntrySpan, Tight, Clear, Whole,
         Disjoint, Tracked, Mappable, PageSpan, Extends, Separate, AllClear, PeripheralMap, VirtFree, Covers,
         PeripheralEntries, Missing, Kept, Grown;
    ghost var start, m := cfg.TopPage(), cfg.Mem();
    ghost var fits := Separate(ps) && AllClear(cfg.pages, ps) && AllTracked(cfg.regions, ps);
    var i := 0;
    assert ps[..0] == [];
    NoPeripherals(cfg.pages, cfg.regions);
    EmptySpan(start);
    ExtendsItself(cfg.pages);
    KeptAtFirst(cfg);
    GrownAtFirst(cfg.l2, start);
    while i < |ps|
      invariant 0 <= i <= |ps|
      invariant cfg.Mapping() && cfg.pages == PeripheralMap(ps[..i], old(cfg.pages))
                  && Extends(cfg.pages, old(cfg.pages))
      invariant cfg.TopPage() <= start && cfg.KeepsImage(m)
      invariant cfg.owned == old(cfg.owned) + PeripheralEntries(ps[..i], cfg.regions) + PageSpan(cfg.TopPage(), start)
      invariant old(Tight(cfg.l2, cfg.pages)) ==> Tight(cfg.l2, cfg.pages)
      invariant cfg.Spare(gs) == old(cfg.Spare(gs)) && cfg.GrownTables(old(cfg.l2), start)
      invariant forall k :: 0 <= k < i ==> Tracked(cfg.regions, ps[k].phys, ps[k].pages)
    {
      ghost var top, owned, pages, now, l2 := cfg.TopPage(), cfg.owned, cfg.pages, cfg.Mem(), cfg.l2;
      OnePeripheral(ps, old(cfg.pages), cfg.regions, i);
      if fits {
        NextClear(ps, old(cfg.pages), i);
      }
      var p := ps[i];
      :- MapDevice(cfg, p, gs);
      ExtendsThen(cfg.pages, pages, old(cfg.pages));
      KeptSince(cfg, m, now, top);
      GrownThen(old(cfg.l2), start, l2, top, cfg.l2, cfg.TopPage());
      PeripheralSpans(old(cfg.owned), PeripheralEntries(ps[..i], cfg.regions), EntrySpan(cfg.regions, p.phys, p.pages),
          cfg.TopPage(), top, start);
      i := i + 1;
    }
    assert ps[..i] == ps;
    return Done;
  }

  lemma NoPeripherals(pages: PageMap, regions: seq<Range>)
    ensures PeripheralMap([], pages) == pages && PeripheralEntries([], regions) == {}
  {
  }

  lemma OnePeripheral(ps: seq<Peripheral>, pages: PageMap, regions: seq<Range>, i: nat)
    requires i < |ps|
    ensures PeripheralMap(ps[..i + 1], pages)
         == PeripheralMap(ps[..i], pages) + RangeMap(ps[i].virt, ps[i].phys, ps[i].pages, DEVICE_FLAGS)
    ensures PeripheralEntries(ps[..i + 1], regions)
         == PeripheralEntries(ps[..i], regions) + EntrySpan(regions, ps[i].phys, ps[i].pages)
  {
    hide RangeMap, EntrySpan;
    assert ps[..i + 1][..i] == ps[..i];
  }

  lemma KeptAtFirst(cfg: BootConfig)
    requires cfg.ram.Length == RAM_WORDS
    ensures cfg.KeepsImage(cfg.Mem()) && cfg.OnlyTables(cfg.Mem())
  {
  }

  lemma GrownAtFirst(l2: map<int, PageIndex>, top: int)
    ensures Grown(l2, top, l2, top)
  {
  }

  /** What was kept up to a point and from there on was kept throughout. */
  lemma KeptSince(cfg: BootConfig, m0: Ram, m1: Ram, top1: int)
    requires cfg.ram.Length == RAM_WORDS && cfg.TopPage() <= top1
    requires Kept(m0, m1, cfg.l1 + 4, top1, cfg.TrackerPage(), cfg.rptPages) && cfg.KeepsImage(m1)
    ensures cfg.KeepsImage(m0)
  {
    hide Kept;
    KeptThen(m0, m1, cfg.Mem(), cfg.l1 + 4, top1, cfg.TopPage(), cfg.TrackerPage(), cfg.rptPages);
  }

  lemma ExtendsItself(a: PageMap)
    ensures Extends(a, a)
  {
  }

  lemma ExtendsThen(a: PageMap, b: PageMap, c: PageMap)
    requires Extends(a, b) && Extends(b, c)
    ensures Extends(a, c)
  {
  }

  lemma EmptySpan(t: int)
    ensures PageSpan(t, t) == {}
  {
  }

  lemma PeripheralSpans(owned: set<int>, a: set<int>, b: set<int>, t2: int, t1: int, t0: int)
    requires t2 <= t1 <= t0
    ensures owned + a + PageSpan(t1, t0) + b + PageSpan(t2, t1) == owned + (a + b) + PageSpan(t2, t0)
  {
  }

  // ---- the ICM pages ----

  /** Store a word into an allocated page that holds no table. */
  method WriteData(cfg: BootConfig, addr: Word, v: Word, ghost p: PageIndex, ghost j: nat)
    requires cfg.Mapping() && j < PAGE_WORDS && addr == AddrOf(p) + 4 * j
    requires cfg.TopPage() <= p < cfg.l1 && !IsTablePage(cfg.l1, cfg.l2, p)
    modifies cfg.ram
    ensures cfg.Mapping() && cfg.KeepsImage(old(cfg.Mem()))
    ensures Page(cfg.Mem(), p) == Page(old(cfg.Mem()), p)[j := v]
  {
    hide Tables, Tracks, RegionPages, WholePages;
    StorePages(cfg.Mem(), p, j, v);
    cfg.Write(addr, v, p, j);
    TablesFrame(old(cfg.Mem()), cfg.Mem(), cfg.l1, cfg.l2, cfg.pages, cfg.sections);
    TracksFrame(old(cfg.Mem()), cfg.Mem(), cfg.TrackerPage(), cfg.rptPages, cfg.trackerLen, cfg.owned);
  }

  /** The first page for the integrity monitor, with the kernel's text range. */
  method MapIcmDesc(cfg: BootConfig, textStart: Word, textSize: Word, ghost gs: set<int>) returns (r: Outcome)
    requires cfg.Mapping() && cfg.sections == map[] && cfg.TopPage() <= cfg.TrackerPage()
    requires Covers(gs, ICM_KERNEL_DESC_AREA_ADDR, 1)
    modifies cfg.ram, cfg`extraPages, cfg`owned, cfg`l2, cfg`pages
    ensures r.Done? ==> 0 < old(cfg.TopPage()) && !IsTablePage(cfg.l1, cfg.l2, old(cfg.TopPage()) - 1)
    ensures r.Done? ==>
              cfg.Mapping() && cfg.pages == old(cfg.pages)
              + RangeMap(ICM_KERNEL_DESC_AREA_ADDR, AddrOf(old(cfg.TopPage()) - 1), 1, DATA_FLAGS)
    ensures r.Done? ==>
              Page(cfg.Mem(), old(cfg.TopPage()) - 1)[0] == textStart
              && Page(cfg.Mem(), old(cfg.TopPage()) - 1)[1] == textSize
    ensures r.Done? ==>
              cfg.TopPage() < old(cfg.TopPage()) && cfg.KeepsImage(old(cfg.Mem()))
              && Extends(cfg.pages, old(cfg.pages))
    ensures r.Done? ==> cfg.owned == old(cfg.owned) + PageSpan(cfg.TopPage(), old(cfg.TopPage()))
    ensures r.Done? && old(Tight(cfg.l2, cfg.pages)) ==> Tight(cfg.l2, cfg.pages)
    ensures r.Done? ==> cfg.GrownTables(old(cfg.l2), old(cfg.TopPage()))
    ensures r.Done? ==> cfg.Spare(gs) == old(cfg.Spare(gs)) - 1
    ensures VirtFree(old(cfg.pages), ICM_KERNEL_DESC_AREA_ADDR, 1) && old(cfg.Spare(gs)) > 1 ==> r.Done?
  {
    hide Tables, Tracks, RegionPages, WholePages, EntryOf, StepAddr, RangeMap, Page, PageSpan, Tight, VirtFree, Covers,
         Missing;
    ghost var desc := cfg.TopPage() - 1;
    var phys;
    phys :- MapFresh(cfg, ICM_KERNEL_DESC_AREA_ADDR, DATA_FLAGS, gs);
    WriteData(cfg, phys, textStart, desc, 0);
    WriteData(cfg, phys + 4, textSize, desc, 1);
    return Done;
  }

  /** The second page; the first one keeps its content. */
  method MapIcmHash(cfg: BootConfig, ghost desc: PageIndex, ghost gs: set<int>) returns (r: Outcome)
    requires cfg.Mapping() && cfg.sections == map[] && cfg.TopPage() <= desc < cfg.TrackerPage()
    requires Covers(gs, ICM_KERNEL_HASH_AREA_ADDR, 1) && !IsTablePage(cfg.l1, cfg.l2, desc)
    modifies cfg.ram, cfg`extraPages, cfg`owned, cfg`l2, cfg`pages
    ensures r.Done? ==> 0 < old(cfg.TopPage())
    ensures r.Done? ==>
              cfg.Mapping() && cfg.pages == old(cfg.pages)
              + RangeMap(ICM_KERNEL_HASH_AREA_ADDR, AddrOf(old(cfg.TopPage()) - 1), 1, HASH_FLAGS)
    ensures r.Done? ==> Page(cfg.Mem(), desc) == Page(old(cfg.Mem()), desc)
    ensures r.Done? ==>
              cfg.TopPage() < old(cfg.TopPage()) && cfg.KeepsImage(old(cfg.Mem()))
              && Extends(cfg.pages, old(cfg.pages))
    ensures r.Done? ==> cfg.owned == old(cfg.owned) + PageSpan(cfg.TopPage(), old(cfg.TopPage()))
    ensures r.Done? && old(Tight(cfg.l2, cfg.pages)) ==> Tight(cfg.l2, cfg.pages)
    ensures r.Done? ==> cfg.GrownTables(old(cfg.l2), old(cfg.TopPage()))
    ensures r.Done? ==> !IsTablePage(cfg.l1, cfg.l2, old(cfg.TopPage()) - 1)
    ensures r.Done? ==> cfg.Spare(gs) == old(cfg.Spare(gs)) - 1
    ensures VirtFree(old(cfg.pages), ICM_KERNEL_HASH_AREA_ADDR, 1) && old(cfg.Spare(gs)) > 1 ==> r.Done?
  {
    hide Tables, Tracks, RegionPages, WholePages, EntryOf, StepAddr, RangeMap, Page, PageSpan, Tight, VirtFree, Covers,
         Missing;
    var phys;
    phys :- MapFresh(cfg, ICM_KERNEL_HASH_AREA_ADDR, HASH_FLAGS, gs);
    return Done;
  }

  ghost predicate CoversIcm(gs: set<int>) {
    Covers(gs, ICM_KERNEL_DESC_AREA_ADDR, 1) && Covers(gs, ICM_KERNEL_HASH_AREA_ADDR, 1)
  }

  /** Map two fresh pages for the integrity monitor and leave the kernel's text range in the first. */
  method MapIcmRegions(cfg: BootConfig, textStart: Word, textSize: Word, ghost gs: set<int>)
    returns (r: Outcome, ghost desc: PageIndex, ghost hash: PageIndex)
    requires cfg.Mapping() && cfg.sections == map[] && cfg.TopPage() <= cfg.TrackerPage()
    requires CoversIcm(gs)
    modifies cfg.ram, cfg`extraPages, cfg`owned, cfg`l2, cfg`pages
    ensures r.Done? ==> cfg.Mapping() && cfg.pages == old(cfg.pages)
                                                      + RangeMap(ICM_KERNEL_DESC_AREA_ADDR, AddrOf(desc), 1, DATA_FLAGS)
                                                      + RangeMap(ICM_KERNEL_HASH_AREA_ADDR, AddrOf(hash), 1, HASH_FLAGS)
    ensures r.Done? ==> cfg.TopPage() <= old(cfg.TopPage()) && cfg.KeepsImage(old(cfg.Mem()))
    ensures r.Done? ==> cfg.owned == old(cfg.owned) + PageSpan(cfg.TopPage(), old(cfg.TopPage()))
    ensures r.Done? ==> Extends(cfg.pages, old(cfg.pages))
    ensures r.Done? ==> Page(cfg.Mem(), desc)[0] == textStart && Page(cfg.Mem(), desc)[1] == textSize
    ensures r.Done? && old(Tight(cfg.l2, cfg.pages)) ==> Tight(cfg.l2, cfg.pages)
    ensures r.Done? ==> cfg.GrownTables(old(cfg.l2), old(cfg.TopPage()))
    ensures r.Done? ==> cfg.TopPage() <= hash < desc < old(cfg.TopPage())
    ensures r.Done? ==> NoTables(cfg.l2, desc, 1) && NoTables(cfg.l2, hash, 1)
    ensures r.Done? ==> cfg.Spare(gs) == old(cfg.Spare(gs)) - 2
    ensures Clear(old(cfg.pages), ICM_KERNEL_DESC_AREA_ADDR, 1) && Clear(old(cfg.pages), ICM_KERNEL_HASH_AREA_ADDR, 1)
              && old(cfg.Spare(gs)) > 2 ==>
            r.Done?
  {
    hide Tables, Tracks, RegionPages, WholePages, EntryOf, StepAddr, RangeMap, Page, PageSpan, Tight, Clear, VirtFree,
         Extends, Kept, Covers, Missing, IsTablePage, Grown, NoTables;
    desc, hash := 0, 0;
    ghost var start, owned, was, m0, l0 := cfg.TopPage(), cfg.owned, cfg.pages, cfg.Mem(), cfg.l2;
    if Clear(was, ICM_KERNEL_DESC_AREA_ADDR, 1) && Clear(was, ICM_KERNEL_HASH_AREA_ADDR, 1) {
      IcmRoom(was, start - 1);
    }
    :- MapIcmDesc(cfg, textStart, textSize, gs);
    desc := start - 1;
    ghost var t1, withDesc, m1, l2 := cfg.TopPage(), cfg.pages, cfg.Mem(), cfg.l2;
    NotATable(cfg.l1, l2, desc);
    :- MapIcmHash(cfg, desc, gs);
    hash := t1 - 1;
    NotATable(cfg.l1, cfg.l2, hash);
    StillNoTables(l2, t1, cfg.l2, cfg.TopPage(), desc, 1);
    GrownThen(l0, start, l2, t1, cfg.l2, cfg.TopPage());
    ExtendsThen(cfg.pages, withDesc, was);
    KeptSince(cfg, m0, m1, t1);
    SpanJoin(owned, cfg.TopPage(), t1, start);
    return Done, desc, hash;
  }

  /** Both pages are free, also the second one after the first one is mapped. */
  lemma IcmRoom(pages: PageMap, desc: int)
    requires Clear(pages, ICM_KERNEL_DESC_AREA_ADDR, 1) && Clear(pages, ICM_KERNEL_HASH_AREA_ADDR, 1)
    ensures VirtFree(pages, ICM_KERNEL_DESC_AREA_ADDR, 1)
    ensures 0 <= desc < RAM_PAGES ==>
              VirtFree(pages + RangeMap(ICM_KERNEL_DESC_AREA_ADDR, AddrOf(desc), 1, DATA_FLAGS),
                  ICM_KERNEL_HASH_AREA_ADDR, 1)
  {
    hide RangeMap, Clear, VirtFree;
    ClearIsFree(pages, ICM_KERNEL_DESC_AREA_ADDR, 1);
    if 0 <= desc < RAM_PAGES {
      ClearRange(pages, ICM_KERNEL_DESC_AREA_ADDR, AddrOf(desc), 1, DATA_FLAGS, ICM_KERNEL_HASH_AREA_ADDR, 1);
      ClearIsFree(pages + RangeMap(ICM_KERNEL_DESC_AREA_ADDR, AddrOf(desc), 1, DATA_FLAGS), ICM_KERNEL_HASH_AREA_ADDR,
          1);
    }
  }

  // ---- the window onto all of RAM ----

  const WINDOW_ACCESS := Access(true, true, false, false, Cached)

  /** The first `n` sections of the window. */
  function RamWindow(n: nat): SectionMap {
    map i: int | 0xA00 <= i < 0xA00 + n && InWindow(i, n) ::
      SectionMapping(0x400 + (i - 0xA00), Access(true, true, false, false, Cached))
  }

  predicate InWindow(i: int, n: nat) {
    0xA00 <= i < 0xA00 + n
  }

  method MapPhysicalRam(cfg: BootConfig) returns (r: Outcome)
    requires cfg.Mapping() && cfg.sections == map[]
    modifies cfg.ram, cfg`sections
    ensures r.Done? ==> cfg.Mapping() && cfg.sections == RamWindow(0x80) && cfg.KeepsImage(old(cfg.Mem()))
    ensures r.Done? ==> cfg.OnlyTables(old(cfg.Mem()))
    ensures r.Done? ==> WindowShown(cfg.Mem(), cfg.ttbr0)
    ensures Tight(cfg.l2, old(cfg.pages)) && Clear(old(cfg.pages), MAPPED_PHYSICAL_RAM, RAM_PAGES) ==> r.Done?
  {
    hide Tables, Tracks, RegionPages, WholePages, Page, Tight, Clear, Kept, TablesOnly, RamWindow, WindowShown;
    var section := 0;
    ghost var m := cfg.Mem();
    KeptAtFirst(cfg);
    EmptyWindow();
    while section < RAM_SIZE
      invariant 0 <= section <= RAM_SIZE && section % 0x10_0000 == 0
      invariant cfg.Mapping() && cfg.sections == RamWindow(section / 0x10_0000)
      invariant cfg.KeepsImage(m) && cfg.OnlyTables(m)
    {
      ghost var now, l2 := cfg.Mem(), cfg.l2;
      :- MapWindowSection(cfg, section);
      KeptSince(cfg, m, now, cfg.TopPage());
      GrownAtFirst(l2, cfg.TopPage());
      TablesOnlyThen(m, now, cfg.Mem(), cfg.l1, l2, cfg.TopPage(), l2, cfg.TopPage(), cfg.TrackerPage(), cfg.rptPages);
      section := section + 0x10_0000;
    }
    WindowIsShown(cfg.Mem(), cfg.l1, cfg.l2, cfg.pages);
    return Done;
  }

  lemma EmptyWindow()
    ensures RamWindow(0) == map[]
  {
  }

  /** One megabyte of the window. */
  method MapWindowSection(cfg: BootConfig, section: nat) returns (r: Outcome)
    requires cfg.Mapping() && section < RAM_SIZE && section % 0x10_0000 == 0
    requires cfg.sections == RamWindow(section / 0x10_0000)
    modifies cfg.ram, cfg`sections
    ensures r.Done? ==> cfg.Mapping() && cfg.sections == RamWindow((section + 0x10_0000) / 0x10_0000)
    ensures r.Done? ==> cfg.KeepsImage(old(cfg.Mem())) && cfg.OnlyTables(old(cfg.Mem()))
    ensures Tight(cfg.l2, cfg.pages) && Clear(cfg.pages, MAPPED_PHYSICAL_RAM, RAM_PAGES) ==> r.Done?
  {
    hide Tables, Tracks, RegionPages, WholePages, Page, Tight, Clear;
    ghost var k := section / 0x10_0000;
    WindowAddress(section, k);
    if Tight(cfg.l2, cfg.pages) && Clear(cfg.pages, MAPPED_PHYSICAL_RAM, RAM_PAGES) {
      WindowGroup(cfg.l2, cfg.pages, k);
    }
    :- cfg.MapSection(ENCRYPTED_DRAM_BASE + section, MAPPED_PHYSICAL_RAM + section, DATA_FLAGS);
    assert cfg.sections == RamWindow(k + 1);
    return Done;
  }

  /** The kernel sees all of RAM, byte by byte and in order, through the window; nobody else does. */
  ghost predicate WindowShown(m: Ram, ttbr: Word) {
    forall o: nat {:trigger WindowByte(o)} :: o < RAM_SIZE ==>
      Walk(m, ttbr, WindowByte(o)) == ToSection(ENCRYPTED_DRAM_BASE + o, WINDOW_ACCESS, true)
  }

  function WindowByte(o: nat): Word
    requires o < RAM_SIZE
  {
    MAPPED_PHYSICAL_RAM + o
  }

  lemma WindowIsShown(m: Ram, l1: PageIndex, l2: map<int, PageIndex>, pages: PageMap)
    requires Tables(m, l1, l2, pages, RamWindow(0x80))
    ensures WindowShown(m, AddrOf(l1))
  {
    hide Walk;
    forall o: nat | o < RAM_SIZE
      ensures Walk(m, AddrOf(l1), WindowByte(o)) == ToSection(ENCRYPTED_DRAM_BASE + o, WINDOW_ACCESS, true)
    {
      ShownByte(m, l1, l2, pages, o);
    }
  }

  lemma ShownByte(m: Ram, l1: PageIndex, l2: map<int, PageIndex>, pages: PageMap, o: nat)
    requires Tables(m, l1, l2, pages, RamWindow(0x80)) && o < RAM_SIZE
    ensures Walk(m, AddrOf(l1), WindowByte(o)) == ToSection(ENCRYPTED_DRAM_BASE + o, WINDOW_ACCESS, true)
  {
    hide Walk, Tables;
    var va, k := WindowByte(o), o / 0x10_0000;
    WalkIsLookup(m, l1, l2, pages, RamWindow(0x80), va);
    Euclid(va, 0x10_0000, 0xA00 + k, o % 0x10_0000);
    NoPageBesideSection(m, l1, l2, pages, RamWindow(0x80), va);
  }

  /** Where a section is mapped no page is. */
  lemma NoPageBesideSection(m: Ram, l1: PageIndex, l2: map<int, PageIndex>, pages: PageMap, sections: SectionMap,
                            va: Word)
    requires Tables(m, l1, l2, pages, sections) && va / 0x10_0000 in sections
    ensures va / 0x1000 !in pages
  {
    hide L1Holds, L2Holds;
    SameGroup(va);
  }

  /** No group of the window has tables. */
  lemma WindowGroup(l2: map<int, PageIndex>, pages: PageMap, k: nat)
    requires Tight(l2, pages) && Clear(pages, MAPPED_PHYSICAL_RAM, RAM_PAGES) && k < 0x80
    ensures (0xA00 + k) / 4 !in l2
  {
    var g := (0xA00 + k) / 4;
    forall v | v in pages
      ensures v / PAGE_WORDS != g
    {
      assert !(MAPPED_PHYSICAL_RAM / PAGE_SIZE <= v < MAPPED_PHYSICAL_RAM / PAGE_SIZE + RAM_PAGES);
    }
  }

  lemma WindowAddress(section: nat, k: nat)
    requires section == k * 0x10_0000
    ensures (ENCRYPTED_DRAM_BASE + section) % 0x10_0000 == 0 && (MAPPED_PHYSICAL_RAM + section) % 0x10_0000 == 0
    ensures (ENCRYPTED_DRAM_BASE + section) / 0x10_0000 == 0x400 + k
    ensures (MAPPED_PHYSICAL_RAM + section) / 0x10_0000 == 0xA00 + k
    ensures (section + 0x10_0000) / 0x10_0000 == k + 1 && (section + 0x10_0000) % 0x10_0000 == 0
  {
    Euclid(ENCRYPTED_DRAM_BASE + section, 0x10_0000, 0x400 + k, 0);
    Euclid(MAPPED_PHYSICAL_RAM + section, 0x10_0000, 0xA00 + k, 0);
    Euclid(section + 0x10_0000, 0x10_0000, k + 1, 0);
  }

  /** The pages mapped after the window lie in other groups. */
  lemma WindowFree(virt: Word, n: nat)
    requires virt + n * PAGE_SIZE <= MAPPED_PHYSICAL_RAM
    ensures SectionFree(RamWindow(0x80), virt, n)
  {
    forall i, k | i in RamWindow(0x80) && 0 <= k < n
      ensures i / 4 != StepAddr(virt, k) / 0x10_0000 / 4
    {
      var a := virt + k * PAGE_SIZE;
      Euclid(a, ADDRESS_SPACE, 0, a);
      assert a / 0x10_0000 < 0xA00;
    }
  }

  // ---- the kernel as the processor sees it ----

  /** Byte `i` of RAM. */
  function RamByte(m: Ram, i: nat): int
    requires i < RAM_SIZE
  {
    ByteOf(m[i / 4], i % 4)
  }

  /** A privileged read of one byte through the translation tables; nothing unless it hits DRAM, in
      either view. */
  function ReadVirtual(m: Ram, ttbr: Word, va: Word): Option<int> {
    match Walk(m, ttbr, va)
    case ToPage(phys, access, _, _) =>
      if access.privRead && phys < ADDRESS_SPACE && InEncrypted(DramView(phys)) then
        Some(ByteOf(Load(m, DramView(phys)), phys % 4))
      else None
    case _ => None
  }

  /** Virtual address of byte `o` of a segment. */
  function ByteAddr(virt: Word, o: nat): Word {
    (virt + o) % ADDRESS_SPACE
  }

  lemma ByteAddrParts(virt: Word, o: nat)
    requires virt % PAGE_SIZE == 0
    ensures ByteAddr(virt, o) / PAGE_SIZE == (virt / PAGE_SIZE + o / PAGE_SIZE) % PAGE_NUMBERS
    ensures ByteAddr(virt, o) % PAGE_SIZE == o % PAGE_SIZE
  {
    var page, k, off := virt / PAGE_SIZE, o / PAGE_SIZE, o % PAGE_SIZE;
    var q, r := (page + k) / PAGE_NUMBERS, (page + k) % PAGE_NUMBERS;
    Euclid(virt + o, ADDRESS_SPACE, q, r * PAGE_SIZE + off);
    Euclid(r * PAGE_SIZE + off, PAGE_SIZE, r, off);
  }

  /** The walk of a byte of a mapped run of DRAM pages. */
  lemma SegmentWalk(m: Ram, l1: PageIndex, l2: map<int, PageIndex>, pages: PageMap, sections: SectionMap,
                    virt: Word, phys: Word, n: nat, f: Flags, o: nat)
    requires Tables(m, l1, l2, pages, sections)
    requires virt % PAGE_SIZE == 0 && phys % PAGE_SIZE == 0
    requires phys + n * PAGE_SIZE <= ADDRESS_SPACE && o < n * PAGE_SIZE
    requires Extends(pages, RangeMap(virt, phys, n, f))
    ensures Walk(m, AddrOf(l1), ByteAddr(virt, o))
         == ToPage(phys + o, Requested(f), f.x, IsGlobal(ByteAddr(virt, o) / 0x10_0000))
  {
    hide Tables, Walk;
    var k, va := o / PAGE_SIZE, ByteAddr(virt, o);
    ByteAddrParts(virt, o);
    BehindStep(va / PAGE_SIZE, virt / PAGE_SIZE, k);
    assert va / PAGE_SIZE in RangeMap(virt, phys, n, f);
    Euclid(phys / PAGE_SIZE + k, PAGE_NUMBERS, 0, phys / PAGE_SIZE + k);
    WalkIsLookup(m, l1, l2, pages, sections, va);
    assert pages[va / 0x1000] == PageMapping(phys / PAGE_SIZE + k, Requested(f), f.x);
  }

  lemma SegmentByte(m: Ram, first: PageIndex, n: nat, src: Ram, at: nat, words: nat, o: nat)
    requires first + n <= RAM_PAGES && at + words <= RAM_WORDS && o < n * PAGE_SIZE
    requires LoadedAt(m, first, n, src, at, words)
    ensures var phys := AddrOf(first) + o;
            && InEncrypted(phys)
            && ByteOf(Load(m, phys), phys % 4) == if o < 4 * words then RamByte(src, 4 * at + o) else 0
  {
    var phys := AddrOf(first) + o;
    var k, off := o / PAGE_SIZE, o % PAGE_SIZE;
    var j := off / 4;
    CellOf(o);
    Euclid(o, 4, k * PAGE_WORDS + j, o % 4);
    Euclid(phys - ENCRYPTED_DRAM_BASE, 4, (first + k) * PAGE_WORDS + j, o % 4);
    Euclid(phys, 4, ENCRYPTED_DRAM_BASE / 4 + (first + k) * PAGE_WORDS + j, o % 4);
    Euclid(4 * at + o, 4, at + o / 4, o % 4);
    assert Page(m, first + k)[j] == ImageWord(src, at, words, k * PAGE_WORDS + j);
    assert Load(m, phys) == Page(m, first + k)[j];
    ZeroBytes(o % 4);
  }

  lemma ZeroBytes(i: nat)
    requires i < 4
    ensures ByteOf(0, i) == 0
  {
  }

  /** At hand-off the kernel finds, byte by byte, its text, its data, and zeros for its bss; text is
      executable and not writable, data is writable and not executable. */
  lemma KernelVisible(m: Ram, l1: PageIndex, l2: map<int, PageIndex>, pages: PageMap, sections: SectionMap,
                      k: ProgramDescription, data: PageIndex, src: Ram, at: nat, o: nat)
    requires Tables(m, l1, l2, pages, sections)
    requires data + k.DataPages() + k.TextPages() <= RAM_PAGES && data + k.DataPages() < RAM_PAGES
    requires at + k.textSize / 4 + k.dataSize / 4 <= RAM_WORDS && k.WholeWords()
    requires k.textOffset % PAGE_SIZE == 0 && k.dataOffset % PAGE_SIZE == 0
    requires KernelIn(pages, k, data) && ImageIn(m, data, k, src, at)
    ensures o < k.textSize ==>
              && ReadVirtual(m, AddrOf(l1), ByteAddr(k.textOffset, o)) == Some(RamByte(src, 4 * at + o))
              && Executable(m, AddrOf(l1), ByteAddr(k.textOffset, o))
    ensures o < k.dataSize + k.bssSize ==>
              && ReadVirtual(m, AddrOf(l1), ByteAddr(k.dataOffset, o))
                 == Some(if o < k.dataSize then RamByte(src, 4 * at + k.textSize + o) else 0)
              && Writable(m, AddrOf(l1), ByteAddr(k.dataOffset, o))
  {
    hide Tables, Walk, RangeMap, Load, ByteOf, LoadedAt, ReadVirtual, ByteAddr, RamByte, Extends;
    if o < k.textSize {
      PagesCover(k.textSize);
      SegmentVisible(m, l1, l2, pages, sections, k.textOffset, data + k.DataPages(), k.TextPages(), TEXT_FLAGS, src, at,
                     k.textSize / 4, o);
    }
    if o < k.dataSize + k.bssSize {
      PagesCover(k.dataSize + k.bssSize);
      SegmentVisible(m, l1, l2, pages, sections, k.dataOffset, data, k.DataPages(), DATA_FLAGS, src,
                     at + k.textSize / 4, k.dataSize / 4, o);
    }
  }

  /** A byte of a segment, as the tables show it. */
  lemma SegmentVisible(m: Ram, l1: PageIndex, l2: map<int, PageIndex>, pages: PageMap, sections: SectionMap,
                       virt: Word, first: PageIndex, n: nat, f: Flags, src: Ram, at: nat, words: nat, o: nat)
    requires Tables(m, l1, l2, pages, sections) && virt % PAGE_SIZE == 0 && Requested(f).privRead
    requires first + n <= RAM_PAGES && at + words <= RAM_WORDS && o < n * PAGE_SIZE
    requires Extends(pages, RangeMap(virt, AddrOf(first), n, f)) && LoadedAt(m, first, n, src, at, words)
    ensures Walk(m, AddrOf(l1), ByteAddr(virt, o))
         == ToPage(AddrOf(first) + o, Requested(f), f.x, IsGlobal(ByteAddr(virt, o) / 0x10_0000))
    ensures ReadVirtual(m, AddrOf(l1), ByteAddr(virt, o)) == Some(if o < 4 * words then RamByte(src, 4 * at + o) else 0)
  {
    hide Tables, Walk, RangeMap, Load, ByteOf, LoadedAt, Extends, ByteAddr;
    SegmentWalk(m, l1, l2, pages, sections, virt, AddrOf(first), n, f, o);
    SegmentByte(m, first, n, src, at, words, o);
  }

  /** Every byte of text, data and bss reads through the tables as the image has it, with the
      access its segment is meant to have. */
  ghost predicate KernelReadable(m: Ram, ttbr: Word, k: ProgramDescription, src: Ram, at: nat)
    requires at + k.textSize / 4 + k.dataSize / 4 <= RAM_WORDS && k.WholeWords()
  {
    && (forall o: nat {:trigger ByteAddr(k.textOffset, o)} :: o < k.textSize ==>
          && ReadVirtual(m, ttbr, ByteAddr(k.textOffset, o)) == Some(RamByte(src, 4 * at + o))
          && Executable(m, ttbr, ByteAddr(k.textOffset, o)))
    && (forall o: nat {:trigger ByteAddr(k.dataOffset, o)} :: o < k.dataSize + k.bssSize ==>
          && ReadVirtual(m, ttbr, ByteAddr(k.dataOffset, o))
             == Some(if o < k.dataSize then RamByte(src, 4 * at + k.textSize + o) else 0)
          && Writable(m, ttbr, ByteAddr(k.dataOffset, o)))
  }

  /** Executable and not writable, by anyone. */
  predicate Executable(m: Ram, ttbr: Word, va: Word) {
    var t := Walk(m, ttbr, va);
    t.ToPage? && t.exec && !t.access.privWrite && !t.access.userWrite
  }

  /** Writable by the kernel only, and not executable. */
  predicate Writable(m: Ram, ttbr: Word, va: Word) {
    var t := Walk(m, ttbr, va);
    t.ToPage? && !t.exec && t.access.privWrite && !t.access.userWrite
  }

  /** The arguments start with a page of RAM and end below a page. */
  predicate ArgsBelow(base: Word, argsSize: Word, top: int) {
    && base % PAGE_SIZE == 0 && InEncrypted(DramView(base))
    && (DramView(base) - ENCRYPTED_DRAM_BASE) / PAGE_SIZE + PagesOf(argsSize) <= top <= RAM_PAGES
  }

  /** The kernel finds the arguments, byte by byte, as the loader found them. */
  lemma ArgVisible(m: Ram, l1: PageIndex, l2: map<int, PageIndex>, pages: PageMap, sections: SectionMap,
                   base: Word, argsSize: Word, src: Ram, top: int, o: nat)
    requires Tables(m, l1, l2, pages, sections)
    requires Extends(pages, RangeMap(KERNEL_ARGUMENT_OFFSET, base, PagesOf(argsSize), READ_FLAGS))
    requires ArgsBelow(base, argsSize, top) && Untouched(src, m, top) && o < argsSize
    ensures ArgReadable(m, AddrOf(l1), base, src, o)
  {
    hide Tables, Walk, RangeMap, ByteOf, Page;
    var d, n := DramView(base) - ENCRYPTED_DRAM_BASE, PagesOf(argsSize);
    ArgAddress(base, argsSize, top, o);
    SegmentWalk(m, l1, l2, pages, sections, KERNEL_ARGUMENT_OFFSET, base, n, READ_FLAGS, o);
    WordKept(src, m, (d + o) / 4, top);
  }

  /** The addresses of a byte of the arguments, in the view they were given in and in RAM. */
  lemma ArgAddress(base: Word, argsSize: Word, top: int, o: nat)
    requires ArgsBelow(base, argsSize, top) && o < argsSize
    ensures var d := DramView(base) - ENCRYPTED_DRAM_BASE;
            && 0 <= d && o < PagesOf(argsSize) * PAGE_SIZE && base + PagesOf(argsSize) * PAGE_SIZE <= ADDRESS_SPACE
            && d + o < RAM_SIZE && (d + o) / 4 < top * PAGE_WORDS
            && DramView(base + o) == DramView(base) + o && InEncrypted(DramView(base + o))
            && (base + o) % 4 == (d + o) % 4
  {
    hide DramView, PagesOf;
    var d, n := DramView(base) - ENCRYPTED_DRAM_BASE, PagesOf(argsSize);
    var q := d / PAGE_SIZE;
    PagesCover(argsSize);
    ViewKeepsOffset(base, 0);
    assert d == q * PAGE_SIZE;
    assert d + o < (q + n) * PAGE_SIZE <= top * PAGE_SIZE;
    ViewKeepsOffset(base, o);
  }

  lemma PagesCover(size: nat)
    ensures size <= PagesOf(size) * PAGE_SIZE
  {
  }

  /** The two views agree on the offset of an address that stays in DRAM, and on its alignment. */
  lemma ViewKeepsOffset(base: Word, o: nat)
    requires base % PAGE_SIZE == 0 && InEncrypted(DramView(base)) && DramView(base) + o < ENCRYPTED_DRAM_END
    ensures base + o < ADDRESS_SPACE && DramView(base + o) == DramView(base) + o
    ensures base - PLAINTEXT_DRAM_BASE == DramView(base) - ENCRYPTED_DRAM_BASE || base == DramView(base)
    ensures (DramView(base) - ENCRYPTED_DRAM_BASE) % PAGE_SIZE == 0
    ensures (base + o) % 4 == (DramView(base) - ENCRYPTED_DRAM_BASE + o) % 4
  {
    if InPlaintext(base) {
      Euclid(base, PLAINTEXT_DRAM_BASE, 1, base - PLAINTEXT_DRAM_BASE);
      Euclid(base + o, PLAINTEXT_DRAM_BASE, 1, base + o - PLAINTEXT_DRAM_BASE);
    }
    var p := base / PAGE_SIZE;
    assert base == p * PAGE_SIZE;
    var q := if InPlaintext(base) then p - 0x2_0000 else p - 0x4_0000;
    Euclid(DramView(base) - ENCRYPTED_DRAM_BASE, PAGE_SIZE, q, 0);
    Euclid(base + o, 4, p * 1024 + o / 4, o % 4);
    Euclid(DramView(base) - ENCRYPTED_DRAM_BASE + o, 4, q * 1024 + o / 4, o % 4);
  }

  /** No page below `top` has changed. */
  ghost predicate Untouched(m: Ram, m': Ram, top: int) {
    forall p: PageIndex :: p < top ==> Page(m', p) == Page(m, p)
  }

  lemma UntouchedThen(m0: Ram, m1: Ram, m2: Ram, top1: int, top2: int)
    requires Untouched(m0, m1, top1) && Untouched(m1, m2, top2) && top2 <= top1
    ensures Untouched(m0, m2, top2)
  {
    hide Page;
  }

  lemma KeptBelow(m: Ram, m': Ram, image: int, top: int, tracker: int, n: int)
    requires Kept(m, m', image, top, tracker, n) && top <= tracker
    ensures Untouched(m, m', top)
  {
    hide Page;
  }

  /** Every byte of the arguments reads through the tables as it was, and only the kernel can read it. */
  ghost predicate ArgsReadable(m: Ram, ttbr: Word, base: Word, argsSize: Word, src: Ram) {
    forall o: nat :: o < argsSize ==> ArgReadable(m, ttbr, base, src, o)
  }

  ghost predicate ArgReadable(m: Ram, ttbr: Word, base: Word, src: Ram, o: nat) {
    && 0 <= DramView(base) - ENCRYPTED_DRAM_BASE + o < RAM_SIZE
    && ReadVirtual(m, ttbr, ByteAddr(KERNEL_ARGUMENT_OFFSET, o))
       == Some(RamByte(src, DramView(base) - ENCRYPTED_DRAM_BASE + o))
    && ReadOnly(m, ttbr, ByteAddr(KERNEL_ARGUMENT_OFFSET, o))
  }

  /** Readable by the kernel only, and neither writable nor executable. */
  predicate ReadOnly(m: Ram, ttbr: Word, va: Word) {
    var t := Walk(m, ttbr, va);
    t.ToPage? && !t.exec && t.access == Access(true, false, false, false, Cached)
  }

  lemma ArgsAtHandOff(m: Ram, l1: PageIndex, l2: map<int, PageIndex>, pages: PageMap, sections: SectionMap,
                      base: Word, argsSize: Word, src: Ram, top: int)
    requires Tables(m, l1, l2, pages, sections)
    requires Extends(pages, RangeMap(KERNEL_ARGUMENT_OFFSET, base, PagesOf(argsSize), READ_FLAGS))
    requires Untouched(src, m, top)
    ensures ArgsBelow(base, argsSize, top) ==> ArgsReadable(m, AddrOf(l1), base, argsSize, src)
  {
    hide Tables, ArgReadable, RangeMap, PagesOf, ArgsBelow, Untouched, Extends;
    if ArgsBelow(base, argsSize, top) {
      forall o: nat | o < argsSize
        ensures ArgReadable(m, AddrOf(l1), base, src, o)
      {
        ArgVisible(m, l1, l2, pages, sections, base, argsSize, src, top, o);
      }
    }
  }

  // ---- the whole sequence ----

  /** Everything the loader maps with small pages after the kernel and before the RAM window. */
  function FixedMap(pages: PageMap, base: Word, argsSize: Word, tracker: Word, n: nat, desc: PageIndex,
                    hash: PageIndex): PageMap {
    PeripheralMap(PERIPHERALS,
                  pages + RangeMap(ALLOCATION_TRACKER_OFFSET, tracker, n, DATA_FLAGS)
                  + RangeMap(KERNEL_ARGUMENT_OFFSET, base, PagesOf(argsSize), READ_FLAGS))
    + RangeMap(ICM_KERNEL_DESC_AREA_ADDR, AddrOf(desc), 1, DATA_FLAGS)
    + RangeMap(ICM_KERNEL_HASH_AREA_ADDR, AddrOf(hash), 1, HASH_FLAGS)
  }

  /** The whole small-page map at hand-off, in the order in which it is built. */
  function BootMap(k: ProgramDescription, lay: BootLayout, base: Word, argsSize: Word, tracker: Word, n: nat,
                   desc: PageIndex, hash: PageIndex): PageMap
    requires lay.data + k.DataPages() < RAM_PAGES
  {
    FixedMap(KernelMap(k, lay), base, argsSize, tracker, n, desc, hash)
    + RangeMap(BOOT_SPLASH_FB, BOOT_SPLASH_PHYS_ADDR, BOOT_SPLASH_PAGES, SPLASH_FLAGS)
    + RangeMap(LOADER_CODE_ADDRESS, LOADER_CODE_ADDRESS, 1, TEXT_FLAGS)
  }

  /** The tracker entries owned at hand-off, apart from the run of RAM pages at the top. */
  function OutsideEntries(regions: seq<Range>, base: Word, argsSize: Word): set<int> {
    EntrySpan(regions, base, PagesOf(argsSize)) + PeripheralEntries(PERIPHERALS, regions) + {0}
  }

  ghost function FixedEntries(cfg: BootConfig, base: Word, argsSize: Word): set<int>
    reads cfg
  {
    PageSpan(cfg.TrackerPage(), cfg.TrackerPage() + cfg.rptPages)
    + EntrySpan(cfg.regions, base, PagesOf(argsSize)) + PeripheralEntries(PERIPHERALS, cfg.regions)
  }

  /** Room for everything that is mapped after the kernel and before the RAM window. */
  ghost predicate RoomForFixed(pages: PageMap, trackerPages: nat, argsPages: nat) {
    && Clear(pages, ALLOCATION_TRACKER_OFFSET, trackerPages) && Clear(pages, KERNEL_ARGUMENT_OFFSET, argsPages)
    && AllClear(pages, PERIPHERALS)
    && Clear(pages, ICM_KERNEL_DESC_AREA_ADDR, 1) && Clear(pages, ICM_KERNEL_HASH_AREA_ADDR, 1)
  }

  /** The arguments end before the thread context, and their frames and the devices' are tracked. */
  ghost predicate FramesTracked(regions: seq<Range>, base: Word, argsPages: nat) {
    && KERNEL_ARGUMENT_OFFSET + argsPages * PAGE_SIZE <= THREAD_CONTEXT_AREA
    && Tracked(regions, base, argsPages) && AllTracked(regions, PERIPHERALS)
  }

  lemma DevicesSeparate()
    ensures Separate(PERIPHERALS)
  {
  }

  lemma IcmOutside()
    ensures Outside(PERIPHERALS, ICM_KERNEL_DESC_AREA_ADDR, 1) && Outside(PERIPHERALS, ICM_KERNEL_HASH_AREA_ADDR, 1)
  {
    DevicesLow();
  }

  /** All device windows lie between the tracker and the kernel. */
  lemma DevicesLow()
    ensures forall i :: 0 <= i < |PERIPHERALS| ==>
              0xF_FC40 <= PERIPHERALS[i].virt / PAGE_SIZE
                  && PERIPHERALS[i].virt / PAGE_SIZE + PERIPHERALS[i].pages <= 0xF_FD00
  {
  }

  /** All that the mappings after the kernel and before the RAM window need. */
  ghost predicate FixedFits(pages: PageMap, regions: seq<Range>, trackerPages: nat, base: Word, argsPages: nat) {
    RoomForFixed(pages, trackerPages, argsPages) && FramesTracked(regions, base, argsPages) && trackerPages < 0x200
  }

  /** The tracker and the arguments leave room for the devices and the integrity monitor. */
  lemma RoomAfterArgs(pages: PageMap, tracker: Word, trackerPages: nat, base: Word, argsPages: nat)
    requires RoomForFixed(pages, trackerPages, argsPages) && trackerPages < 0x200
    requires KERNEL_ARGUMENT_OFFSET + argsPages * PAGE_SIZE <= THREAD_CONTEXT_AREA
    ensures Clear(pages + RangeMap(ALLOCATION_TRACKER_OFFSET, tracker, trackerPages, DATA_FLAGS),
              KERNEL_ARGUMENT_OFFSET, argsPages)
    ensures var now := pages + RangeMap(ALLOCATION_TRACKER_OFFSET, tracker, trackerPages, DATA_FLAGS)
                       + RangeMap(KERNEL_ARGUMENT_OFFSET, base, argsPages, READ_FLAGS);
            && AllClear(now, PERIPHERALS)
            && Clear(PeripheralMap(PERIPHERALS, now), ICM_KERNEL_DESC_AREA_ADDR, 1)
            && Clear(PeripheralMap(PERIPHERALS, now), ICM_KERNEL_HASH_AREA_ADDR, 1)
  {
    hide RangeMap, Clear, PeripheralMap;
    var one := pages + RangeMap(ALLOCATION_TRACKER_OFFSET, tracker, trackerPages, DATA_FLAGS);
    var now := one + RangeMap(KERNEL_ARGUMENT_OFFSET, base, argsPages, READ_FLAGS);
    IcmOutside();
    DevicesSeparate();
    ClearRange(pages, ALLOCATION_TRACKER_OFFSET, tracker, trackerPages, DATA_FLAGS, KERNEL_ARGUMENT_OFFSET, argsPages);
    forall i | 0 <= i < |PERIPHERALS|
      ensures Clear(now, PERIPHERALS[i].virt, PERIPHERALS[i].pages)
    {
      ClearAfterArgs(pages, tracker, trackerPages, base, argsPages, PERIPHERALS[i].virt, PERIPHERALS[i].pages);
    }
    ClearAfterArgs(pages, tracker, trackerPages, base, argsPages, ICM_KERNEL_DESC_AREA_ADDR, 1);
    ClearAfterArgs(pages, tracker, trackerPages, base, argsPages, ICM_KERNEL_HASH_AREA_ADDR, 1);
    ClearOfPeripherals(PERIPHERALS, now, ICM_KERNEL_DESC_AREA_ADDR, 1);
    ClearOfPeripherals(PERIPHERALS, now, ICM_KERNEL_HASH_AREA_ADDR, 1);
  }

  /** A run elsewhere is still clear after the tracker and the arguments. */
  lemma ClearAfterArgs(pages: PageMap, tracker: Word, trackerPages: nat, base: Word, argsPages: nat, virt: Word, n: nat)
    requires Clear(pages, virt, n) && trackerPages < 0x200
    requires KERNEL_ARGUMENT_OFFSET + argsPages * PAGE_SIZE <= THREAD_CONTEXT_AREA
    requires Disjoint(ALLOCATION_TRACKER_OFFSET, trackerPages, virt, n)
               && Disjoint(KERNEL_ARGUMENT_OFFSET, argsPages, virt, n)
    ensures Clear(pages + RangeMap(ALLOCATION_TRACKER_OFFSET, tracker, trackerPages, DATA_FLAGS)
                  + RangeMap(KERNEL_ARGUMENT_OFFSET, base, argsPages, READ_FLAGS), virt, n)
  {
    hide RangeMap, Clear;
    ClearRange(pages, ALLOCATION_TRACKER_OFFSET, tracker, trackerPages, DATA_FLAGS, virt, n);
    ClearRange(pages + RangeMap(ALLOCATION_TRACKER_OFFSET, tracker, trackerPages, DATA_FLAGS),
               KERNEL_ARGUMENT_OFFSET, base, argsPages, READ_FLAGS, virt, n);
  }

  /** The tracker's own pages and the kernel's arguments. */
  method MapTrackerAndArgs(cfg: BootConfig, base: Word, argsSize: Word, ghost gs: set<int>) returns (r: Outcome)
    requires cfg.Mapping() && cfg.sections == map[] && cfg.TopPage() <= cfg.TrackerPage()
    requires Covers(gs, ALLOCATION_TRACKER_OFFSET, cfg.rptPages)
    requires Covers(gs, KERNEL_ARGUMENT_OFFSET, PagesOf(argsSize))
    modifies cfg.ram, cfg`extraPages, cfg`owned, cfg`l2, cfg`pages
    ensures r.Done? ==> cfg.Mapping() && cfg.TopPage() <= old(cfg.TopPage()) && cfg.KeepsImage(old(cfg.Mem()))
    ensures r.Done? ==>
              cfg.pages == old(cfg.pages)
              + RangeMap(ALLOCATION_TRACKER_OFFSET, cfg.trackerBase, cfg.rptPages, DATA_FLAGS)
                                     + RangeMap(KERNEL_ARGUMENT_OFFSET, base, PagesOf(argsSize), READ_FLAGS)
    ensures r.Done? ==> Extends(cfg.pages, old(cfg.pages))
    ensures r.Done? ==> Extends(cfg.pages, RangeMap(KERNEL_ARGUMENT_OFFSET, base, PagesOf(argsSize), READ_FLAGS))
    ensures r.Done? ==> cfg.owned == old(cfg.owned) + PageSpan(cfg.TrackerPage(), cfg.TrackerPage() + cfg.rptPages)
                                     + EntrySpan(cfg.regions, base, PagesOf(argsSize))
                                     + PageSpan(cfg.TopPage(), old(cfg.TopPage()))
    ensures r.Done? && old(Tight(cfg.l2, cfg.pages)) ==> Tight(cfg.l2, cfg.pages)
    ensures r.Done? ==> cfg.GrownTables(old(cfg.l2), old(cfg.TopPage()))
    ensures r.Done? ==> cfg.Spare(gs) == old(cfg.Spare(gs))
    ensures r.Done? ==> Tracked(cfg.regions, base, PagesOf(argsSize))
    ensures r.Done? && THREAD_CONTEXT_AREA / PAGE_SIZE in old(cfg.pages) ==>
              KERNEL_ARGUMENT_OFFSET + PagesOf(argsSize) * PAGE_SIZE <= THREAD_CONTEXT_AREA
    ensures FixedFits(old(cfg.pages), cfg.regions, cfg.rptPages, base, PagesOf(argsSize)) && old(cfg.Spare(gs)) > 0 ==>
              r.Done?
  {
    hide Tables, Tracks, RegionPages, WholePages, EntryOf, StepAddr, RangeMap, Page, PageSpan, EntrySpan, SectionFree,
         Tight, Clear, Mappable, Tracked, AllTracked, AllClear, PeripheralMap, Kept, Covers, Missing, VirtFree, PagesOf,
         Grown;
    ghost var was, t0, o0, m0, l0 := cfg.pages, cfg.TopPage(), cfg.owned, cfg.Mem(), cfg.l2;
    Euclid(cfg.rptSizeBytes, PAGE_SIZE, cfg.rptPages, 0);
    var n := cfg.rptSizeBytes / PAGE_SIZE;
    NoSections(ALLOCATION_TRACKER_OFFSET, n);
    NoSections(KERNEL_ARGUMENT_OFFSET, PagesOf(argsSize));
    if FixedFits(was, cfg.regions, n, base, PagesOf(argsSize)) {
      ClearIsFree(was, ALLOCATION_TRACKER_OFFSET, n);
    }
    :- MapDram(cfg, cfg.trackerBase, ALLOCATION_TRACKER_OFFSET, n, DATA_FLAGS, cfg.TrackerPage(), gs);
    ghost var t1, o1, m1, withTracker, l2 := cfg.TopPage(), cfg.owned, cfg.Mem(), cfg.pages, cfg.l2;
    if FixedFits(was, cfg.regions, n, base, PagesOf(argsSize)) {
      RoomAfterArgs(was, cfg.trackerBase, n, base, PagesOf(argsSize));
      ClearIsFree(withTracker, KERNEL_ARGUMENT_OFFSET, PagesOf(argsSize));
    }
    ArgPages(argsSize);
    FreeMappable(withTracker, map[], cfg.regions, base, KERNEL_ARGUMENT_OFFSET, PagesOf(argsSize), READ_FLAGS);
    :- MapRange(cfg, base, KERNEL_ARGUMENT_OFFSET, PagesOf(argsSize), READ_FLAGS, gs);
    if THREAD_CONTEXT_AREA / PAGE_SIZE in was {
      ArgsEndBelow(withTracker, PagesOf(argsSize));
    }
    LowerTop(l2, t1, cfg.l2, cfg.TopPage());
    KeptSince(cfg, m0, m1, t1);
    GrownThen(l0, t0, l2, t1, cfg.l2, cfg.TopPage());
    TwoSpans(o0, o1, cfg.owned, t0, t1, cfg.TopPage(), PageSpan(cfg.TrackerPage(), cfg.TrackerPage() + cfg.rptPages),
             EntrySpan(cfg.regions, base, PagesOf(argsSize)));
    return Done;
  }

  lemma ArgPages(argsSize: Word)
    ensures PagesOf(argsSize) <= PAGE_NUMBERS
  {
  }

  /** Arguments that reach the thread context hit its page. */
  lemma ArgsEndBelow(pages: PageMap, n: nat)
    requires VirtFree(pages, KERNEL_ARGUMENT_OFFSET, n) && THREAD_CONTEXT_AREA / PAGE_SIZE in pages
    ensures KERNEL_ARGUMENT_OFFSET + n * PAGE_SIZE <= THREAD_CONTEXT_AREA
  {
    hide StepAddr;
    var k := (THREAD_CONTEXT_AREA - KERNEL_ARGUMENT_OFFSET) / PAGE_SIZE;
    StepPage(KERNEL_ARGUMENT_OFFSET, k);
  }

  /** Room for the devices and, after them, for the integrity monitor. */
  ghost predicate RoomForDevices(pages: PageMap, regions: seq<Range>) {
    && AllClear(pages, PERIPHERALS) && AllTracked(regions, PERIPHERALS)
    && Clear(PeripheralMap(PERIPHERALS, pages), ICM_KERNEL_DESC_AREA_ADDR, 1)
    && Clear(PeripheralMap(PERIPHERALS, pages), ICM_KERNEL_HASH_AREA_ADDR, 1)
  }

  /** The device windows and the pages of the integrity monitor. */
  method MapDevices(cfg: BootConfig, textStart: Word, textSize: Word, ghost gs: set<int>)
    returns (r: Outcome, ghost desc: PageIndex, ghost hash: PageIndex)
    requires cfg.Mapping() && cfg.sections == map[] && cfg.TopPage() <= cfg.TrackerPage()
    requires CoversAll(gs, PERIPHERALS) && CoversIcm(gs)
    modifies cfg.ram, cfg`extraPages, cfg`owned, cfg`l2, cfg`pages
    ensures r.Done? ==> cfg.Mapping() && cfg.TopPage() <= old(cfg.TopPage()) && cfg.KeepsImage(old(cfg.Mem()))
    ensures r.Done? ==>
              cfg.pages == PeripheralMap(PERIPHERALS, old(cfg.pages))
              + RangeMap(ICM_KERNEL_DESC_AREA_ADDR, AddrOf(desc), 1, DATA_FLAGS)
              + RangeMap(ICM_KERNEL_HASH_AREA_ADDR, AddrOf(hash), 1, HASH_FLAGS)
    ensures r.Done? ==> Extends(cfg.pages, old(cfg.pages))
    ensures r.Done? ==> Page(cfg.Mem(), desc)[0] == textStart && Page(cfg.Mem(), desc)[1] == textSize
    ensures r.Done? ==>
              cfg.owned == old(cfg.owned) + PeripheralEntries(PERIPHERALS, cfg.regions)
              + PageSpan(cfg.TopPage(), old(cfg.TopPage()))
    ensures r.Done? && old(Tight(cfg.l2, cfg.pages)) ==> Tight(cfg.l2, cfg.pages)
    ensures r.Done? ==> cfg.GrownTables(old(cfg.l2), old(cfg.TopPage()))
    ensures r.Done? ==> cfg.TopPage() <= hash < desc < old(cfg.TopPage())
    ensures r.Done? ==> NoTables(cfg.l2, desc, 1) && NoTables(cfg.l2, hash, 1)
    ensures r.Done? ==> cfg.Spare(gs) == old(cfg.Spare(gs)) - 2 && AllTracked(cfg.regions, PERIPHERALS)
    ensures RoomForDevices(old(cfg.pages), cfg.regions) && old(cfg.Spare(gs)) > 2 ==> r.Done?
  {
    hide Tables, Tracks, RegionPages, WholePages, EntryOf, StepAddr, RangeMap, Page, PageSpan, EntrySpan, SectionFree,
         PeripheralMap, PeripheralEntries, Tight, Clear, Tracked, AllTracked, AllClear, Separate, CoversAll, CoversIcm,
         Missing, Extends, Kept, Grown, NoTables;
    desc, hash := 0, 0;
    ghost var was, t0, o0, m0, l0 := cfg.pages, cfg.TopPage(), cfg.owned, cfg.Mem(), cfg.l2;
    DevicesSeparate();
    :- MapPeripherals(cfg, PERIPHERALS, gs);
    ghost var t1, withDevices, m1, l2 := cfg.TopPage(), cfg.pages, cfg.Mem(), cfg.l2;
    var icm;
    icm, desc, hash := MapIcmRegions(cfg, textStart, textSize, gs);
    :- icm;
    KeptSince(cfg, m0, m1, t1);
    GrownThen(l0, t0, l2, t1, cfg.l2, cfg.TopPage());
    ExtendsThen(cfg.pages, withDevices, was);
    SpanJoin(o0 + PeripheralEntries(PERIPHERALS, cfg.regions), cfg.TopPage(), t1, t0);
    return Done, desc, hash;
  }

  ghost predicate CoversFixed(gs: set<int>, trackerPages: nat, argsSize: Word) {
    && Covers(gs, ALLOCATION_TRACKER_OFFSET, trackerPages) && Covers(gs, KERNEL_ARGUMENT_OFFSET, PagesOf(argsSize))
    && CoversAll(gs, PERIPHERALS) && CoversIcm(gs)
  }

  /** Mappings that need no section: tracker, arguments, peripherals, ICM. */
  method MapFixedPages(cfg: BootConfig, k: ProgramDescription, base: Word, argsSize: Word, ghost gs: set<int>)
    returns (r: Outcome, ghost desc: PageIndex, ghost hash: PageIndex)
    requires cfg.Mapping() && cfg.sections == map[] && cfg.TopPage() <= cfg.TrackerPage()
    requires CoversFixed(gs, cfg.rptPages, argsSize)
    modifies cfg.ram, cfg`extraPages, cfg`owned, cfg`l2, cfg`pages
    ensures r.Done? ==> cfg.Mapping() && cfg.TopPage() <= old(cfg.TopPage()) && cfg.KeepsImage(old(cfg.Mem()))
    ensures r.Done? ==> cfg.pages == FixedMap(old(cfg.pages), base, argsSize, cfg.trackerBase, cfg.rptPages, desc, hash)
    ensures r.Done? ==> Extends(cfg.pages, old(cfg.pages))
    ensures r.Done? ==> Extends(cfg.pages, RangeMap(KERNEL_ARGUMENT_OFFSET, base, PagesOf(argsSize), READ_FLAGS))
    ensures r.Done? ==> Page(cfg.Mem(), desc)[0] == k.textOffset && Page(cfg.Mem(), desc)[1] == k.textSize
    ensures r.Done? ==>
              cfg.owned == old(cfg.owned) + FixedEntries(cfg, base, argsSize)
              + PageSpan(cfg.TopPage(), old(cfg.TopPage()))
    ensures r.Done? && old(Tight(cfg.l2, cfg.pages)) ==> Tight(cfg.l2, cfg.pages)
    ensures r.Done? ==> cfg.GrownTables(old(cfg.l2), old(cfg.TopPage()))
    ensures r.Done? ==> cfg.TopPage() <= hash < desc < old(cfg.TopPage())
    ensures r.Done? ==> NoTables(cfg.l2, desc, 1) && NoTables(cfg.l2, hash, 1)
    ensures r.Done? ==> cfg.Spare(gs) == old(cfg.Spare(gs)) - 2
    ensures r.Done? && THREAD_CONTEXT_AREA / PAGE_SIZE in old(cfg.pages) ==>
              FramesTracked(cfg.regions, base, PagesOf(argsSize))
    ensures FixedFits(old(cfg.pages), cfg.regions, cfg.rptPages, base, PagesOf(argsSize)) && old(cfg.Spare(gs)) > 2 ==>
              r.Done?
  {
    hide Tables, Tracks, RegionPages, WholePages, EntryOf, StepAddr, RangeMap, Page, PageSpan, EntrySpan, SectionFree,
         PeripheralMap, PeripheralEntries, Tight, Clear, Tracked, AllTracked, AllClear, PagesOf, RoomForFixed, Extends,
         CoversAll, CoversIcm, Covers, Missing, Kept, Grown, NoTables;
    desc, hash := 0, 0;
    ghost var was, t0, o0, m0, l0 := cfg.pages, cfg.TopPage(), cfg.owned, cfg.Mem(), cfg.l2;
    if FixedFits(was, cfg.regions, cfg.rptPages, base, PagesOf(argsSize)) {
      RoomAfterArgs(was, cfg.trackerBase, cfg.rptPages, base, PagesOf(argsSize));
    }
    :- MapTrackerAndArgs(cfg, base, argsSize, gs);
    ghost var t2, o2, withArgs, m2, l2 := cfg.TopPage(), cfg.owned, cfg.pages, cfg.Mem(), cfg.l2;
    r, desc, hash := MapDevices(cfg, k.textOffset, k.textSize, gs);
    :- r;
    KeptSince(cfg, m0, m2, t2);
    GrownThen(l0, t0, l2, t2, cfg.l2, cfg.TopPage());
    ExtendsThen(cfg.pages, withArgs, was);
    ExtendsThen(cfg.pages, withArgs, RangeMap(KERNEL_ARGUMENT_OFFSET, base, PagesOf(argsSize), READ_FLAGS));
    TwoSpansMore(o0, o2, cfg.owned, t0, t2, cfg.TopPage(),
                 PageSpan(cfg.TrackerPage(), cfg.TrackerPage() + cfg.rptPages),
                 EntrySpan(cfg.regions, base, PagesOf(argsSize)), PeripheralEntries(PERIPHERALS, cfg.regions));
    return Done, desc, hash;
  }

  lemma NoSections(virt: Word, n: nat)
    ensures SectionFree(map[], virt, n)
  {
  }

  lemma TwoSpansMore(o0: set<int>, o2: set<int>, o3: set<int>, t0: int, t2: int, t3: int,
                     a: set<int>, b: set<int>, c: set<int>)
    requires t3 <= t2 <= t0
    requires o2 == o0 + a + b + PageSpan(t2, t0) && o3 == o2 + c + PageSpan(t3, t2)
    ensures o3 == o0 + (a + b + c) + PageSpan(t3, t0)
  {
  }

  /** Room for the RAM window, the splash image and the loader's own page. */
  ghost predicate RoomForLast(pages: PageMap) {
    && Clear(pages, MAPPED_PHYSICAL_RAM, RAM_PAGES) && Clear(pages, BOOT_SPLASH_FB, BOOT_SPLASH_PAGES)
    && Clear(pages, LOADER_CODE_ADDRESS, 1)
  }

  /** The splash image leaves the loader's page free. */
  lemma LastFree(pages: PageMap)
    requires RoomForLast(pages)
    ensures VirtFree(pages, BOOT_SPLASH_FB, BOOT_SPLASH_PAGES)
    ensures VirtFree(pages + RangeMap(BOOT_SPLASH_FB, BOOT_SPLASH_PHYS_ADDR, BOOT_SPLASH_PAGES, SPLASH_FLAGS),
              LOADER_CODE_ADDRESS, 1)
  {
    hide RangeMap, Clear, VirtFree;
    ClearIsFree(pages, BOOT_SPLASH_FB, BOOT_SPLASH_PAGES);
    ClearRange(pages, BOOT_SPLASH_FB, BOOT_SPLASH_PHYS_ADDR, BOOT_SPLASH_PAGES, SPLASH_FLAGS, LOADER_CODE_ADDRESS, 1);
    ClearIsFree(pages + RangeMap(BOOT_SPLASH_FB, BOOT_SPLASH_PHYS_ADDR, BOOT_SPLASH_PAGES, SPLASH_FLAGS),
                LOADER_CODE_ADDRESS, 1);
  }

  lemma LoaderTracked(regions: seq<Range>)
    ensures Tracked(regions, LOADER_CODE_ADDRESS, 1)
  {
    assert StepAddr(LOADER_CODE_ADDRESS, 0) == LOADER_CODE_ADDRESS;
  }

  /** The RAM window, the splash image and the loader's own page. */
  method MapLast(cfg: BootConfig, ghost gs: set<int>) returns (r: Outcome)
    requires cfg.Mapping() && cfg.sections == map[]
    requires Covers(gs, BOOT_SPLASH_FB, BOOT_SPLASH_PAGES) && Covers(gs, LOADER_CODE_ADDRESS, 1)
    modifies cfg.ram, cfg`extraPages, cfg`owned, cfg`l2, cfg`pages, cfg`sections
    ensures r.Done? ==> cfg.Mapping() && cfg.TopPage() <= old(cfg.TopPage()) && cfg.KeepsImage(old(cfg.Mem()))
    ensures r.Done? ==> cfg.sections == RamWindow(0x80)
    ensures r.Done? ==> cfg.pages == old(cfg.pages)
                                     + RangeMap(BOOT_SPLASH_FB, BOOT_SPLASH_PHYS_ADDR, BOOT_SPLASH_PAGES, SPLASH_FLAGS)
                                     + RangeMap(LOADER_CODE_ADDRESS, LOADER_CODE_ADDRESS, 1, TEXT_FLAGS)
    ensures r.Done? ==> Extends(cfg.pages, old(cfg.pages))
    ensures r.Done? ==> cfg.owned == old(cfg.owned) + PageSpan(RAM_PAGES - BOOT_SPLASH_PAGES, RAM_PAGES) + {0}
                                     + PageSpan(cfg.TopPage(), old(cfg.TopPage()))
    ensures r.Done? ==> cfg.GrownTables(old(cfg.l2), old(cfg.TopPage()))
    ensures r.Done? ==> cfg.OnlyTables(old(cfg.Mem()))
    ensures r.Done? ==> cfg.Spare(gs) == old(cfg.Spare(gs))
    ensures old(Tight(cfg.l2, cfg.pages)) && RoomForLast(old(cfg.pages)) && old(cfg.Spare(gs)) > 0 ==> r.Done?
  {
    hide Tables, Tracks, RegionPages, WholePages, EntryOf, StepAddr, RangeMap, Page, PageSpan, EntrySpan, SectionFree,
         RamWindow, Tight, Clear, Mappable, Extends, Kept, Covers, Missing, VirtFree, Tracked,
         Grown, TablesOnly;
    ghost var was, t0, o0, m0, l0 := cfg.pages, cfg.TopPage(), cfg.owned, cfg.Mem(), cfg.l2;
    if RoomForLast(was) {
      LastFree(was);
    }
    LoaderTracked(cfg.regions);
    :- MapPhysicalRam(cfg);
    ghost var m1 := cfg.Mem();
    WindowFree(BOOT_SPLASH_FB, BOOT_SPLASH_PAGES);
    WindowFree(LOADER_CODE_ADDRESS, 1);
    :- MapDram(cfg, BOOT_SPLASH_PHYS_ADDR, BOOT_SPLASH_FB, BOOT_SPLASH_PAGES, SPLASH_FLAGS,
        RAM_PAGES - BOOT_SPLASH_PAGES, gs);
    FreeMappable(cfg.pages, cfg.sections, cfg.regions, LOADER_CODE_ADDRESS, LOADER_CODE_ADDRESS, 1, TEXT_FLAGS);
    ghost var t1, o1, withSplash, m2, l2 := cfg.TopPage(), cfg.owned, cfg.pages, cfg.Mem(), cfg.l2;
    :- MapRange(cfg, LOADER_CODE_ADDRESS, LOADER_CODE_ADDRESS, 1, TEXT_FLAGS, gs);
    ExtendsThen(cfg.pages, withSplash, was);
    LowerTop(l2, t1, cfg.l2, cfg.TopPage());
    KeptSince(cfg, m1, m2, t1);
    GrownThen(l0, t0, l2, t1, cfg.l2, cfg.TopPage());
    TablesOnlyThen(m0, m1, m2, cfg.l1, l0, t0, l2, t1, cfg.TrackerPage(), cfg.rptPages);
    TablesOnlyThen(m0, m2, cfg.Mem(), cfg.l1, l2, t1, cfg.l2, cfg.TopPage(), cfg.TrackerPage(), cfg.rptPages);
    KeptSince(cfg, m0, m1, t0);
    LoaderEntry(cfg.regions);
    TwoSpans(o0, o1, cfg.owned, t0, t1, cfg.TopPage(), PageSpan(RAM_PAGES - BOOT_SPLASH_PAGES, RAM_PAGES), {0});
    return Done;
  }

  lemma LoaderEntry(regions: seq<Range>)
    ensures EntrySpan(regions, LOADER_CODE_ADDRESS, 1) == {0}
  {
    assert StepAddr(LOADER_CODE_ADDRESS, 0) == LOADER_CODE_ADDRESS;
    assert EntryOf(regions, LOADER_CODE_ADDRESS) == Some(0);
    assert EntrySpan(regions, LOADER_CODE_ADDRESS, 0) == {};
  }

  lemma TwoSpans(o0: set<int>, o1: set<int>, o2: set<int>, t0: int, t1: int, t2: int, a: set<int>, b: set<int>)
    requires t2 <= t1 <= t0
    requires o1 == o0 + a + PageSpan(t1, t0) && o2 == o1 + b + PageSpan(t2, t1)
    ensures o2 == o0 + a + b + PageSpan(t2, t0)
  {
  }

  /** What the boot leaves behind, besides the map itself. */
  datatype HandOff = HandOff(lay: BootLayout, desc: PageIndex, hash: PageIndex)

  /** The pages of the loader's own data structures: each in its place, one below the other, and none of
      them a table. */
  ghost predicate PagesApart(h: HandOff, l1: PageIndex, l2: map<int, PageIndex>, top: int) {
    && LaidOut(h.lay, l1, l2, h.desc + 1) && NoTables(l2, h.desc, 1) && NoTables(l2, h.hash, 1)
    && top <= h.hash < h.desc && l1 + 4 <= h.lay.data
  }

  lemma StillApart(h: HandOff, l1: PageIndex, a: map<int, PageIndex>, ta: int, b: map<int, PageIndex>, tb: int,
                   c: map<int, PageIndex>, tc: int)
    requires LaidOut(h.lay, l1, a, ta) && Grown(a, ta, b, tb) && Grown(b, tb, c, tc) && l1 + 4 <= h.lay.data
    requires tb <= h.hash < h.desc < ta && NoTables(b, h.desc, 1) && NoTables(b, h.hash, 1)
    ensures PagesApart(h, l1, c, tc)
  {
    hide Grown, NoTables;
    GrownThen(a, ta, b, tb, c, tc);
    StillLaidOut(h.lay, l1, a, ta, c, tc);
    StillNoTables(b, tb, c, tc, h.desc, 1);
    StillNoTables(b, tb, c, tc, h.hash, 1);
    LowerTop(b, tb, c, tc);
  }

  /** A page that is no table and not the tracker's is unchanged. */
  lemma DataKept(m: Ram, m': Ram, l1: PageIndex, l2: map<int, PageIndex>, tracker: int, n: int, p: PageIndex)
    requires TablesOnly(m, m', l1, l2, tracker, n) && NoTables(l2, p, 1) && p < l1 <= tracker
    ensures Page(m', p) == Page(m, p)
  {
    hide Page;
    assert !IsTablePage(l1, l2, p);
  }

  /** Number of pages the tracker takes. */
  function TrackerPages(regions: seq<Range>): nat {
    PagesOf(TrackerLength(regions))
  }

  /** The configuration as its constructor leaves it, with well-formed memory regions. */
  ghost predicate Fresh(cfg: BootConfig)
    reads cfg
  {
    && cfg.ram.Length == RAM_WORDS
    && cfg.extraPages == BOOT_SPLASH_PAGES && cfg.rptSizeBytes == 0 && cfg.rptPages == 0
    && cfg.l2 == map[] && cfg.pages == map[] && cfg.sections == map[]
    && (forall g :: g in cfg.regions ==> WholePages(g)) && RegionPages(cfg.regions) <= 0x10_0000
  }

  lemma TrackerPagesAre(regions: seq<Range>, n: nat)
    requires TrackerLength(regions) <= n * PAGE_SIZE < TrackerLength(regions) + PAGE_SIZE
    ensures n == TrackerPages(regions)
  {
    Euclid(TrackerLength(regions) + PAGE_SIZE - 1, PAGE_SIZE, n,
        TrackerLength(regions) + PAGE_SIZE - 1 - n * PAGE_SIZE);
  }

  /** Where the allocator's top is once the image is copied. */
  function ImageTop(regions: seq<Range>, k: ProgramDescription): int {
    RAM_PAGES - BOOT_SPLASH_PAGES - TrackerPages(regions) - k.TextPages() - k.DataPages()
  }

  /** Tracker, image copy and kernel mappings. */
  method LoadKernel(cfg: BootConfig, k: ProgramDescription, base: Word, ghost gs: set<int>)
    returns (r: Outcome, ghost lay: BootLayout)
    requires Fresh(cfg) && CoversStacks(gs) && CoversImage(gs, k)
    requires SourceBelow(k, base, RAM_PAGES - BOOT_SPLASH_PAGES - TrackerPages(cfg.regions))
    modifies cfg, cfg.ram
    ensures lay.data + k.DataPages() + k.TextPages() <= RAM_PAGES && lay.data + k.DataPages() < RAM_PAGES
    ensures SourceWord(k, base) + k.textSize / 4 + k.dataSize / 4 <= RAM_WORDS
    ensures r.Done? ==>
              cfg.Mapping() && cfg.ttbr0 % 0x4000 == 0 && cfg.entrypoint == k.entrypoint
              && cfg.sp == PID1_STACK_BOTTOM
    ensures r.Done? ==> cfg.pages == KernelMap(k, lay) && KernelIn(cfg.pages, k, lay.data)
    ensures r.Done? ==> k.textOffset % PAGE_SIZE == 0 && k.dataOffset % PAGE_SIZE == 0
    ensures r.Done? ==> cfg.sections == map[] && cfg.TopPage() <= cfg.TrackerPage()
    ensures r.Done? ==> cfg.rptPages == TrackerPages(cfg.regions)
    ensures r.Done? ==> cfg.l1 + 4 <= lay.data && lay.data + k.DataPages() + k.TextPages() == cfg.TrackerPage()
    ensures r.Done? ==>
              cfg.owned == PageSpan(RAM_PAGES - cfg.rptPages, RAM_PAGES)
              + PageSpan(cfg.TopPage(), cfg.TrackerPage())
    ensures r.Done? ==> ImageIn(cfg.Mem(), lay.data, k, old(cfg.Mem()), SourceWord(k, base))
    ensures r.Done? ==> Untouched(old(cfg.Mem()), cfg.Mem(), cfg.TopPage())
    ensures lay.data == ImageTop(cfg.regions, k)
    ensures r.Done? ==> KernelFits(k) && Tight(cfg.l2, cfg.pages) && LaidOut(lay, cfg.l1, cfg.l2, cfg.TopPage())
    ensures r.Done? ==> cfg.Spare(gs) == lay.data - lay.data % 4 - 33 - |gs|
    ensures cfg.rptPages < 0x200
    ensures KernelFits(k) && lay.data - lay.data % 4 > 33 + |gs| ==> r.Done?
  {
    hide Tables, Tracks, RegionPages, WholePages, EntryOf, Page, PageSpan, TrackerLength, LoadedAt, StackMap,
         KernelMap, Tight, KernelFits, Placed, CoversStacks, CoversImage, Missing, LaidOut;
    ghost var m0, at := cfg.Mem(), SourceWord(k, base);
    AllocatePageTracker(cfg);
    TrackerPagesAre(cfg.regions, cfg.rptPages);
    ghost var m1, top := cfg.Mem(), cfg.TopPage();
    SourceAddresses(k, base, top);
    Copy(cfg, k, base);
    ghost var m2, data := cfg.Mem(), cfg.TopPage();
    ImageFrom(m2, data, k, m0, m1, at, data);
    r, lay := MapKernel(cfg, k, gs);
    if r.Done? {
      ImageKept(m2, cfg.Mem(), data, k, m0, at);
    }
  }

  lemma ImageFrom(m: Ram, data: int, k: ProgramDescription, src: Ram, src': Ram, at: nat, below: int)
    requires 0 <= data && data + k.DataPages() + k.TextPages() <= RAM_PAGES
    requires at + k.textSize / 4 + k.dataSize / 4 <= RAM_WORDS
               && at + k.textSize / 4 + k.dataSize / 4 <= below * PAGE_WORDS
    requires ImageIn(m, data, k, src', at)
    requires forall p: PageIndex :: p < below ==> Page(src', p) == Page(src, p)
    ensures ImageIn(m, data, k, src, at)
  {
    LoadedFrom(m, data, k.DataPages(), src, src', at + k.textSize / 4, k.dataSize / 4, below);
    LoadedFrom(m, data + k.DataPages(), k.TextPages(), src, src', at, k.textSize / 4, below);
  }

  lemma ImageKept(m: Ram, m': Ram, data: int, k: ProgramDescription, src: Ram, at: nat)
    requires 0 <= data && data + k.DataPages() + k.TextPages() <= RAM_PAGES
    requires at + k.textSize / 4 + k.dataSize / 4 <= RAM_WORDS
    requires ImageIn(m, data, k, src, at)
    requires forall p: PageIndex :: data <= p < data + k.DataPages() + k.TextPages() ==> Page(m', p) == Page(m, p)
    ensures ImageIn(m', data, k, src, at)
  {
    LoadedFrame(m, m', data, k.DataPages(), src, at + k.textSize / 4, k.dataSize / 4);
    LoadedFrame(m, m', data + k.DataPages(), k.TextPages(), src, at, k.textSize / 4);
  }

  lemma ImageKeptSince(cfg: BootConfig, m: Ram, data: int, k: ProgramDescription, src: Ram, at: nat)
    requires cfg.Mapping() && cfg.KeepsImage(m) && cfg.l1 + 4 <= data
    requires data + k.DataPages() + k.TextPages() == cfg.TrackerPage()
    requires at + k.textSize / 4 + k.dataSize / 4 <= RAM_WORDS
    requires ImageIn(m, data, k, src, at)
    ensures ImageIn(cfg.Mem(), data, k, src, at)
  {
    hide Tables, Tracks, Page, ImageIn;
    ImageKept(m, cfg.Mem(), data, k, src, at);
  }

  // ---- the groups that need tables ----

  function KernelGroups(k: ProgramDescription): set<int> {
    Groups(THREAD_CONTEXT_AREA, 1) + Groups(PID1_STACK_LOW, PID1_STACK_PAGE_COUNT)
    + Groups(KERNEL_STACK_LOW, KERNEL_MODE_STACK_PAGE_COUNT)
    + Groups(IRQ_STACK_LOW, PID1_IRQ_HANDLER_STACK_PAGE_COUNT)
    + Groups(k.textOffset, k.TextPages()) + Groups(k.dataOffset, k.DataPages())
  }

  function FixedGroups(argsSize: Word, n: nat): set<int> {
    Groups(ALLOCATION_TRACKER_OFFSET, n) + Groups(KERNEL_ARGUMENT_OFFSET, PagesOf(argsSize))
    + PeripheralGroups(PERIPHERALS) + Groups(ICM_KERNEL_DESC_AREA_ADDR, 1) + Groups(ICM_KERNEL_HASH_AREA_ADDR, 1)
  }

  /** The groups of everything that is mapped in pages: each takes one page of tables. */
  function BootGroups(k: ProgramDescription, argsSize: Word, n: nat): set<int> {
    KernelGroups(k) + FixedGroups(argsSize, n) + Groups(BOOT_SPLASH_FB, BOOT_SPLASH_PAGES)
    + Groups(LOADER_CODE_ADDRESS, 1)
  }

  lemma CoversBoot(k: ProgramDescription, argsSize: Word, n: nat)
    ensures var gs := BootGroups(k, argsSize, n);
            && CoversStacks(gs) && CoversImage(gs, k) && CoversFixed(gs, n, argsSize)
            && Covers(gs, BOOT_SPLASH_FB, BOOT_SPLASH_PAGES) && Covers(gs, LOADER_CODE_ADDRESS, 1)
  {
    hide Covers, Groups, PeripheralGroups, PagesOf;
    var gs := BootGroups(k, argsSize, n);
    CoversGroups(gs, THREAD_CONTEXT_AREA, 1);
    CoversGroups(gs, PID1_STACK_LOW, PID1_STACK_PAGE_COUNT);
    CoversGroups(gs, KERNEL_STACK_LOW, KERNEL_MODE_STACK_PAGE_COUNT);
    CoversGroups(gs, IRQ_STACK_LOW, PID1_IRQ_HANDLER_STACK_PAGE_COUNT);
    CoversGroups(gs, k.textOffset, k.TextPages());
    CoversGroups(gs, k.dataOffset, k.DataPages());
    CoversGroups(gs, ALLOCATION_TRACKER_OFFSET, n);
    CoversGroups(gs, KERNEL_ARGUMENT_OFFSET, PagesOf(argsSize));
    CoversPeripherals(gs, PERIPHERALS);
    CoversGroups(gs, ICM_KERNEL_DESC_AREA_ADDR, 1);
    CoversGroups(gs, ICM_KERNEL_HASH_AREA_ADDR, 1);
    CoversGroups(gs, BOOT_SPLASH_FB, BOOT_SPLASH_PAGES);
    CoversGroups(gs, LOADER_CODE_ADDRESS, 1);
  }

  /** The groups in which a map has pages. */
  ghost function GroupsOf(pages: PageMap): set<int> {
    set v | v in pages :: v / PAGE_WORDS
  }

  lemma GroupsOfBoth(a: PageMap, b: PageMap)
    ensures GroupsOf(a + b) == GroupsOf(a) + GroupsOf(b)
  {
    forall g | g in GroupsOf(a)
      ensures g in GroupsOf(a + b)
    {
      var v :| v in a && v / PAGE_WORDS == g;
      assert v in a + b;
    }
    forall g | g in GroupsOf(b)
      ensures g in GroupsOf(a + b)
    {
      var v :| v in b && v / PAGE_WORDS == g;
      assert v in a + b;
    }
  }

  lemma GroupsOfRange(virt: Word, phys: Word, n: nat, f: Flags)
    requires n <= PAGE_NUMBERS
    ensures GroupsOf(RangeMap(virt, phys, n, f)) == Groups(virt, n)
  {
    var run := RangeMap(virt, phys, n, f);
    forall g | g in GroupsOf(run)
      ensures g in Groups(virt, n)
    {
      var v :| v in run && v / PAGE_WORDS == g;
      var k := Behind(v, virt / PAGE_SIZE);
      BehindStep(v, virt / PAGE_SIZE, k);
      StepPage(virt, k);
      assert StepAddr(virt, k) / PAGE_SIZE / PAGE_WORDS == g;
    }
    forall k | 0 <= k < n
      ensures StepAddr(virt, k) / PAGE_SIZE / PAGE_WORDS in GroupsOf(run)
    {
      StepPage(virt, k);
      BehindStep(StepAddr(virt, k) / PAGE_SIZE, virt / PAGE_SIZE, k);
      assert StepAddr(virt, k) / PAGE_SIZE in run;
    }
  }

  lemma WithRange(pages: PageMap, virt: Word, phys: Word, n: nat, f: Flags)
    requires n <= PAGE_NUMBERS
    ensures GroupsOf(pages + RangeMap(virt, phys, n, f)) == GroupsOf(pages) + Groups(virt, n)
  {
    hide RangeMap, Groups, GroupsOf;
    GroupsOfBoth(pages, RangeMap(virt, phys, n, f));
    GroupsOfRange(virt, phys, n, f);
  }

  lemma {:induction false} WithPeripherals(ps: seq<Peripheral>, pages: PageMap)
    requires forall i :: 0 <= i < |ps| ==> ps[i].pages <= PAGE_NUMBERS
    ensures GroupsOf(PeripheralMap(ps, pages)) == GroupsOf(pages) + PeripheralGroups(ps)
  {
    hide RangeMap, Groups, GroupsOf;
    if |ps| > 0 {
      var last := |ps| - 1;
      WithPeripherals(ps[..last], pages);
      WithRange(PeripheralMap(ps[..last], pages), ps[last].virt, ps[last].phys, ps[last].pages, DEVICE_FLAGS);
    }
  }

  /** The kernel's groups are those of its map. */
  lemma KernelMapGroups(k: ProgramDescription, lay: BootLayout)
    requires lay.data + k.DataPages() < RAM_PAGES && k.TextPages() <= PAGE_NUMBERS
    ensures GroupsOf(KernelMap(k, lay)) == KernelGroups(k)
  {
    hide RangeMap, Groups, GroupsOf;
    var one := RangeMap(THREAD_CONTEXT_AREA, AddrOf(lay.thread), 1, THREAD_FLAGS);
    var two := one + RangeMap(PID1_STACK_LOW, AddrOf(lay.pid1Stack), PID1_STACK_PAGE_COUNT, DATA_FLAGS);
    var three := two + RangeMap(KERNEL_STACK_LOW, AddrOf(lay.kernelStack), KERNEL_MODE_STACK_PAGE_COUNT, DATA_FLAGS);
    GroupsOfRange(THREAD_CONTEXT_AREA, AddrOf(lay.thread), 1, THREAD_FLAGS);
    WithRange(one, PID1_STACK_LOW, AddrOf(lay.pid1Stack), PID1_STACK_PAGE_COUNT, DATA_FLAGS);
    WithRange(two, KERNEL_STACK_LOW, AddrOf(lay.kernelStack), KERNEL_MODE_STACK_PAGE_COUNT, DATA_FLAGS);
    WithRange(three, IRQ_STACK_LOW, AddrOf(lay.irqStack), PID1_IRQ_HANDLER_STACK_PAGE_COUNT, DATA_FLAGS);
    WithRange(StackMap(lay), k.textOffset, AddrOf(lay.data + k.DataPages()), k.TextPages(), TEXT_FLAGS);
    WithRange(StackMap(lay) + RangeMap(k.textOffset, AddrOf(lay.data + k.DataPages()), k.TextPages(), TEXT_FLAGS),
              k.dataOffset, AddrOf(lay.data), k.DataPages(), DATA_FLAGS);
  }

  lemma FixedMapGroups(pages: PageMap, base: Word, argsSize: Word, tracker: Word, n: nat, desc: PageIndex,
                       hash: PageIndex)
    requires n <= PAGE_NUMBERS
    ensures GroupsOf(FixedMap(pages, base, argsSize, tracker, n, desc, hash))
         == GroupsOf(pages) + FixedGroups(argsSize, n)
  {
    hide RangeMap, Groups, GroupsOf, PeripheralMap, PeripheralGroups, PagesOf;
    ArgPages(argsSize);
    var one := pages + RangeMap(ALLOCATION_TRACKER_OFFSET, tracker, n, DATA_FLAGS);
    var two := one + RangeMap(KERNEL_ARGUMENT_OFFSET, base, PagesOf(argsSize), READ_FLAGS);
    WithRange(pages, ALLOCATION_TRACKER_OFFSET, tracker, n, DATA_FLAGS);
    WithRange(one, KERNEL_ARGUMENT_OFFSET, base, PagesOf(argsSize), READ_FLAGS);
    WithPeripherals(PERIPHERALS, two);
    var three := PeripheralMap(PERIPHERALS, two);
    WithRange(three, ICM_KERNEL_DESC_AREA_ADDR, AddrOf(desc), 1, DATA_FLAGS);
    WithRange(three + RangeMap(ICM_KERNEL_DESC_AREA_ADDR, AddrOf(desc), 1, DATA_FLAGS),
              ICM_KERNEL_HASH_AREA_ADDR, AddrOf(hash), 1, HASH_FLAGS);
  }

  /** The groups counted are exactly those in which the finished map has pages. */
  lemma BootMapGroups(k: ProgramDescription, lay: BootLayout, base: Word, argsSize: Word, tracker: Word, n: nat,
                      desc: PageIndex, hash: PageIndex)
    requires lay.data + k.DataPages() < RAM_PAGES && k.TextPages() <= PAGE_NUMBERS && n <= PAGE_NUMBERS
    ensures GroupsOf(BootMap(k, lay, base, argsSize, tracker, n, desc, hash)) == BootGroups(k, argsSize, n)
  {
    hide RangeMap, Groups, GroupsOf, KernelMap, FixedMap, KernelGroups, FixedGroups;
    KernelMapGroups(k, lay);
    FixedMapGroups(KernelMap(k, lay), base, argsSize, tracker, n, desc, hash);
    var fixed := FixedMap(KernelMap(k, lay), base, argsSize, tracker, n, desc, hash);
    WithRange(fixed, BOOT_SPLASH_FB, BOOT_SPLASH_PHYS_ADDR, BOOT_SPLASH_PAGES, SPLASH_FLAGS);
    WithRange(fixed + RangeMap(BOOT_SPLASH_FB, BOOT_SPLASH_PHYS_ADDR, BOOT_SPLASH_PAGES, SPLASH_FLAGS),
              LOADER_CODE_ADDRESS, LOADER_CODE_ADDRESS, 1, TEXT_FLAGS);
  }

  /** Once all groups of a map have tables, what is to spare is what is left. */
  lemma NoneMissing(cfg: BootConfig)
    requires cfg.Mapping()
    ensures cfg.Spare(GroupsOf(cfg.pages)) == cfg.TopPage()
  {
    hide L1Holds, L2Holds, Tracks, RegionPages, WholePages;
    assert GroupsOf(cfg.pages) - cfg.l2.Keys == {};
  }

  /** Exactly what a boot needs to go through: a kernel that lies where it may, arguments and devices that
      the memory regions cover, and enough memory for the first-level table and what its alignment wastes,
      31 pages of thread context, stacks and integrity monitor, and the second-level tables. */
  ghost predicate BootFits(regions: seq<Range>, k: ProgramDescription, base: Word, argsSize: Word) {
    && KernelFits(k) && FramesTracked(regions, base, PagesOf(argsSize))
    && ImageTop(regions, k) - ImageTop(regions, k) % 4 > 35 + |BootGroups(k, argsSize, TrackerPages(regions))|
  }

  /** A run outside the kernel's mappings is clear after it. */
  lemma ClearOfKernel(k: ProgramDescription, lay: BootLayout, virt: Word, n: nat)
    requires KernelFits(k) && lay.data + k.DataPages() < RAM_PAGES
    requires Disjoint(THREAD_CONTEXT_AREA, 1, virt, n) && RAM_PAGES <= virt / PAGE_SIZE
               && virt / PAGE_SIZE + n <= KERNEL_LOAD_OFFSET / PAGE_SIZE
    ensures Clear(KernelMap(k, lay), virt, n)
  {
    hide RangeMap, Clear, StackMap;
    ClearOfStacks(lay, virt, n);
    ClearRange(StackMap(lay), k.textOffset, AddrOf(lay.data + k.DataPages()), k.TextPages(), TEXT_FLAGS, virt, n);
    ClearRange(StackMap(lay) + RangeMap(k.textOffset, AddrOf(lay.data + k.DataPages()), k.TextPages(), TEXT_FLAGS),
               k.dataOffset, AddrOf(lay.data), k.DataPages(), DATA_FLAGS, virt, n);
  }

  /** The kernel leaves room for the fixed mappings. */
  lemma KernelLeavesRoom(k: ProgramDescription, lay: BootLayout, regions: seq<Range>, trackerPages: nat, base: Word,
                         argsPages: nat)
    requires KernelFits(k) && lay.data + k.DataPages() < RAM_PAGES
    requires FramesTracked(regions, base, argsPages) && trackerPages < 0x200
    ensures FixedFits(KernelMap(k, lay), regions, trackerPages, base, argsPages)
  {
    hide Clear, KernelMap, KernelFits, Tracked, AllTracked;
    DevicesLow();
    ClearOfKernel(k, lay, ALLOCATION_TRACKER_OFFSET, trackerPages);
    ClearOfKernel(k, lay, KERNEL_ARGUMENT_OFFSET, argsPages);
    ClearOfKernel(k, lay, ICM_KERNEL_DESC_AREA_ADDR, 1);
    ClearOfKernel(k, lay, ICM_KERNEL_HASH_AREA_ADDR, 1);
    forall i | 0 <= i < |PERIPHERALS|
      ensures Clear(KernelMap(k, lay), PERIPHERALS[i].virt, PERIPHERALS[i].pages)
    {
      ClearOfKernel(k, lay, PERIPHERALS[i].virt, PERIPHERALS[i].pages);
    }
  }

  /** A run below all devices and apart from arguments, tracker and kernel is clear of all of them. */
  lemma ClearOfFixed(k: ProgramDescription, lay: BootLayout, tracker: Word, trackerPages: nat, base: Word,
                     argsSize: Word,
                     desc: PageIndex, hash: PageIndex, virt: Word, n: nat)
    requires KernelFits(k) && lay.data + k.DataPages() < RAM_PAGES && trackerPages < 0x200
    requires KERNEL_ARGUMENT_OFFSET + PagesOf(argsSize) * PAGE_SIZE <= THREAD_CONTEXT_AREA
    requires RAM_PAGES <= virt / PAGE_SIZE && virt / PAGE_SIZE + n <= ALLOCATION_TRACKER_OFFSET / PAGE_SIZE
    requires Disjoint(THREAD_CONTEXT_AREA, 1, virt, n) && Disjoint(KERNEL_ARGUMENT_OFFSET, PagesOf(argsSize), virt, n)
    ensures Clear(FixedMap(KernelMap(k, lay), base, argsSize, tracker, trackerPages, desc, hash), virt, n)
  {
    hide RangeMap, Clear, KernelMap, KernelFits, PeripheralMap, PagesOf;
    var a := PagesOf(argsSize);
    ClearOfKernel(k, lay, virt, n);
    ClearAfterArgs(KernelMap(k, lay), tracker, trackerPages, base, a, virt, n);
    var now := KernelMap(k, lay) + RangeMap(ALLOCATION_TRACKER_OFFSET, tracker, trackerPages, DATA_FLAGS)
               + RangeMap(KERNEL_ARGUMENT_OFFSET, base, a, READ_FLAGS);
    DevicesLow();
    ClearOfPeripherals(PERIPHERALS, now, virt, n);
    var devices := PeripheralMap(PERIPHERALS, now);
    ClearRange(devices, ICM_KERNEL_DESC_AREA_ADDR, AddrOf(desc), 1, DATA_FLAGS, virt, n);
    ClearRange(devices + RangeMap(ICM_KERNEL_DESC_AREA_ADDR, AddrOf(desc), 1, DATA_FLAGS),
               ICM_KERNEL_HASH_AREA_ADDR, AddrOf(hash), 1, HASH_FLAGS, virt, n);
  }

  lemma RoomAtLast(k: ProgramDescription, lay: BootLayout, tracker: Word, trackerPages: nat, base: Word, argsSize: Word,
                   desc: PageIndex, hash: PageIndex)
    requires KernelFits(k) && lay.data + k.DataPages() < RAM_PAGES && trackerPages < 0x200
    requires KERNEL_ARGUMENT_OFFSET + PagesOf(argsSize) * PAGE_SIZE <= THREAD_CONTEXT_AREA
    ensures RoomForLast(FixedMap(KernelMap(k, lay), base, argsSize, tracker, trackerPages, desc, hash))
  {
    hide Clear, KernelMap, KernelFits, FixedMap, PagesOf;
    ClearOfFixed(k, lay, tracker, trackerPages, base, argsSize, desc, hash, MAPPED_PHYSICAL_RAM, RAM_PAGES);
    ClearOfFixed(k, lay, tracker, trackerPages, base, argsSize, desc, hash, BOOT_SPLASH_FB, BOOT_SPLASH_PAGES);
    ClearOfFixed(k, lay, tracker, trackerPages, base, argsSize, desc, hash, LOADER_CODE_ADDRESS, 1);
  }

  /** The boot sequence up to the hand-off to the kernel. It goes through exactly if `BootFits`. In every
      run that does not panic the tables hold exactly the listed mappings, the tracker owns exactly the
      RAM pages from the final top to the end of RAM and the listed pages outside that run, and the
      image is intact. */
  method RustEntry(cfg: BootConfig, k: ProgramDescription, base: Word, argsSize: Word)
    returns (r: Outcome, ghost h: HandOff)
    requires Fresh(cfg)
    requires SourceBelow(k, base, RAM_PAGES - BOOT_SPLASH_PAGES - TrackerPages(cfg.regions))
    modifies cfg, cfg.ram
    ensures h.lay.data + k.DataPages() + k.TextPages() <= RAM_PAGES && h.lay.data + k.DataPages() < RAM_PAGES
    ensures SourceWord(k, base) + k.textSize / 4 + k.dataSize / 4 <= RAM_WORDS
    ensures r.Done? ==>
              cfg.Mapping() && cfg.ttbr0 % 0x4000 == 0 && cfg.entrypoint == k.entrypoint
              && cfg.sp == PID1_STACK_BOTTOM
    ensures r.Done? ==> cfg.pages == BootMap(k, h.lay, base, argsSize, cfg.trackerBase, cfg.rptPages, h.desc, h.hash)
    ensures r.Done? ==> cfg.sections == RamWindow(0x80) && KernelIn(cfg.pages, k, h.lay.data)
    ensures r.Done? ==> forall va: Word :: Walk(cfg.Mem(), cfg.ttbr0, va) == Lookup(cfg.pages, cfg.sections, va)
    ensures r.Done? ==> WindowShown(cfg.Mem(), cfg.ttbr0)
    ensures r.Done? ==> PagesApart(h, cfg.l1, cfg.l2, cfg.TopPage())
    ensures r.Done? ==> cfg.rptPages == TrackerPages(cfg.regions) < 0x200
    ensures r.Done? ==> h.lay.data + k.DataPages() + k.TextPages() == cfg.TrackerPage()
    ensures r.Done? ==> Page(cfg.Mem(), h.desc)[0] == k.textOffset && Page(cfg.Mem(), h.desc)[1] == k.textSize
    ensures r.Done? ==> cfg.owned == PageSpan(cfg.TopPage(), RAM_PAGES) + OutsideEntries(cfg.regions, base, argsSize)
    ensures r.Done? ==> KernelReadable(cfg.Mem(), cfg.ttbr0, k, old(cfg.Mem()), SourceWord(k, base))
    ensures r.Done? ==> Untouched(old(cfg.Mem()), cfg.Mem(), cfg.TopPage())
    ensures r.Done? && ArgsBelow(base, argsSize, cfg.TopPage()) ==>
              ArgsReadable(cfg.Mem(), cfg.ttbr0, base, argsSize, old(cfg.Mem()))
    ensures r.Done? <==> BootFits(cfg.regions, k, base, argsSize)
  {
    hide Tables, Tracks, RegionPages, WholePages, EntryOf, StepAddr, RangeMap, Page, PageSpan, EntrySpan, RamWindow,
         Walk, Lookup, KernelReadable, KernelIn, Tight, Clear, KernelFits, AllTracked, Tracked, FixedFits, RoomForLast,
         FramesTracked, CoversStacks, CoversImage, CoversFixed, Covers, Missing, BootGroups, ImageTop, GroupsOf,
         PeripheralMap, PeripheralEntries, KernelMap, FixedMap, ImageIn, TrackerPages, PagesOf, ArgsBelow,
         ArgsReadable, Untouched, Extends, Kept, BootConfig.Ready, WindowShown, LaidOut, Grown, NoTables, TablesOnly;
    ghost var m0 := cfg.Mem();
    ghost var lay, desc, hash;
    ghost var gs := BootGroups(k, argsSize, TrackerPages(cfg.regions));
    CoversBoot(k, argsSize, TrackerPages(cfg.regions));
    r, lay := LoadKernel(cfg, k, base, gs);
    h := HandOff(lay, 0, 0);
    :- r;
    ghost var m1, t1, o1, was, a := cfg.Mem(), cfg.TopPage(), cfg.owned, cfg.pages, cfg.l2;
    if FramesTracked(cfg.regions, base, PagesOf(argsSize)) {
      KernelLeavesRoom(k, lay, cfg.regions, cfg.rptPages, base, PagesOf(argsSize));
    }
    ThreadMapped(k, lay);
    r, desc, hash := MapFixedPages(cfg, k, base, argsSize, gs);
    h := HandOff(lay, desc, hash);
    :- r;
    ghost var t2, o2, fixed, b := cfg.TopPage(), cfg.owned, cfg.pages, cfg.l2;
    KernelInKept(was, fixed, k, lay.data);
    ghost var m2 := cfg.Mem();
    ArgsRoom(cfg.regions, base, argsSize);
    RoomAtLast(k, lay, cfg.trackerBase, cfg.rptPages, base, argsSize, desc, hash);
    :- MapLast(cfg, gs);
    NothingMissing(cfg, k, lay, base, argsSize, desc, hash);
    KernelInKept(fixed, cfg.pages, k, lay.data);
    AllOwned(o1, o2, cfg.owned, t1, t2, cfg.TopPage(), cfg.rptPages,
             EntrySpan(cfg.regions, base, PagesOf(argsSize)), PeripheralEntries(PERIPHERALS, cfg.regions));
    ExtendsThen(cfg.pages, fixed, RangeMap(KERNEL_ARGUMENT_OFFSET, base, PagesOf(argsSize), READ_FLAGS));
    HandedOver(cfg, k, lay.data, base, argsSize, m0, m1, m2, t1, t2);
    StillApart(h, cfg.l1, a, t1, b, t2, cfg.l2, cfg.TopPage());
    DataKept(m2, cfg.Mem(), cfg.l1, cfg.l2, cfg.TrackerPage(), cfg.rptPages, desc);
    WalksAreLookups(cfg);
    WindowIsShown(cfg.Mem(), cfg.l1, cfg.l2, cfg.pages);
    return Done, h;
  }

  /** What memory was kept on the way is found at the hand-off. */
  lemma HandedOver(cfg: BootConfig, k: ProgramDescription, data: PageIndex, base: Word, argsSize: Word,
                   m0: Ram, m1: Ram, m2: Ram, t1: int, t2: int)
    requires cfg.Mapping() && cfg.TopPage() <= t2 <= t1 && cfg.l1 + 4 <= data && t2 <= cfg.TrackerPage()
    requires data + k.DataPages() + k.TextPages() == cfg.TrackerPage() && data + k.DataPages() < RAM_PAGES
    requires InEncrypted(DramView(base)) && k.WholeWords()
    requires SourceWord(k, base) + k.textSize / 4 + k.dataSize / 4 <= RAM_WORDS
    requires k.textOffset % PAGE_SIZE == 0 && k.dataOffset % PAGE_SIZE == 0 && KernelIn(cfg.pages, k, data)
    requires Extends(cfg.pages, RangeMap(KERNEL_ARGUMENT_OFFSET, base, PagesOf(argsSize), READ_FLAGS))
    requires Untouched(m0, m1, t1) && Kept(m1, m2, cfg.l1 + 4, t2, cfg.TrackerPage(), cfg.rptPages)
    requires cfg.KeepsImage(m2) && ImageIn(m1, data, k, m0, SourceWord(k, base))
    ensures Untouched(m0, cfg.Mem(), cfg.TopPage())
    ensures KernelReadable(cfg.Mem(), cfg.ttbr0, k, m0, SourceWord(k, base))
    ensures ArgsBelow(base, argsSize, cfg.TopPage()) ==> ArgsReadable(cfg.Mem(), cfg.ttbr0, base, argsSize, m0)
  {
    hide Tables, Tracks, RegionPages, WholePages, Kept, Untouched, ImageIn, KernelIn, KernelReadable, ArgsReadable,
         ArgsBelow, Extends, RangeMap, PagesOf;
    KeptBelow(m1, m2, cfg.l1 + 4, t2, cfg.TrackerPage(), cfg.rptPages);
    UntouchedThen(m0, m1, m2, t1, t2);
    KeptBelow(m2, cfg.Mem(), cfg.l1 + 4, cfg.TopPage(), cfg.TrackerPage(), cfg.rptPages);
    UntouchedThen(m0, m2, cfg.Mem(), t2, cfg.TopPage());
    KeptSince(cfg, m1, m2, t2);
    ImageKeptSince(cfg, m1, data, k, m0, SourceWord(k, base));
    ReadableAtHandOff(cfg.Mem(), cfg.l1, cfg.l2, cfg.pages, cfg.sections, k, data, m0, SourceWord(k, base));
    ArgsAtHandOff(cfg.Mem(), cfg.l1, cfg.l2, cfg.pages, cfg.sections, base, argsSize, m0, cfg.TopPage());
  }

  lemma WalksAreLookups(cfg: BootConfig)
    requires cfg.Mapping()
    ensures forall va: Word :: Walk(cfg.Mem(), cfg.ttbr0, va) == Lookup(cfg.pages, cfg.sections, va)
  {
    hide Tables, Tracks, RegionPages, WholePages, Walk, Lookup;
    forall va: Word {
      WalkIsLookup(cfg.Mem(), cfg.l1, cfg.l2, cfg.pages, cfg.sections, va);
    }
  }

  lemma ThreadMapped(k: ProgramDescription, lay: BootLayout)
    requires lay.data + k.DataPages() < RAM_PAGES
    ensures THREAD_CONTEXT_AREA / PAGE_SIZE in KernelMap(k, lay)
  {
    hide StackMap, RangeMap;
    StackPages(lay, THREAD_CONTEXT_AREA / PAGE_SIZE);
  }

  lemma ArgsRoom(regions: seq<Range>, base: Word, argsSize: Word)
    requires FramesTracked(regions, base, PagesOf(argsSize))
    ensures KERNEL_ARGUMENT_OFFSET + PagesOf(argsSize) * PAGE_SIZE <= THREAD_CONTEXT_AREA
  {
  }

  lemma NothingMissing(cfg: BootConfig, k: ProgramDescription, lay: BootLayout, base: Word, argsSize: Word,
                       desc: PageIndex, hash: PageIndex)
    requires cfg.Mapping() && lay.data + k.DataPages() < RAM_PAGES && cfg.rptPages <= PAGE_NUMBERS
    requires cfg.pages == BootMap(k, lay, base, argsSize, cfg.trackerBase, cfg.rptPages, desc, hash)
    ensures cfg.Spare(BootGroups(k, argsSize, cfg.rptPages)) == cfg.TopPage()
  {
    hide BootMap, BootGroups, GroupsOf, Tables, Tracks, RegionPages, WholePages, Missing;
    ArgPages(k.textSize);
    BootMapGroups(k, lay, base, argsSize, cfg.trackerBase, cfg.rptPages, desc, hash);
    NoneMissing(cfg);
  }

  lemma KernelInKept(was: PageMap, now: PageMap, k: ProgramDescription, data: int)
    requires 0 <= data && data + k.DataPages() < RAM_PAGES
    requires KernelIn(was, k, data) && Extends(now, was)
    ensures KernelIn(now, k, data)
  {
    hide RangeMap;
  }

  lemma ReadableAtHandOff(m: Ram, l1: PageIndex, l2: map<int, PageIndex>, pages: PageMap, sections: SectionMap,
                          k: ProgramDescription, data: PageIndex, src: Ram, at: nat)
    requires Tables(m, l1, l2, pages, sections)
    requires data + k.DataPages() + k.TextPages() <= RAM_PAGES && data + k.DataPages() < RAM_PAGES
    requires at + k.textSize / 4 + k.dataSize / 4 <= RAM_WORDS && k.WholeWords()
    requires k.textOffset % PAGE_SIZE == 0 && k.dataOffset % PAGE_SIZE == 0
    requires KernelIn(pages, k, data) && ImageIn(m, data, k, src, at)
    ensures KernelReadable(m, AddrOf(l1), k, src, at)
  {
    hide Tables, ImageIn, KernelIn, ReadVirtual, ByteAddr, Executable, Writable, RamByte;
    forall o: nat
      ensures o < k.textSize ==>
                && ReadVirtual(m, AddrOf(l1), ByteAddr(k.textOffset, o)) == Some(RamByte(src, 4 * at + o))
                && Executable(m, AddrOf(l1), ByteAddr(k.textOffset, o))
      ensures o < k.dataSize + k.bssSize ==>
                && ReadVirtual(m, AddrOf(l1), ByteAddr(k.dataOffset, o))
                   == Some(if o < k.dataSize then RamByte(src, 4 * at + k.textSize + o) else 0)
                && Writable(m, AddrOf(l1), ByteAddr(k.dataOffset, o))
    {
      KernelVisible(m, l1, l2, pages, sections, k, data, src, at, o);
    }
  }

  lemma AllOwned(o1: set<int>, o2: set<int>, o3: set<int>, t1: int, t2: int, t3: int, n: nat, a: set<int>, p: set<int>)
    requires t3 <= t2 <= t1 <= RAM_PAGES - BOOT_SPLASH_PAGES - n
    requires o1 == PageSpan(RAM_PAGES - n, RAM_PAGES) + PageSpan(t1, RAM_PAGES - BOOT_SPLASH_PAGES - n)
    requires o2 == o1 + (PageSpan(RAM_PAGES - BOOT_SPLASH_PAGES - n, RAM_PAGES - BOOT_SPLASH_PAGES) + a + p)
               + PageSpan(t2, t1)
    requires o3 == o2 + PageSpan(RAM_PAGES - BOOT_SPLASH_PAGES, RAM_PAGES) + {0} + PageSpan(t3, t2)
    ensures o3 == PageSpan(t3, RAM_PAGES) + (a + p + {0})
  {
  }
}
