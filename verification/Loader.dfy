/** Setting up the page tracker, and mapping the kernel with its thread context and stacks. */
module Loader {
  import opened Arith
  import opened Layout
  import opened Armv7
  import opened PageTables
  import opened Tracker
  import opened RamPages
  import opened Boot
  import opened KernelImage
  import opened Ranges

  function NextMultiple(n: nat, d: nat): nat
    requires d > 0
  {
    if n % d == 0 then n else n + (d - n % d)
  }

  lemma NextMultipleOf(n: nat, d: nat)
    requires d > 0
    ensures NextMultiple(n, d) % d == 0 && n <= NextMultiple(n, d) < n + d
  {
    if n % d != 0 {
      Euclid(NextMultiple(n, d), d, n / d + 1, 0);
    }
  }

  /** A cleared tracker owns nothing. */
  lemma ClearedTracks(m: Ram, base: nat, n: nat, len: nat)
    requires base + n <= RAM_PAGES && len <= n * PAGE_SIZE && len % 4 == 0
    ensures base * PAGE_WORDS + len / 4 <= RAM_WORDS
    ensures Tracks(Cleared(m, base * PAGE_WORDS, base * PAGE_WORDS + len / 4), base, n, len, {})
  {
    var m' := Cleared(m, base * PAGE_WORDS, base * PAGE_WORDS + len / 4);
    forall i | 0 <= i < len
      ensures Entry(m', base, i) == 0
    {
      CellOf(i);
      var w := (base + i / PAGE_SIZE) * PAGE_WORDS + i % PAGE_SIZE / 4;
      assert w == base * PAGE_WORDS + i / 4 by {
        Euclid(i, 4, 1024 * (i / PAGE_SIZE) + i % PAGE_SIZE / 4, i % 4);
      }
      assert i / 4 < len / 4;
      assert Page(m', base + i / PAGE_SIZE)[i % PAGE_SIZE / 4] == m'[w] == 0;
    }
  }

  /** Tracker length: one byte per page of RAM and of every other region, in whole words. */
  function TrackerLength(regions: seq<Range>): nat {
    (RAM_PAGES + RegionPages(regions) + 3) / 4 * 4
  }

  method CountPages(regions: seq<Range>) returns (n: nat)
    requires forall r :: r in regions ==> WholePages(r)
    ensures n == RAM_PAGES + RegionPages(regions)
  {
    n := RAM_PAGES;
    var k := 0;
    while k < |regions|
      invariant 0 <= k <= |regions|
      invariant n == RAM_PAGES + RegionPages(regions[..k])
    {
      var range := regions[k];
      assert regions[..k + 1][..k] == regions[..k] && WholePages(range);
      Euclid(range.end - range.start, PAGE_SIZE, range.end / PAGE_SIZE - range.start / PAGE_SIZE, 0);
      n := n + NextMultiple(range.end - range.start, PAGE_SIZE) / PAGE_SIZE;
      k := k + 1;
    }
    assert regions[..k] == regions;
  }

  /** Compute the tracker's length and reserve that much, rounded up to whole pages. */
  method SizeTracker(cfg: BootConfig) returns (n: nat)
    requires cfg.rptSizeBytes == 0
    requires (forall r :: r in cfg.regions ==> WholePages(r)) && RegionPages(cfg.regions) <= 0x10_0000
    modifies cfg`rptSizeBytes, cfg`rptPages
    ensures n == TrackerLength(cfg.regions) && n % 4 == 0 && RAM_PAGES + RegionPages(cfg.regions) <= n
    ensures cfg.rptSizeBytes == cfg.rptPages * PAGE_SIZE && n <= cfg.rptSizeBytes < n + PAGE_SIZE
    ensures cfg.rptPages < 0x200
  {
    hide RegionPages, WholePages;
    n := CountPages(cfg.regions);
    n := (n + 3) / 4 * 4;
    Euclid(n, 4, n / 4, 0);
    cfg.rptSizeBytes := cfg.rptSizeBytes + n;
    NextMultipleOf(n, PAGE_SIZE);
    cfg.rptSizeBytes := NextMultiple(cfg.rptSizeBytes, PAGE_SIZE);
    cfg.rptPages := cfg.rptSizeBytes / PAGE_SIZE;
  }

  /** Where the tracker goes: right below the splash image, at an address both views agree on. */
  lemma TrackerPlace(rptPages: nat)
    requires BOOT_SPLASH_PAGES + rptPages <= RAM_PAGES
    ensures var base := RAM_PAGES - BOOT_SPLASH_PAGES - rptPages;
            var top := ENCRYPTED_DRAM_END - rptPages * PAGE_SIZE - BOOT_SPLASH_PAGES * PAGE_SIZE;
            0 <= base < RAM_PAGES && top == ToEncrypted(top) == AddrOf(base) && ToPlaintext(top) < ENCRYPTED_DRAM_END
  {
    var base := RAM_PAGES - BOOT_SPLASH_PAGES - rptPages;
    Euclid(AddrOf(base), PLAINTEXT_DRAM_BASE, 2, base * PAGE_SIZE);
    Euclid(AddrOf(base), ENCRYPTED_DRAM_BASE, 1, base * PAGE_SIZE);
  }

  /** Place the tracker below the splash image, clear it, and mark as many pages at the very top of
      RAM as the tracker takes: the tracker's own pages are marked only once they are mapped. */
  method AllocatePageTracker(cfg: BootConfig)
    requires cfg.ram.Length == RAM_WORDS
    requires cfg.extraPages == BOOT_SPLASH_PAGES && cfg.rptSizeBytes == 0 && cfg.rptPages == 0
    requires (forall r :: r in cfg.regions ==> WholePages(r)) && RegionPages(cfg.regions) <= 0x10_0000
    modifies cfg.ram, cfg`rptSizeBytes, cfg`rptPages, cfg`trackerBase, cfg`trackerLen, cfg`owned
    ensures cfg.Ready() && cfg.extraPages == BOOT_SPLASH_PAGES
    ensures cfg.owned == PageSpan(RAM_PAGES - cfg.rptPages, RAM_PAGES)
    ensures cfg.Keeps(old(cfg.Mem()), 0, 0)
    ensures cfg.trackerLen == TrackerLength(cfg.regions) <= cfg.rptPages * PAGE_SIZE < cfg.trackerLen + PAGE_SIZE
    ensures cfg.rptPages < 0x200
  {
    hide Cleared, RegionPages, WholePages, Tracks, Page, TrackerLength;
    var n := SizeTracker(cfg);
    var tracker := ToEncrypted(cfg.GetTop());
    TrackerPlace(cfg.rptPages);
    assert ToPlaintext(tracker) < ENCRYPTED_DRAM_END;
    ClearTracker(cfg, tracker, n);
    cfg.trackerBase, cfg.trackerLen, cfg.owned := tracker, n, {};
    MarkTop(cfg);
  }

  method ClearTracker(cfg: BootConfig, tracker: Word, n: nat)
    requires cfg.ram.Length == RAM_WORDS && 0 <= cfg.TrackerPage()
    requires tracker == AddrOf(cfg.TrackerPage()) && n % 4 == 0 && n <= cfg.rptPages * PAGE_SIZE
    modifies cfg.ram
    ensures Tracks(cfg.Mem(), cfg.TrackerPage(), cfg.rptPages, n, {})
    ensures cfg.Keeps(old(cfg.Mem()), 0, 0)
  {
    hide Cleared, Tracks, Page;
    ghost var base := cfg.TrackerPage();
    Euclid(base * PAGE_SIZE, 4, base * PAGE_WORDS, 0);
    Euclid(base * PAGE_SIZE + n, 4, base * PAGE_WORDS + n / 4, 0);
    cfg.Bzero(tracker, tracker + n);
    ClearedTracks(old(cfg.Mem()), base, cfg.rptPages, n);
    KeepsCleared(cfg, old(cfg.Mem()), base * PAGE_WORDS, base * PAGE_WORDS + n / 4);
  }

  lemma KeepsCleared(cfg: BootConfig, m: Ram, from: nat, to: nat)
    requires cfg.ram.Length == RAM_WORDS && from <= to <= RAM_WORDS
    requires cfg.Mem() == Cleared(m, from, to)
    requires cfg.TrackerPage() * PAGE_WORDS <= from <= to <= (cfg.TrackerPage() + cfg.rptPages) * PAGE_WORDS
    ensures cfg.Keeps(m, 0, 0)
  {
    forall p: PageIndex | !cfg.InTracker(p)
      ensures Page(cfg.Mem(), p) == Page(m, p)
    {
      OutsidePages(m, cfg.Mem(), from, to, p);
    }
  }

  method MarkTop(cfg: BootConfig)
    requires cfg.Ready() && cfg.owned == {} && cfg.rptPages <= RAM_PAGES
    modifies cfg.ram, cfg`owned
    ensures cfg.Ready() && cfg.owned == PageSpan(RAM_PAGES - cfg.rptPages, RAM_PAGES)
    ensures cfg.Keeps(old(cfg.Mem()), 0, 0)
  {
    Euclid(cfg.rptSizeBytes, PAGE_SIZE, cfg.rptPages, 0);
    var i := 0;
    while i < cfg.rptSizeBytes / PAGE_SIZE
      invariant 0 <= i <= cfg.rptPages
      invariant cfg.Ready() && cfg.owned == PageSpan(RAM_PAGES - i, RAM_PAGES)
      invariant cfg.Keeps(old(cfg.Mem()), 0, 0)
    {
      var r := cfg.SetTracker(RAM_PAGES - i - 1);
      assert r.Done?;
      i := i + 1;
    }
  }

  // ---- mapping the kernel ----

  const DATA_FLAGS := Flags(valid := true, x := false, w := true, r := true, u := false, guard := false, dev := false,
      noCache := false)
  const TEXT_FLAGS := DATA_FLAGS.(w := false, x := true)
  const READ_FLAGS := DATA_FLAGS.(w := false)
  const THREAD_FLAGS := DATA_FLAGS.(dev := true, noCache := true)
  const DEVICE_FLAGS := DATA_FLAGS.(dev := true)
  const HASH_FLAGS := READ_FLAGS.(noCache := true)
  const SPLASH_FLAGS := DATA_FLAGS.(u := true)

  /** Where boot-time allocations ended up: the page of the thread context, the lowest page of each
      stack, and the first page of the kernel's data. */
  datatype BootLayout = BootLayout(
    thread: PageIndex, pid1Stack: PageIndex, kernelStack: PageIndex, irqStack: PageIndex, data: PageIndex)

  /** The part of the boot map that belongs to the kernel program. */
  function KernelMap(k: ProgramDescription, lay: BootLayout): PageMap
    requires lay.data + k.DataPages() < RAM_PAGES
  {
    StackMap(lay)
    + RangeMap(k.textOffset, AddrOf(lay.data + k.DataPages()), k.TextPages(), TEXT_FLAGS)
    + RangeMap(k.dataOffset, AddrOf(lay.data), k.DataPages(), DATA_FLAGS)
  }

  /** The checks on the program description; 32-bit sums wrap. */
  predicate Placed(k: ProgramDescription) {
    && k.textOffset == KERNEL_LOAD_OFFSET
    && (k.textOffset + k.textSize) % ADDRESS_SPACE < KERNEL_MODE_STACK_BOTTOM
    && (k.dataOffset + k.dataSize + k.bssSize) % ADDRESS_SPACE < KERNEL_MODE_STACK_BOTTOM - 16
    && k.dataOffset >= KERNEL_LOAD_OFFSET
  }

  /** Install an empty first-level table. */
  method InstallTable(cfg: BootConfig) returns (r: Outcome)
    requires cfg.Ready() && cfg.l2 == map[] && cfg.pages == map[] && cfg.sections == map[]
               && cfg.TopPage() <= cfg.TrackerPage()
    modifies cfg.ram, cfg`extraPages, cfg`owned, cfg`ttbr0, cfg`l1
    ensures r.Done? ==> cfg.Mapping() && cfg.ttbr0 % 0x4000 == 0 && cfg.l1 + 4 <= old(cfg.TopPage())
    ensures r.Done? ==> cfg.owned == old(cfg.owned) + PageSpan(cfg.TopPage(), old(cfg.TopPage()))
    ensures r.Done? ==> cfg.Keeps(old(cfg.Mem()), cfg.TopPage(), old(cfg.TopPage())) && cfg.TopPage() == cfg.l1
    ensures r.Done? ==> cfg.TopPage() == old(cfg.TopPage()) - 4 - old(cfg.TopPage()) % 4
    ensures r.Done? <==> old(cfg.TopPage()) > 4 + old(cfg.TopPage()) % 4
  {
    hide Tracks, RegionPages, WholePages;
    var tt :- cfg.AllocL1PageTable();
    Aligned(cfg.TopPage());
    cfg.ttbr0 := tt;
    cfg.l1 := cfg.TopPage();
    ZeroTable(cfg.Mem(), cfg.l1, old(cfg.TopPage()));
    return Done;
  }

  lemma ZeroTable(m: Ram, l1: PageIndex, to: int)
    requires l1 % 4 == 0 && l1 + 4 <= to <= RAM_PAGES && ZeroPages(m, l1, to)
    ensures Tables(m, l1, map[], map[], map[])
  {
    forall p: PageIndex | l1 <= p < l1 + 4
      ensures ZeroPage(m, p)
    {
      assert Page(m, p) == Page(m, p);
    }
    EmptyTables(m, l1);
  }

  /** The thread context page and the three stacks. */
  function StackMap(lay: BootLayout): PageMap {
    RangeMap(THREAD_CONTEXT_AREA, AddrOf(lay.thread), 1, THREAD_FLAGS)
    + RangeMap(PID1_STACK_LOW, AddrOf(lay.pid1Stack), PID1_STACK_PAGE_COUNT, DATA_FLAGS)
    + RangeMap(KERNEL_STACK_LOW, AddrOf(lay.kernelStack), KERNEL_MODE_STACK_PAGE_COUNT, DATA_FLAGS)
    + RangeMap(IRQ_STACK_LOW, AddrOf(lay.irqStack), PID1_IRQ_HANDLER_STACK_PAGE_COUNT, DATA_FLAGS)
  }

  const PID1_STACK_LOW := PID1_STACK_BOTTOM - PAGE_SIZE * PID1_STACK_PAGE_COUNT
  const KERNEL_STACK_LOW := KERNEL_MODE_STACK_BOTTOM - PAGE_SIZE * KERNEL_MODE_STACK_PAGE_COUNT
  const IRQ_STACK_LOW := PID1_IRQ_HANDLER_STACK_BOTTOM - PAGE_SIZE * PID1_IRQ_HANDLER_STACK_PAGE_COUNT

  /** A run that overlaps neither the thread context nor a stack is clear of them. */
  lemma ClearOfStacks(lay: BootLayout, virt: Word, n: nat)
    requires Disjoint(THREAD_CONTEXT_AREA, 1, virt, n) && Disjoint(PID1_STACK_LOW, PID1_STACK_PAGE_COUNT, virt, n)
    ensures var pages := RangeMap(THREAD_CONTEXT_AREA, AddrOf(lay.thread), 1, THREAD_FLAGS)
                         + RangeMap(PID1_STACK_LOW, AddrOf(lay.pid1Stack), PID1_STACK_PAGE_COUNT, DATA_FLAGS);
            && Clear(RangeMap(THREAD_CONTEXT_AREA, AddrOf(lay.thread), 1, THREAD_FLAGS), virt, n)
            && Clear(pages, virt, n)
            && (Disjoint(KERNEL_STACK_LOW, KERNEL_MODE_STACK_PAGE_COUNT, virt, n) ==>
                  && Clear(pages + RangeMap(KERNEL_STACK_LOW, AddrOf(lay.kernelStack), KERNEL_MODE_STACK_PAGE_COUNT,
                      DATA_FLAGS), virt, n)
                  && (Disjoint(IRQ_STACK_LOW, PID1_IRQ_HANDLER_STACK_PAGE_COUNT, virt, n) ==>
                      Clear(StackMap(lay), virt, n)))
  {
    hide RangeMap, Clear;
    var none: PageMap := map[];
    var thread := RangeMap(THREAD_CONTEXT_AREA, AddrOf(lay.thread), 1, THREAD_FLAGS);
    var pages := thread + RangeMap(PID1_STACK_LOW, AddrOf(lay.pid1Stack), PID1_STACK_PAGE_COUNT, DATA_FLAGS);
    NothingClear(virt, n);
    ClearRange(none, THREAD_CONTEXT_AREA, AddrOf(lay.thread), 1, THREAD_FLAGS, virt, n);
    assert none + thread == thread;
    ClearRange(thread, PID1_STACK_LOW, AddrOf(lay.pid1Stack), PID1_STACK_PAGE_COUNT, DATA_FLAGS, virt, n);
    if Disjoint(KERNEL_STACK_LOW, KERNEL_MODE_STACK_PAGE_COUNT, virt, n) {
      ClearRange(pages, KERNEL_STACK_LOW, AddrOf(lay.kernelStack), KERNEL_MODE_STACK_PAGE_COUNT, DATA_FLAGS, virt, n);
      if Disjoint(IRQ_STACK_LOW, PID1_IRQ_HANDLER_STACK_PAGE_COUNT, virt, n) {
        ClearRange(pages + RangeMap(KERNEL_STACK_LOW, AddrOf(lay.kernelStack), KERNEL_MODE_STACK_PAGE_COUNT,
            DATA_FLAGS),
                   IRQ_STACK_LOW, AddrOf(lay.irqStack), PID1_IRQ_HANDLER_STACK_PAGE_COUNT, DATA_FLAGS, virt, n);
      }
    }
  }

  lemma NothingClear(virt: Word, n: nat)
    ensures Clear(map[], virt, n)
  {
  }

  /** The groups of the thread context and of the stacks belong to a set. */
  ghost predicate CoversStacks(gs: set<int>) {
    && Covers(gs, THREAD_CONTEXT_AREA, 1) && Covers(gs, PID1_STACK_LOW, PID1_STACK_PAGE_COUNT)
    && Covers(gs, KERNEL_STACK_LOW, KERNEL_MODE_STACK_PAGE_COUNT)
    && Covers(gs, IRQ_STACK_LOW, PID1_IRQ_HANDLER_STACK_PAGE_COUNT)
  }

  /** Thread context and stacks have pages of their own, one below the other, and none of them is a table. */
  ghost predicate LaidOut(lay: BootLayout, l1: PageIndex, l2: map<int, PageIndex>, top: int) {
    && ThreadLaidOut(lay.thread, lay.pid1Stack, l1, l2, lay.kernelStack + KERNEL_MODE_STACK_PAGE_COUNT)
    && NoTables(l2, lay.kernelStack, KERNEL_MODE_STACK_PAGE_COUNT)
    && lay.irqStack + PID1_IRQ_HANDLER_STACK_PAGE_COUNT <= lay.kernelStack
    && NoTables(l2, lay.irqStack, PID1_IRQ_HANDLER_STACK_PAGE_COUNT) && top <= lay.irqStack
  }

  ghost predicate ThreadLaidOut(thread: PageIndex, stack: PageIndex, l1: PageIndex, l2: map<int, PageIndex>, top: int) {
    && thread < l1 && NoTables(l2, thread, 1)
    && stack + PID1_STACK_PAGE_COUNT <= thread && NoTables(l2, stack, PID1_STACK_PAGE_COUNT) && top <= stack
  }

  lemma StillThreadLaidOut(thread: PageIndex, stack: PageIndex, l1: PageIndex, was: map<int, PageIndex>, top: int,
                           now: map<int, PageIndex>, newTop: int)
    requires ThreadLaidOut(thread, stack, l1, was, top) && Grown(was, top, now, newTop)
    ensures ThreadLaidOut(thread, stack, l1, now, newTop)
  {
    hide Grown, NoTables;
    StillNoTables(was, top, now, newTop, thread, 1);
    StillNoTables(was, top, now, newTop, stack, PID1_STACK_PAGE_COUNT);
    assert newTop <= top by { LowerTop(was, top, now, newTop); }
  }

  lemma LowerTop(was: map<int, PageIndex>, top: int, now: map<int, PageIndex>, newTop: int)
    requires Grown(was, top, now, newTop)
    ensures newTop <= top
  {
  }

  lemma StillLaidOut(lay: BootLayout, l1: PageIndex, was: map<int, PageIndex>, top: int, now: map<int, PageIndex>,
                     newTop: int)
    requires LaidOut(lay, l1, was, top) && Grown(was, top, now, newTop)
    ensures LaidOut(lay, l1, now, newTop)
  {
    hide Grown, NoTables;
    LowerTop(was, top, now, newTop);
    StillNoTables(was, top, now, newTop, lay.thread, 1);
    StillNoTables(was, top, now, newTop, lay.pid1Stack, PID1_STACK_PAGE_COUNT);
    StillNoTables(was, top, now, newTop, lay.kernelStack, KERNEL_MODE_STACK_PAGE_COUNT);
    StillNoTables(was, top, now, newTop, lay.irqStack, PID1_IRQ_HANDLER_STACK_PAGE_COUNT);
  }

  /** Map the thread context and the first stack into an empty map. */
  method MapThread(cfg: BootConfig, ghost gs: set<int>)
    returns (r: Outcome, ghost thread: PageIndex, ghost stack: PageIndex)
    requires cfg.Mapping() && cfg.pages == map[] && cfg.sections == map[] && cfg.TopPage() <= cfg.TrackerPage()
    requires CoversStacks(gs)
    modifies cfg.ram, cfg`extraPages, cfg`owned, cfg`l2, cfg`pages
    ensures r.Done? ==> cfg.Mapping() && cfg.TopPage() <= old(cfg.TopPage())
    ensures r.Done? ==> cfg.pages == RangeMap(THREAD_CONTEXT_AREA, AddrOf(thread), 1, THREAD_FLAGS)
                                     + RangeMap(PID1_STACK_LOW, AddrOf(stack), PID1_STACK_PAGE_COUNT, DATA_FLAGS)
    ensures r.Done? ==> cfg.owned == old(cfg.owned) + PageSpan(cfg.TopPage(), old(cfg.TopPage()))
    ensures r.Done? ==> cfg.KeepsImage(old(cfg.Mem()))
    ensures r.Done? && old(Tight(cfg.l2, cfg.pages)) ==> Tight(cfg.l2, cfg.pages)
    ensures r.Done? ==> ThreadLaidOut(thread, stack, cfg.l1, cfg.l2, cfg.TopPage())
    ensures r.Done? ==> cfg.Spare(gs) == old(cfg.Spare(gs)) - 17
    ensures old(cfg.Spare(gs)) > 17 ==> r.Done?
  {
    hide Tables, Tracks, RegionPages, WholePages, EntryOf, StepAddr, RangeMap, Page;
    hide ZeroPages, PageSpan, SectionFree, Clear, VirtFree, Tight, Covers, Missing, Grown, NoTables;
    thread, stack := 0, 0;
    ghost var start, owned := cfg.TopPage(), cfg.owned;
    NothingClear(THREAD_CONTEXT_AREA, 1);
    ClearIsFree(map[], THREAD_CONTEXT_AREA, 1);
    var phys :- MapFresh(cfg, THREAD_CONTEXT_AREA, THREAD_FLAGS, gs);
    assert cfg.pages == RangeMap(THREAD_CONTEXT_AREA, phys, 1, THREAD_FLAGS);
    thread := start - 1;
    ghost var top, l2 := cfg.TopPage(), cfg.l2;
    NotATable(cfg.l1, cfg.l2, thread);
    ClearOfStackBefore(thread);
    var stackTop :- AllocateStack(cfg, PID1_STACK_BOTTOM, PID1_STACK_PAGE_COUNT, DATA_FLAGS, gs);
    stack := top - PID1_STACK_PAGE_COUNT;
    StillNoTables(l2, top, cfg.l2, cfg.TopPage(), thread, 1);
    SpanJoin(owned, cfg.TopPage(), top, start);
    return Done, thread, stack;
  }

  lemma NotATable(l1: PageIndex, l2: map<int, PageIndex>, p: PageIndex)
    requires !IsTablePage(l1, l2, p)
    ensures NoTables(l2, p, 1)
  {
  }

  lemma ClearOfStackBefore(thread: PageIndex)
    ensures VirtFree(RangeMap(THREAD_CONTEXT_AREA, AddrOf(thread), 1, THREAD_FLAGS), PID1_STACK_LOW,
              PID1_STACK_PAGE_COUNT)
  {
    hide RangeMap, Clear;
    var none: PageMap := map[];
    NothingClear(PID1_STACK_LOW, PID1_STACK_PAGE_COUNT);
    ClearRange(none, THREAD_CONTEXT_AREA, AddrOf(thread), 1, THREAD_FLAGS, PID1_STACK_LOW, PID1_STACK_PAGE_COUNT);
    assert none + RangeMap(THREAD_CONTEXT_AREA, AddrOf(thread), 1, THREAD_FLAGS)
        == RangeMap(THREAD_CONTEXT_AREA, AddrOf(thread), 1, THREAD_FLAGS);
    ClearIsFree(RangeMap(THREAD_CONTEXT_AREA, AddrOf(thread), 1, THREAD_FLAGS), PID1_STACK_LOW, PID1_STACK_PAGE_COUNT);
  }

  /** Map the thread context and the three stacks into an empty map. */
  method MapStacks(cfg: BootConfig, ghost data: PageIndex, ghost gs: set<int>)
    returns (r: Outcome, ghost lay: BootLayout)
    requires cfg.Mapping() && cfg.pages == map[] && cfg.sections == map[] && cfg.TopPage() <= cfg.TrackerPage()
    requires CoversStacks(gs)
    modifies cfg.ram, cfg`extraPages, cfg`owned, cfg`l2, cfg`pages
    ensures lay.data == data
    ensures r.Done? ==> cfg.Mapping() && cfg.pages == StackMap(lay) && cfg.TopPage() <= old(cfg.TopPage())
    ensures r.Done? ==> cfg.owned == old(cfg.owned) + PageSpan(cfg.TopPage(), old(cfg.TopPage()))
    ensures r.Done? ==> cfg.KeepsImage(old(cfg.Mem()))
    ensures r.Done? && old(Tight(cfg.l2, cfg.pages)) ==> Tight(cfg.l2, cfg.pages)
    ensures r.Done? ==> LaidOut(lay, cfg.l1, cfg.l2, cfg.TopPage())
    ensures r.Done? ==> cfg.Spare(gs) == old(cfg.Spare(gs)) - 29
    ensures old(cfg.Spare(gs)) > 29 ==> r.Done?
  {
    hide Tables, Tracks, RegionPages, WholePages, EntryOf, StepAddr, RangeMap, Page;
    hide ZeroPages, PageSpan, SectionFree, Clear, VirtFree, Tight, Covers, Missing, Grown, NoTables;
    ghost var start, owned := cfg.TopPage(), cfg.owned;
    lay := BootLayout(0, 0, 0, 0, data);
    ghost var thread, stack;
    r, thread, stack := MapThread(cfg, gs);
    :- r;
    ghost var t1, l1 := cfg.TopPage(), cfg.l2;
    lay := lay.(thread := thread, pid1Stack := stack);
    StacksRoom(lay);
    var stackTop :- AllocateStack(cfg, KERNEL_MODE_STACK_BOTTOM, KERNEL_MODE_STACK_PAGE_COUNT, DATA_FLAGS, gs);
    lay := lay.(kernelStack := t1 - KERNEL_MODE_STACK_PAGE_COUNT);
    ghost var t2, l2 := cfg.TopPage(), cfg.l2;
    StillThreadLaidOut(lay.thread, lay.pid1Stack, cfg.l1, l1, t1, cfg.l2, t2);
    SpanJoin(owned, t2, t1, start);
    StacksRoom(lay);
    stackTop :- AllocateStack(cfg, PID1_IRQ_HANDLER_STACK_BOTTOM, PID1_IRQ_HANDLER_STACK_PAGE_COUNT, DATA_FLAGS, gs);
    lay := lay.(irqStack := t2 - PID1_IRQ_HANDLER_STACK_PAGE_COUNT);
    StillThreadLaidOut(lay.thread, lay.pid1Stack, cfg.l1, l2, t2, cfg.l2, cfg.TopPage());
    StillNoTables(l2, t2, cfg.l2, cfg.TopPage(), lay.kernelStack, KERNEL_MODE_STACK_PAGE_COUNT);
    SpanJoin(owned, cfg.TopPage(), t2, start);
    return Done, lay;
  }

  /** The later stacks are clear of the earlier ones. */
  lemma StacksRoom(lay: BootLayout)
    ensures var pages := RangeMap(THREAD_CONTEXT_AREA, AddrOf(lay.thread), 1, THREAD_FLAGS)
                         + RangeMap(PID1_STACK_LOW, AddrOf(lay.pid1Stack), PID1_STACK_PAGE_COUNT, DATA_FLAGS);
            && VirtFree(pages, KERNEL_STACK_LOW, KERNEL_MODE_STACK_PAGE_COUNT)
            && VirtFree(pages + RangeMap(KERNEL_STACK_LOW, AddrOf(lay.kernelStack), KERNEL_MODE_STACK_PAGE_COUNT,
                DATA_FLAGS),
                        IRQ_STACK_LOW, PID1_IRQ_HANDLER_STACK_PAGE_COUNT)
  {
    hide RangeMap, Clear, VirtFree;
    var pages := RangeMap(THREAD_CONTEXT_AREA, AddrOf(lay.thread), 1, THREAD_FLAGS)
                 + RangeMap(PID1_STACK_LOW, AddrOf(lay.pid1Stack), PID1_STACK_PAGE_COUNT, DATA_FLAGS);
    ClearOfStacks(lay, KERNEL_STACK_LOW, KERNEL_MODE_STACK_PAGE_COUNT);
    ClearIsFree(pages, KERNEL_STACK_LOW, KERNEL_MODE_STACK_PAGE_COUNT);
    ClearOfStacks(lay, IRQ_STACK_LOW, PID1_IRQ_HANDLER_STACK_PAGE_COUNT);
    ClearIsFree(pages + RangeMap(KERNEL_STACK_LOW, AddrOf(lay.kernelStack), KERNEL_MODE_STACK_PAGE_COUNT, DATA_FLAGS),
                IRQ_STACK_LOW, PID1_IRQ_HANDLER_STACK_PAGE_COUNT);
  }

  /** Install the first-level table and map the thread context and the stacks. */
  method MapOwnPages(cfg: BootConfig, ghost gs: set<int>) returns (r: Outcome, ghost lay: BootLayout)
    requires cfg.Ready() && cfg.l2 == map[] && cfg.pages == map[] && cfg.sections == map[]
    requires 0 <= cfg.TopPage() < RAM_PAGES && cfg.TopPage() <= cfg.TrackerPage() && CoversStacks(gs)
    modifies cfg.ram, cfg`extraPages, cfg`owned, cfg`l1, cfg`l2, cfg`pages, cfg`ttbr0
    ensures lay.data == old(cfg.TopPage())
    ensures r.Done? ==> cfg.Mapping() && cfg.ttbr0 % 0x4000 == 0 && cfg.l1 + 4 <= lay.data && cfg.TopPage() <= lay.data
    ensures r.Done? ==> cfg.pages == StackMap(lay)
    ensures r.Done? ==> cfg.owned == old(cfg.owned) + PageSpan(cfg.TopPage(), lay.data)
    ensures r.Done? ==> cfg.Keeps(old(cfg.Mem()), cfg.TopPage(), lay.data)
    ensures r.Done? ==> LaidOut(lay, cfg.l1, cfg.l2, cfg.TopPage())
    ensures r.Done? ==> Tight(cfg.l2, cfg.pages) && cfg.Spare(gs) == lay.data - lay.data % 4 - 33 - |gs|
    ensures old(cfg.TopPage()) - old(cfg.TopPage()) % 4 > 33 + |gs| ==> r.Done?
  {
    hide Tables, Tracks, RegionPages, WholePages, EntryOf, Page, PageSpan, StackMap, Apart, ZeroPages, HasPage;
    hide CoversStacks, Missing, LaidOut;
    NoneYet(gs);
    ghost var data, owned := cfg.TopPage(), cfg.owned;
    lay := BootLayout(0, 0, 0, 0, data);
    :- InstallTable(cfg);
    ghost var t0 := cfg.TopPage();
    r, lay := MapStacks(cfg, data, gs);
    :- r;
    SpanJoin(owned, cfg.TopPage(), t0, data);
    return Done, lay;
  }

  /** Without tables every group is missing. */
  lemma NoneYet(gs: set<int>)
    ensures Missing(gs, map[]) == |gs|
  {
    var none: map<int, PageIndex> := map[];
    assert gs - none.Keys == gs;
  }

  /** The map holds the image: text read-only and executable, data and bss writable. */
  ghost predicate KernelIn(pages: PageMap, k: ProgramDescription, data: int)
    requires 0 <= data && data + k.DataPages() < RAM_PAGES
  {
    && Extends(pages, RangeMap(k.textOffset, AddrOf(data + k.DataPages()), k.TextPages(), TEXT_FLAGS))
    && Extends(pages, RangeMap(k.dataOffset, AddrOf(data), k.DataPages(), DATA_FLAGS))
  }

  /** Text and data have room in the map and do not overlap. */
  ghost predicate ImageFits(pages: PageMap, k: ProgramDescription, data: int)
    requires 0 <= data && data + k.DataPages() < RAM_PAGES
  {
    && k.textOffset % PAGE_SIZE == 0 && k.dataOffset % PAGE_SIZE == 0
    && VirtFree(pages, k.textOffset, k.TextPages())
    && VirtFree(pages + RangeMap(k.textOffset, AddrOf(data + k.DataPages()), k.TextPages(), TEXT_FLAGS),
                k.dataOffset, k.DataPages())
  }

  /** The groups of text and data belong to a set. */
  ghost predicate CoversImage(gs: set<int>, k: ProgramDescription) {
    Covers(gs, k.textOffset, k.TextPages()) && Covers(gs, k.dataOffset, k.DataPages())
  }

  /** Map the copied text and data; `data` is the first page of the image. */
  method MapImage(cfg: BootConfig, k: ProgramDescription, loadOffset: Word, ghost data: PageIndex, ghost gs: set<int>)
    returns (r: Outcome)
    requires cfg.Mapping() && cfg.sections == map[] && loadOffset == AddrOf(data)
    requires data + k.DataPages() + k.TextPages() == cfg.TrackerPage() < RAM_PAGES && CoversImage(gs, k)
    modifies cfg.ram, cfg`extraPages, cfg`owned, cfg`l2, cfg`pages
    ensures r.Done? ==> cfg.Mapping() && cfg.TopPage() <= old(cfg.TopPage())
    ensures r.Done? ==> cfg.pages == old(cfg.pages)
                                     + RangeMap(k.textOffset, AddrOf(data + k.DataPages()), k.TextPages(), TEXT_FLAGS)
                                     + RangeMap(k.dataOffset, AddrOf(data), k.DataPages(), DATA_FLAGS)
    ensures r.Done? ==> KernelIn(cfg.pages, k, data) && k.textOffset % PAGE_SIZE == 0 && k.dataOffset % PAGE_SIZE == 0
    ensures r.Done? ==>
              cfg.owned == old(cfg.owned) + PageSpan(data, cfg.TrackerPage())
              + PageSpan(cfg.TopPage(), old(cfg.TopPage()))
    ensures r.Done? ==> cfg.KeepsImage(old(cfg.Mem()))
    ensures r.Done? && old(Tight(cfg.l2, cfg.pages)) ==> Tight(cfg.l2, cfg.pages)
    ensures r.Done? ==> cfg.GrownTables(old(cfg.l2), old(cfg.TopPage()))
    ensures r.Done? ==> cfg.Spare(gs) == old(cfg.Spare(gs)) && ImageFits(old(cfg.pages), k, data)
    ensures ImageFits(old(cfg.pages), k, data) && old(cfg.Spare(gs)) > 0 ==> r.Done?
  {
    hide Tables, Tracks, RegionPages, WholePages, EntryOf, StepAddr, RangeMap, Page, Tight, VirtFree, Covers, Missing,
         KernelIn, PageSpan, Grown;
    ghost var l0 := cfg.l2;
    ghost var owned, top, mid, was := cfg.owned, cfg.TopPage(), data + k.DataPages(), cfg.pages;
    if k.textOffset % PAGE_SIZE != 0 || k.dataOffset % PAGE_SIZE != 0 {
      return Panicked;
    }
    :- MapDram(cfg, loadOffset + k.DataPages() * PAGE_SIZE, k.textOffset, k.TextPages(), TEXT_FLAGS, mid, gs);
    ghost var withText, owned1, top1, l1 := cfg.pages, cfg.owned, cfg.TopPage(), cfg.l2;
    :- MapDram(cfg, loadOffset, k.dataOffset, k.DataPages(), DATA_FLAGS, data, gs);
    GrownThen(l0, top, l1, top1, cfg.l2, cfg.TopPage());
    TextThenData(was, withText, cfg.pages, k, data);
    ImageSpans(owned, owned1, cfg.owned, data, mid, mid + k.TextPages(), cfg.TopPage(), top1, top);
    return Done;
  }

  lemma TextThenData(was: PageMap, withText: PageMap, pages: PageMap, k: ProgramDescription, data: int)
    requires 0 <= data && data + k.DataPages() < RAM_PAGES && Extends(pages, withText)
    requires withText == was + RangeMap(k.textOffset, AddrOf(data + k.DataPages()), k.TextPages(), TEXT_FLAGS)
    requires pages == withText + RangeMap(k.dataOffset, AddrOf(data), k.DataPages(), DATA_FLAGS)
    ensures KernelIn(pages, k, data)
  {
    hide RangeMap;
  }

  lemma ImageSpans(o0: set<int>, o1: set<int>, o2: set<int>, data: int, mid: int, end: int, t2: int, t1: int, t0: int)
    requires data <= mid <= end && t2 <= t1 <= t0
    requires o1 == o0 + PageSpan(mid, end) + PageSpan(t1, t0) && o2 == o1 + PageSpan(data, mid) + PageSpan(t2, t1)
    ensures o2 == o0 + PageSpan(data, end) + PageSpan(t2, t0)
  {
  }

  /** Where the kernel program may lie: its text starts at a fixed address and ends below the first stack;
      its data lies behind the text and below that stack, or between it and the next one, or above all
      stacks, from where it goes round the end of the address space. */
  predicate KernelFits(k: ProgramDescription) {
    && Placed(k) && k.dataOffset % PAGE_SIZE == 0
    && k.TextPages() <= (PID1_STACK_LOW - KERNEL_LOAD_OFFSET) / PAGE_SIZE
    && DataFits(k.dataOffset / PAGE_SIZE, k.DataPages(), k.TextPages())
  }

  /** `n` pages of data from page number `d` on, `t` pages of text. */
  predicate DataFits(d: nat, n: nat, t: nat) {
    || n == 0
    || (KERNEL_LOAD_OFFSET / PAGE_SIZE + t <= d && d + n <= PID1_STACK_LOW / PAGE_SIZE)
    || (PID1_STACK_BOTTOM / PAGE_SIZE <= d && d + n <= IRQ_STACK_LOW / PAGE_SIZE)
    || KERNEL_MODE_STACK_BOTTOM / PAGE_SIZE <= d
  }

  /** The pages that the thread context, the stacks and `t` pages of text take. */
  predicate Taken(t: nat, u: int) {
    || u == THREAD_CONTEXT_AREA / PAGE_SIZE
    || KERNEL_LOAD_OFFSET / PAGE_SIZE <= u < KERNEL_LOAD_OFFSET / PAGE_SIZE + t
    || PID1_STACK_LOW / PAGE_SIZE <= u < PID1_STACK_BOTTOM / PAGE_SIZE
    || IRQ_STACK_LOW / PAGE_SIZE <= u < KERNEL_MODE_STACK_BOTTOM / PAGE_SIZE
  }

  lemma StackPages(lay: BootLayout, u: int)
    ensures u in StackMap(lay) <==> Taken(0, u)
  {
    hide RangeMap;
    InWholeRange(THREAD_CONTEXT_AREA, AddrOf(lay.thread), 1, THREAD_FLAGS, u);
    InWholeRange(PID1_STACK_LOW, AddrOf(lay.pid1Stack), PID1_STACK_PAGE_COUNT, DATA_FLAGS, u);
    InWholeRange(KERNEL_STACK_LOW, AddrOf(lay.kernelStack), KERNEL_MODE_STACK_PAGE_COUNT, DATA_FLAGS, u);
    InWholeRange(IRQ_STACK_LOW, AddrOf(lay.irqStack), PID1_IRQ_HANDLER_STACK_PAGE_COUNT, DATA_FLAGS, u);
  }

  /** The page number `k` further on. */
  function Onward(d: nat, k: nat): nat {
    (d + k) % PAGE_NUMBERS
  }

  /** A run of pages avoids the taken ones exactly if it fits as data does. */
  lemma DataAvoids(d: nat, n: nat, t: nat)
    requires KERNEL_LOAD_OFFSET / PAGE_SIZE <= d < PAGE_NUMBERS && n <= RAM_PAGES
    requires t <= (PID1_STACK_LOW - KERNEL_LOAD_OFFSET) / PAGE_SIZE
    ensures DataFits(d, n, t) <==> forall k :: 0 <= k < n ==> !Taken(t, Onward(d, k))
  {
    if DataFits(d, n, t) {
      forall k | 0 <= k < n
        ensures !Taken(t, Onward(d, k))
      {
        if d + k < PAGE_NUMBERS {
          Euclid(d + k, PAGE_NUMBERS, 0, d + k);
        } else {
          Euclid(d + k, PAGE_NUMBERS, 1, d + k - PAGE_NUMBERS);
        }
      }
    } else {
      var first := if d < PID1_STACK_LOW / PAGE_SIZE then PID1_STACK_LOW / PAGE_SIZE else IRQ_STACK_LOW / PAGE_SIZE;
      var k := if Taken(t, d) then 0 else first - d;
      Euclid(d + k, PAGE_NUMBERS, 0, d + k);
      assert Taken(t, Onward(d, k));
    }
  }

  /** The image has room beside the stacks exactly if the kernel lies where it may. */
  lemma KernelFitsExactly(k: ProgramDescription, lay: BootLayout)
    requires Placed(k) && lay.data + k.DataPages() < RAM_PAGES
    ensures KernelFits(k) <==> ImageFits(StackMap(lay), k, lay.data)
  {
    hide StackMap, RangeMap, StepAddr, DataFits, Taken;
    var t, d, n := k.TextPages(), k.dataOffset / PAGE_SIZE, k.DataPages();
    TextFree(k, lay);
    if t <= (PID1_STACK_LOW - KERNEL_LOAD_OFFSET) / PAGE_SIZE {
      DataAvoids(d, n, t);
      forall i | 0 <= i < n
        ensures StepAddr(k.dataOffset, i) / PAGE_SIZE
             in StackMap(lay) + RangeMap(k.textOffset, AddrOf(lay.data + n), t, TEXT_FLAGS)
           <==> Taken(t, Onward(d, i))
      {
        StepPage(k.dataOffset, i);
        TakenByText(k, lay, Onward(d, i));
      }
    }
  }

  lemma TakenByText(k: ProgramDescription, lay: BootLayout, u: int)
    requires k.textOffset == KERNEL_LOAD_OFFSET && lay.data + k.DataPages() < RAM_PAGES
    requires k.TextPages() <= (PID1_STACK_LOW - KERNEL_LOAD_OFFSET) / PAGE_SIZE
    ensures u in StackMap(lay) + RangeMap(k.textOffset, AddrOf(lay.data + k.DataPages()), k.TextPages(), TEXT_FLAGS)
       <==> Taken(k.TextPages(), u)
  {
    hide StackMap, RangeMap;
    StackPages(lay, u);
    InWholeRange(k.textOffset, AddrOf(lay.data + k.DataPages()), k.TextPages(), TEXT_FLAGS, u);
  }

  lemma TextFree(k: ProgramDescription, lay: BootLayout)
    requires k.textOffset == KERNEL_LOAD_OFFSET
    ensures VirtFree(StackMap(lay), k.textOffset, k.TextPages())
       <==> k.TextPages() <= (PID1_STACK_LOW - KERNEL_LOAD_OFFSET) / PAGE_SIZE
  {
    hide StackMap, StepAddr, PagesOf;
    var first := KERNEL_LOAD_OFFSET / PAGE_SIZE;
    var room := (PID1_STACK_LOW - KERNEL_LOAD_OFFSET) / PAGE_SIZE;
    forall i | 0 <= i <= room
      ensures StepAddr(k.textOffset, i) / PAGE_SIZE in StackMap(lay) <==> i == room
    {
      StepPage(k.textOffset, i);
      Euclid(first + i, PAGE_NUMBERS, 0, first + i);
      StackPages(lay, first + i);
    }
    if k.TextPages() > room {
      assert StepAddr(k.textOffset, room) / PAGE_SIZE in StackMap(lay);
    }
  }

  /** The mappings of a kernel program whose image was copied to the top of free RAM. */
  method MapProgram(cfg: BootConfig, k: ProgramDescription, ghost gs: set<int>)
    returns (r: Outcome, ghost lay: BootLayout)
    requires Placed(k) && CoversStacks(gs) && CoversImage(gs, k)
    requires cfg.Ready() && cfg.l2 == map[] && cfg.pages == map[] && cfg.sections == map[]
    requires cfg.TopPage() + k.DataPages() + k.TextPages() == cfg.TrackerPage() < RAM_PAGES
    modifies cfg.ram, cfg`extraPages, cfg`owned, cfg`l1, cfg`l2, cfg`pages, cfg`ttbr0
    ensures lay.data == old(cfg.TopPage()) && lay.data + k.DataPages() < RAM_PAGES
    ensures r.Done? ==> cfg.Mapping() && cfg.ttbr0 % 0x4000 == 0 && cfg.l1 + 4 <= lay.data
    ensures r.Done? ==> k.textOffset % PAGE_SIZE == 0 && k.dataOffset % PAGE_SIZE == 0
    ensures r.Done? ==> cfg.pages == KernelMap(k, lay) && KernelIn(cfg.pages, k, lay.data)
    ensures r.Done? ==> cfg.owned == old(cfg.owned) + PageSpan(cfg.TopPage(), cfg.TrackerPage())
    ensures r.Done? ==> cfg.Keeps(old(cfg.Mem()), cfg.TopPage(), lay.data)
    ensures r.Done? ==> KernelFits(k) && Tight(cfg.l2, cfg.pages) && LaidOut(lay, cfg.l1, cfg.l2, cfg.TopPage())
    ensures r.Done? ==> cfg.Spare(gs) == lay.data - lay.data % 4 - 33 - |gs|
    ensures KernelFits(k) && lay.data - lay.data % 4 > 33 + |gs| ==> r.Done?
  {
    hide Tables, Tracks, RegionPages, WholePages, EntryOf, StepAddr, RangeMap, Page;
    hide PageSpan, StackMap, KernelIn, Apart, Tight, ImageFits, KernelFits, Placed, PagesOf, CoversStacks, CoversImage,
         Missing, LaidOut, Grown;
    ghost var data, owned := cfg.TopPage(), cfg.owned;
    var loadOffset := cfg.GetTop();
    TopAddress(cfg.rptPages, cfg.extraPages);
    r, lay := MapOwnPages(cfg, gs);
    :- r;
    ghost var top, l2 := cfg.TopPage(), cfg.l2;
    KernelFitsExactly(k, lay);
    :- MapImage(cfg, k, loadOffset, data, gs);
    StillLaidOut(lay, cfg.l1, l2, top, cfg.l2, cfg.TopPage());
    SpanUnion(owned, cfg.TopPage(), top, data, cfg.TrackerPage());
    return Done, lay;
  }

  /** Check the program description, map the program, and note where it starts. */
  method MapKernel(cfg: BootConfig, k: ProgramDescription, ghost gs: set<int>)
    returns (r: Outcome, ghost lay: BootLayout)
    requires CoversStacks(gs) && CoversImage(gs, k)
    requires cfg.Ready() && cfg.l2 == map[] && cfg.pages == map[] && cfg.sections == map[]
    requires cfg.TopPage() + k.DataPages() + k.TextPages() == cfg.TrackerPage() < RAM_PAGES
    modifies cfg.ram, cfg`extraPages, cfg`owned, cfg`l1, cfg`l2, cfg`pages, cfg`ttbr0, cfg`entrypoint, cfg`sp
    ensures lay.data == old(cfg.TopPage()) && lay.data + k.DataPages() < RAM_PAGES
    ensures r.Done? ==> cfg.Mapping() && cfg.ttbr0 % 0x4000 == 0 && cfg.l1 + 4 <= lay.data
    ensures r.Done? ==> Placed(k) && k.textOffset % PAGE_SIZE == 0 && k.dataOffset % PAGE_SIZE == 0
    ensures r.Done? ==> cfg.pages == KernelMap(k, lay) && KernelIn(cfg.pages, k, lay.data)
    ensures r.Done? ==> cfg.owned == old(cfg.owned) + PageSpan(cfg.TopPage(), cfg.TrackerPage())
    ensures r.Done? ==> cfg.entrypoint == k.entrypoint && cfg.sp == PID1_STACK_BOTTOM
    ensures r.Done? ==> cfg.Keeps(old(cfg.Mem()), cfg.TopPage(), lay.data)
    ensures r.Done? ==> KernelFits(k) && Tight(cfg.l2, cfg.pages) && LaidOut(lay, cfg.l1, cfg.l2, cfg.TopPage())
    ensures r.Done? ==> cfg.Spare(gs) == lay.data - lay.data % 4 - 33 - |gs|
    ensures KernelFits(k) && lay.data - lay.data % 4 > 33 + |gs| ==> r.Done?
  {
    hide Tables, Tracks, RegionPages, WholePages, RangeMap, Page, PageSpan, KernelIn, KernelMap, Tight, PagesOf,
         CoversStacks, CoversImage, Missing, DataFits, LaidOut;
    lay := BootLayout(0, 0, 0, 0, cfg.TopPage());
    if !Placed(k) {
      return Panicked, lay;
    }
    r, lay := MapProgram(cfg, k, gs);
    :- r;
    cfg.entrypoint := k.entrypoint;
    cfg.sp := PID1_STACK_BOTTOM;
    return Done, lay;
  }

  lemma SpanUnion(owned: set<int>, a: int, b: int, c: int, d: int)
    requires a <= b <= c <= d
    ensures owned + PageSpan(b, c) + PageSpan(c, d) + PageSpan(a, b) == owned + PageSpan(a, d)
  {
  }
}
