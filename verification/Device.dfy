/** The boot sequence on the device it is written for: its memory regions, and which kernels boot. */
module Device {
  import opened Arith
  import opened Layout
  import opened PageTables
  import opened Tracker
  import opened RamPages
  import opened Boot
  import opened KernelImage
  import opened Ranges
  import opened Loader
  import opened BootSequence
  import opened HandOffView
  import opened Wrappers

  /** SDMMC0, CSR1, CSR2, CSR3, L2CC, SECURAM, BUREG, SRAM0, UDPHS_RAM, UHPHS_OHCI and UHPHS_EHCI. */
  const MEMORY_REGIONS: seq<Range> := [
    Range(0xA000_0000, 0xA000_1000), Range(0xF000_0000, 0xF003_0000), Range(0xF800_0000, 0xF806_0000),
    Range(0xFC00_0000, 0xFC07_0000), Range(0x00A0_0000, 0x00A0_4000), Range(0xF804_4000, 0xF804_5000),
    Range(0xF804_5000, 0xF804_6000), Range(0x0020_0000, 0x0022_0000), Range(0x0030_0000, 0x0040_0000),
    Range(0x0040_0000, 0x0040_1000), Range(0x0050_0000, 0x0050_1000)]

  lemma RegionsAreWholePages()
    ensures forall r :: r in MEMORY_REGIONS ==> WholePages(r)
  {
    forall r | r in MEMORY_REGIONS
      ensures WholePages(r)
    {
      var i :| 0 <= i < |MEMORY_REGIONS| && MEMORY_REGIONS[i] == r;
    }
  }

  /** The regions take 553 entries after RAM's, and the whole tracker fits in nine pages. */
  lemma TrackerOnDevice()
    ensures RegionPages(MEMORY_REGIONS) == 553 && TrackerPages(MEMORY_REGIONS) == 9
  {
    var g := MEMORY_REGIONS;
    assert g[..11] == g;
    assert forall i :: 0 <= i < 11 ==> g[..i + 1][..i] == g[..i];
    assert RegionPages(g[..0]) == 0 && RegionPages(g[..1]) == 1 && RegionPages(g[..2]) == 49
        && RegionPages(g[..3]) == 145;
    assert RegionPages(g[..4]) == 257 && RegionPages(g[..5]) == 261 && RegionPages(g[..6]) == 262
        && RegionPages(g[..7]) == 263;
    assert RegionPages(g[..8]) == 295 && RegionPages(g[..9]) == 551 && RegionPages(g[..10]) == 552;
  }

  /** A run of pages inside one region is tracked. */
  lemma TrackedInRegion(regions: seq<Range>, i: nat, phys: Word, n: nat)
    requires i < |regions| && regions[i].start <= phys && phys + n * PAGE_SIZE <= regions[i].end <= ADDRESS_SPACE
    requires PLAINTEXT_DRAM_END <= phys || phys + n * PAGE_SIZE <= PLAINTEXT_DRAM_BASE
    ensures Tracked(regions, phys, n)
  {
    forall k | 0 <= k < n
      ensures EntryOf(regions, StepAddr(phys, k)).Some?
    {
      var a := phys + k * PAGE_SIZE;
      Euclid(a, ADDRESS_SPACE, 0, a);
      assert DramView(a) == a;
      assert regions[i].start <= a < regions[i].end;
      assert FindRegion(regions, a, 0) <= i;
    }
  }

  /** Region of each device window. */
  const WINDOW_REGION: seq<nat> := [2, 3, 4, 3, 2, 2, 2, 2, 2, 2]

  lemma DevicesTracked()
    ensures AllTracked(MEMORY_REGIONS, PERIPHERALS)
  {
    hide Tracked;
    forall i | 0 <= i < |PERIPHERALS|
      ensures Tracked(MEMORY_REGIONS, PERIPHERALS[i].phys, PERIPHERALS[i].pages)
    {
      TrackedInRegion(MEMORY_REGIONS, WINDOW_REGION[i], PERIPHERALS[i].phys, PERIPHERALS[i].pages);
    }
  }

  /** The first byte of every page of the arguments lies in the view of RAM in which they start. */
  predicate ArgsInRam(base: Word, argsSize: Word) {
    InView(PLAINTEXT_DRAM_BASE, base, argsSize) || InView(ENCRYPTED_DRAM_BASE, base, argsSize)
  }

  predicate InView(start: Word, base: Word, argsSize: Word) {
    start <= base < start + RAM_SIZE && base + PagesOf(argsSize) * PAGE_SIZE < start + RAM_SIZE + PAGE_SIZE
  }

  /** The page behind RAM, in either view, belongs to no region. */
  lemma BehindRam(a: Word)
    requires PLAINTEXT_DRAM_END <= a < PLAINTEXT_DRAM_END + PAGE_SIZE
             || ENCRYPTED_DRAM_END <= a < ENCRYPTED_DRAM_END + PAGE_SIZE
    ensures EntryOf(MEMORY_REGIONS, a) == None
  {
    var r := FindRegion(MEMORY_REGIONS, a, 0);
    assert DramView(a) == a && !InEncrypted(a);
  }

  /** Arguments that start in RAM are tracked exactly if they stay there. */
  lemma ArgsTracked(base: Word, argsSize: Word)
    requires InEncrypted(DramView(base))
    ensures Tracked(MEMORY_REGIONS, base, PagesOf(argsSize)) <==> ArgsInRam(base, argsSize)
  {
    hide PagesOf;
    var n, end := PagesOf(argsSize), if InPlaintext(base) then PLAINTEXT_DRAM_END else ENCRYPTED_DRAM_END;
    assert ArgsInRam(base, argsSize) <==> base + n * PAGE_SIZE < end + PAGE_SIZE;
    hide EntryOf, ArgsInRam;
    if ArgsInRam(base, argsSize) {
      forall k | 0 <= k < n
        ensures EntryOf(MEMORY_REGIONS, StepAddr(base, k)).Some?
      {
        ArgInRam(base, k, end);
      }
    } else {
      var k := (end - base + PAGE_SIZE - 1) / PAGE_SIZE;
      var a := base + k * PAGE_SIZE;
      assert end <= a < end + PAGE_SIZE;
      Euclid(a, ADDRESS_SPACE, 0, a);
      assert StepAddr(base, k) == a;
      BehindRam(a);
    }
  }

  /** A page of the arguments that starts before the end of RAM has an entry. */
  lemma ArgInRam(base: Word, k: nat, end: nat)
    requires InEncrypted(DramView(base)) && base + k * PAGE_SIZE < end
    requires end == if InPlaintext(base) then PLAINTEXT_DRAM_END else ENCRYPTED_DRAM_END
    ensures EntryOf(MEMORY_REGIONS, StepAddr(base, k)).Some?
  {
    Euclid(base + k * PAGE_SIZE, ADDRESS_SPACE, 0, base + k * PAGE_SIZE);
    ViewsAreInverse(base + k * PAGE_SIZE);
  }

  // ---- counting the groups ----

  /** The groups of `n` pages that start with a group. */
  function GroupCount(n: nat): nat {
    (n + PAGE_WORDS - 1) / PAGE_WORDS
  }

  function GroupSpan(from: nat, n: nat): (gs: set<int>)
    ensures |gs| == n
    ensures forall g :: g in gs <==> from <= g < from + n
  {
    if n == 0 then {} else GroupSpan(from, n - 1) + {from + n - 1}
  }

  /** A run that stays in one group. */
  lemma OneGroupOnly(virt: Word, n: nat, g: nat)
    requires g * PAGE_WORDS <= virt / PAGE_SIZE && virt / PAGE_SIZE + n <= (g + 1) * PAGE_WORDS <= PAGE_NUMBERS
    ensures Groups(virt, n) == if n == 0 then {} else {g}
  {
    hide StepAddr;
    forall k | 0 <= k < n
      ensures StepAddr(virt, k) / PAGE_SIZE / PAGE_WORDS == g
    {
      StepNumber(virt, n, k);
    }
    if n > 0 {
      assert StepAddr(virt, 0) / PAGE_SIZE / PAGE_WORDS in Groups(virt, n);
    }
  }

  /** A run that starts with a group takes consecutive groups. */
  lemma GroupsInARow(virt: Word, n: nat)
    requires virt / PAGE_SIZE % PAGE_WORDS == 0 && Whole(virt, n)
    ensures Groups(virt, n) == GroupSpan(virt / PAGE_SIZE / PAGE_WORDS, GroupCount(n))
  {
    hide StepAddr;
    var v, g0 := virt / PAGE_SIZE, virt / PAGE_SIZE / PAGE_WORDS;
    forall k | 0 <= k < n
      ensures StepAddr(virt, k) / PAGE_SIZE / PAGE_WORDS == g0 + k / PAGE_WORDS
    {
      StepNumber(virt, n, k);
    }
    forall g | g in GroupSpan(g0, GroupCount(n))
      ensures g in Groups(virt, n)
    {
      var k := (g - g0) * PAGE_WORDS;
      assert StepAddr(virt, k) / PAGE_SIZE / PAGE_WORDS == g;
    }
  }

  lemma {:induction false} DeviceGroups(ps: seq<Peripheral>, g: nat)
    requires forall i :: 0 <= i < |ps| ==>
               && g * PAGE_WORDS <= ps[i].virt / PAGE_SIZE && 0 < ps[i].pages
               && ps[i].virt / PAGE_SIZE + ps[i].pages <= (g + 1) * PAGE_WORDS <= PAGE_NUMBERS
    ensures PeripheralGroups(ps) == if |ps| == 0 then {} else {g}
  {
    hide Groups;
    if |ps| > 0 {
      var last := |ps| - 1;
      DeviceGroups(ps[..last], g);
      OneGroupOnly(ps[last].virt, ps[last].pages, g);
    }
  }

  /** The groups at the bottom of the address space that data takes if it goes round its end. */
  function WrappedGroups(k: ProgramDescription): nat {
    var end := k.dataOffset / PAGE_SIZE + k.DataPages();
    if end <= PAGE_NUMBERS then 0 else GroupCount(end - PAGE_NUMBERS)
  }

  const LAST_GROUP := 0x3FF

  lemma DataPage(k: ProgramDescription, i: nat)
    requires i < k.DataPages() < RAM_PAGES
    ensures var u := k.dataOffset / PAGE_SIZE + i;
            StepAddr(k.dataOffset, i) / PAGE_SIZE == if u < PAGE_NUMBERS then u else u - PAGE_NUMBERS
  {
    hide StepAddr;
    var u := k.dataOffset / PAGE_SIZE + i;
    StepPage(k.dataOffset, i);
    Euclid(u, PAGE_NUMBERS, if u < PAGE_NUMBERS then 0 else 1, if u < PAGE_NUMBERS then u else u - PAGE_NUMBERS);
  }

  lemma DataGroups(k: ProgramDescription)
    requires KERNEL_LOAD_OFFSET <= k.dataOffset && k.DataPages() < RAM_PAGES
    ensures GroupSpan(0, WrappedGroups(k)) <= Groups(k.dataOffset, k.DataPages())
         <= GroupSpan(0, WrappedGroups(k)) + {LAST_GROUP}
  {
    hide StepAddr, PagesOf;
    var d, n := k.dataOffset / PAGE_SIZE, k.DataPages();
    forall i | 0 <= i < n
      ensures StepAddr(k.dataOffset, i) / PAGE_SIZE / PAGE_WORDS in GroupSpan(0, WrappedGroups(k)) + {LAST_GROUP}
    {
      DataPage(k, i);
    }
    forall g | g in GroupSpan(0, WrappedGroups(k))
      ensures g in Groups(k.dataOffset, n)
    {
      var i := PAGE_NUMBERS - d + g * PAGE_WORDS;
      DataPage(k, i);
      assert StepAddr(k.dataOffset, i) / PAGE_SIZE / PAGE_WORDS == g;
    }
  }

  lemma KernelGroupsAre(k: ProgramDescription)
    requires KernelFits(k) && k.DataPages() < RAM_PAGES
    ensures KernelGroups(k) == {0x1C0, LAST_GROUP} + GroupSpan(0, WrappedGroups(k))
  {
    hide Groups, PagesOf, DataFits, WrappedGroups, GroupSpan;
    OneGroupOnly(THREAD_CONTEXT_AREA, 1, 0x1C0);
    OneGroupOnly(PID1_STACK_LOW, PID1_STACK_PAGE_COUNT, LAST_GROUP);
    OneGroupOnly(KERNEL_STACK_LOW, KERNEL_MODE_STACK_PAGE_COUNT, LAST_GROUP);
    OneGroupOnly(IRQ_STACK_LOW, PID1_IRQ_HANDLER_STACK_PAGE_COUNT, LAST_GROUP);
    OneGroupOnly(k.textOffset, k.TextPages(), LAST_GROUP);
    DataGroups(k);
  }

  lemma FixedGroupsAre(argsSize: Word, n: nat)
    requires 0 < n < 0x200 && KERNEL_ARGUMENT_OFFSET + PagesOf(argsSize) * PAGE_SIZE <= THREAD_CONTEXT_AREA
    ensures FixedGroups(argsSize, n) == {0x3FE, LAST_GROUP} + GroupSpan(0x160, GroupCount(PagesOf(argsSize)))
  {
    hide Groups, PeripheralGroups, PagesOf, GroupCount, GroupSpan;
    OneGroupOnly(ALLOCATION_TRACKER_OFFSET, n, 0x3FE);
    GroupsInARow(KERNEL_ARGUMENT_OFFSET, PagesOf(argsSize));
    DevicesLow();
    DeviceGroups(PERIPHERALS, LAST_GROUP);
    OneGroupOnly(ICM_KERNEL_DESC_AREA_ADDR, 1, LAST_GROUP);
    OneGroupOnly(ICM_KERNEL_HASH_AREA_ADDR, 1, LAST_GROUP);
  }

  /** The second-level tables of a boot: five groups, those of the arguments, and those of data that goes
      round the end of the address space. */
  lemma TablesOfBoot(k: ProgramDescription, argsSize: Word, n: nat)
    requires KernelFits(k) && k.DataPages() < RAM_PAGES && 0 < n < 0x200
    requires KERNEL_ARGUMENT_OFFSET + PagesOf(argsSize) * PAGE_SIZE <= THREAD_CONTEXT_AREA
    ensures |BootGroups(k, argsSize, n)| == 5 + GroupCount(PagesOf(argsSize)) + WrappedGroups(k)
  {
    hide Groups, PagesOf, KernelFits, KernelGroups, FixedGroups;
    KernelGroupsAre(k);
    FixedGroupsAre(argsSize, n);
    OneGroupOnly(BOOT_SPLASH_FB, BOOT_SPLASH_PAGES, 0x140);
    OneGroupOnly(LOADER_CODE_ADDRESS, 1, 0x80);
    hide SingleGroups, GroupSpan;
    Together(GroupSpan(0, WrappedGroups(k)), GroupSpan(0x160, GroupCount(PagesOf(argsSize))));
    CountGroups(GroupCount(PagesOf(argsSize)), WrappedGroups(k));
  }

  lemma CountGroups(args: nat, low: nat)
    requires args <= 0x60 && low <= 0x80
    ensures |SingleGroups() + GroupSpan(0x160, args) + GroupSpan(0, low)| == 5 + args + low
  {
    hide GroupSpan;
    var a, l := GroupSpan(0x160, args), GroupSpan(0, low);
    assert forall g :: g in SingleGroups() ==> g == 0x80 || g == 0x140 || g == 0x1C0 || g == 0x3FE || g == LAST_GROUP;
    hide SingleGroups;
    UnionSize(SingleGroups(), a);
    UnionSize(SingleGroups() + a, l);
  }

  lemma Together(l: set<int>, a: set<int>)
    ensures {0x1C0, LAST_GROUP} + l + ({0x3FE, LAST_GROUP} + a) + {0x140} + {0x80} == SingleGroups() + a + l
  {
  }

  function SingleGroups(): (gs: set<int>)
    ensures |gs| == 5
  {
    {0x80, 0x140, 0x1C0, 0x3FE, LAST_GROUP}
  }

  lemma UnionSize(a: set<int>, b: set<int>)
    requires forall g :: g in a ==> g !in b
    ensures |a + b| == |a| + |b|
  {
    assert forall g :: g !in a * b;
  }

  /** On the device a boot fits exactly if the kernel lies where it may, the arguments stay in RAM, and the
      32383 pages below tracker and splash image hold the image, the first-level table with what its
      alignment wastes, 31 further pages, and one page of tables for each of the groups. */
  lemma BootsOnDevice(k: ProgramDescription, base: Word, argsSize: Word)
    requires InEncrypted(DramView(base)) && k.DataPages() < RAM_PAGES
    ensures BootFits(MEMORY_REGIONS, k, base, argsSize) <==>
              KernelFits(k) && ArgsInRam(base, argsSize) && EnoughRam(k, argsSize)
  {
    hide RegionPages, KernelFits, Tracked, AllTracked, PagesOf, TrackerPages, ArgsInRam, BootGroups, GroupCount,
         WrappedGroups;
    TrackerOnDevice();
    DevicesTracked();
    ArgsTracked(base, argsSize);
    if ArgsInRam(base, argsSize) {
      ArgsShort(base, argsSize);
    }
    if KernelFits(k) && ArgsInRam(base, argsSize) {
      TablesOfBoot(k, argsSize, 9);
    }
  }

  predicate EnoughRam(k: ProgramDescription, argsSize: Word) {
    var top := 32383 - k.TextPages() - k.DataPages();
    top - top % 4 > 40 + GroupCount(PagesOf(argsSize)) + WrappedGroups(k)
  }

  lemma ArgsShort(base: Word, argsSize: Word)
    requires ArgsInRam(base, argsSize)
    ensures PagesOf(argsSize) <= RAM_PAGES
  {
    hide PagesOf;
  }

  lemma ShownAtHandOff(cfg: BootConfig, k: ProgramDescription, h: HandOff, base: Word, argsSize: Word)
    requires cfg.Mapping() && cfg.rptPages == 9 && BootFits(MEMORY_REGIONS, k, base, argsSize)
    requires h.lay.data + k.DataPages() < RAM_PAGES && h.lay.data + k.DataPages() + k.TextPages() == cfg.TrackerPage()
    requires cfg.pages == BootMap(k, h.lay, base, argsSize, cfg.trackerBase, cfg.rptPages, h.desc, h.hash)
    requires PagesApart(h, cfg.l1, cfg.l2, cfg.TopPage())
    requires cfg.owned == PageSpan(cfg.TopPage(), RAM_PAGES) + OutsideEntries(MEMORY_REGIONS, base, argsSize)
    ensures StacksShown(cfg.Mem(), cfg.ttbr0, h.lay)
    ensures FixedShown(cfg.Mem(), cfg.ttbr0, cfg.trackerBase, 9, h.desc, h.hash)
    ensures NothingTwice(cfg.pages, argsSize) && NoTableMapped(cfg.pages, argsSize, cfg.l1, cfg.l2)
    ensures MappedOwned(cfg.pages, MEMORY_REGIONS, cfg.owned)
  {
    hide BootMap, PagesApart, StacksShown, FixedShown, NothingTwice, NoTableMapped, KernelFits, Tracks, RegionPages,
         WholePages, PagesOf, Tracked, AllTracked, L1Holds, L2Holds, Domains, BootGroups, ImageTop, MappedOwned,
         PageSpan, OutsideEntries;
    BelowL1(cfg);
    FrameNumber(RAM_PAGES - BOOT_SPLASH_PAGES - 9);
    BootShown(cfg.Mem(), cfg.l1, cfg.l2, cfg.sections, k, h, base, argsSize, cfg.trackerBase, 9);
    BootSharesNothing(k, h, base, argsSize, cfg.trackerBase, 9, cfg.l1, cfg.l2, cfg.TopPage());
    RegionsAreWholePages();
    BootOwnsMapped(k, h, base, argsSize, cfg.trackerBase, 9, cfg.l1, cfg.l2, cfg.TopPage(), MEMORY_REGIONS);
  }

  lemma BelowL1(cfg: BootConfig)
    requires cfg.Mapping()
    ensures forall g :: g in cfg.l2 ==> cfg.TopPage() <= cfg.l2[g] < cfg.l1
  {
    hide L1Holds, L2Holds, Tracks;
  }

  /** The whole boot on the device: the exact condition under which it hands over, and what the kernel
      then finds. */
  method BootDevice(ram: array<Word>, k: ProgramDescription, base: Word, argsSize: Word)
    returns (r: Outcome, cfg: BootConfig, ghost h: HandOff)
    requires ram.Length == RAM_WORDS && SourceBelow(k, base, RAM_PAGES - BOOT_SPLASH_PAGES - 9)
    modifies ram
    ensures fresh(cfg) && cfg.ram == ram && cfg.regions == MEMORY_REGIONS
    ensures SourceWord(k, base) + k.textSize / 4 + k.dataSize / 4 <= RAM_WORDS
    ensures r.Done? ==>
              forall va: Word :: Walk(cfg.Mem(), cfg.ttbr0, va) == Lookup(cfg.pages, cfg.sections, va)
    ensures r.Done? ==> WindowShown(cfg.Mem(), cfg.ttbr0) && StacksShown(cfg.Mem(), cfg.ttbr0, h.lay)
    ensures r.Done? ==> FixedShown(cfg.Mem(), cfg.ttbr0, cfg.trackerBase, 9, h.desc, h.hash)
    ensures r.Done? ==> Page(cfg.Mem(), h.desc)[0] == k.textOffset && Page(cfg.Mem(), h.desc)[1] == k.textSize
    ensures r.Done? ==>
              NothingTwice(cfg.pages, argsSize) && NoTableMapped(cfg.pages, argsSize, cfg.l1, cfg.l2)
    ensures r.Done? ==> MappedOwned(cfg.pages, MEMORY_REGIONS, cfg.owned)
    ensures r.Done? ==> KernelReadable(cfg.Mem(), cfg.ttbr0, k, old(ram[..]), SourceWord(k, base))
    ensures r.Done? && ArgsBelow(base, argsSize, cfg.TopPage()) ==>
              ArgsReadable(cfg.Mem(), cfg.ttbr0, base, argsSize, old(ram[..]))
    ensures r.Done? ==>
              cfg.owned == PageSpan(cfg.TopPage(), RAM_PAGES) + OutsideEntries(MEMORY_REGIONS, base, argsSize)
    ensures r.Done? <==> KernelFits(k) && ArgsInRam(base, argsSize) && EnoughRam(k, argsSize)
  {
    hide RegionPages, KernelFits, ArgsInRam, PagesOf, TrackerPages, BootFits, KernelReadable, ArgsReadable, ArgsBelow,
         Walk, Lookup, OutsideEntries, PageSpan, WholePages, EnoughRam, WindowShown, StacksShown, FixedShown, Page,
         NothingTwice, NoTableMapped, BootMap, PagesApart, Tables, MappedOwned;
    cfg := new BootConfig(ram, MEMORY_REGIONS);
    TrackerOnDevice();
    RegionsAreWholePages();
    BootsOnDevice(k, base, argsSize);
    r, h := RustEntry(cfg, k, base, argsSize);
    if r.Done? {
      ShownAtHandOff(cfg, k, h, base, argsSize);
    }
  }
}
