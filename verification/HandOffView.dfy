/** What the kernel finds at its addresses when the loader hands over: every run of pages leads where it
    should, and apart from the arguments no page of RAM is mapped twice and no table is mapped. */
module HandOffView {
  import opened Arith
  import opened Layout
  import opened Armv7
  import opened PageTables
  import opened Tracker
  import opened RamPages
  import opened Boot
  import opened KernelImage
  import opened Ranges
  import opened Loader
  import opened BootSequence

  /** Byte by byte, a run of `n` virtual pages leads to consecutive physical ones. */
  ghost predicate PagesShown(m: Ram, ttbr: Word, virt: Word, phys: Word, n: nat, access: Access, exec: bool) {
    forall o: nat {:trigger ByteAddr(virt, o)} :: o < n * PAGE_SIZE ==>
      Walk(m, ttbr, ByteAddr(virt, o)) == ToPage(phys + o, access, exec, ByteAddr(virt, o) >= 0x8000_0000)
  }

  lemma RunShown(m: Ram, l1: PageIndex, l2: map<int, PageIndex>, pages: PageMap, sections: SectionMap,
                 virt: Word, phys: Word, n: nat, f: Flags)
    requires Tables(m, l1, l2, pages, sections) && Extends(pages, RangeMap(virt, phys, n, f))
    requires virt % PAGE_SIZE == 0 && phys % PAGE_SIZE == 0 && phys + n * PAGE_SIZE <= ADDRESS_SPACE
    ensures PagesShown(m, AddrOf(l1), virt, phys, n, Requested(f), f.x)
  {
    hide Tables, Walk, RangeMap, Extends, ByteAddr;
    forall o: nat | o < n * PAGE_SIZE
      ensures Walk(m, AddrOf(l1), ByteAddr(virt, o))
           == ToPage(phys + o, Requested(f), f.x, ByteAddr(virt, o) >= 0x8000_0000)
    {
      SegmentWalk(m, l1, l2, pages, sections, virt, phys, n, f, o);
    }
  }

  // ---- what later mappings leave alone ----

  /** A run that is mapped elsewhere leaves an earlier one as it is. */
  lemma RunKept(pages: PageMap, virt: Word, phys: Word, n: nat, f: Flags, v2: Word, p2: Word, n2: nat, f2: Flags)
    requires Whole(virt, n) && Disjoint(v2, n2, virt, n) && Extends(pages, RangeMap(virt, phys, n, f))
    ensures Extends(pages + RangeMap(v2, p2, n2, f2), RangeMap(virt, phys, n, f))
  {
    hide RangeMap;
    var none: PageMap := map[];
    NothingClear(virt, n);
    ClearRange(none, v2, p2, n2, f2, virt, n);
    assert none + RangeMap(v2, p2, n2, f2) == RangeMap(v2, p2, n2, f2);
    forall u | u in RangeMap(virt, phys, n, f)
      ensures u !in RangeMap(v2, p2, n2, f2)
    {
      InWholeRange(virt, phys, n, f, u);
    }
  }

  lemma RunPlaced(pages: PageMap, run: PageMap)
    ensures Extends(pages + run, run)
  {
  }

  lemma {:induction false} PeripheralsKeep(ps: seq<Peripheral>, pages: PageMap, virt: Word, phys: Word, n: nat,
                                           f: Flags)
    requires Whole(virt, n) && Outside(ps, virt, n) && Extends(pages, RangeMap(virt, phys, n, f))
    ensures Extends(PeripheralMap(ps, pages), RangeMap(virt, phys, n, f))
  {
    hide RangeMap, Extends, Whole, Disjoint;
    if |ps| > 0 {
      var p := ps[|ps| - 1];
      PeripheralsKeep(ps[..|ps| - 1], pages, virt, phys, n, f);
      RunKept(PeripheralMap(ps[..|ps| - 1], pages), virt, phys, n, f, p.virt, p.phys, p.pages, DEVICE_FLAGS);
    }
  }

  lemma {:induction false} PeripheralPlaced(ps: seq<Peripheral>, pages: PageMap, i: nat)
    requires Separate(ps) && i < |ps|
    requires forall j, k :: 0 <= j < |ps| && 0 <= k < |ps| && j != k ==>
               Disjoint(ps[k].virt, ps[k].pages, ps[j].virt, ps[j].pages)
    ensures Extends(PeripheralMap(ps, pages), RangeMap(ps[i].virt, ps[i].phys, ps[i].pages, DEVICE_FLAGS))
  {
    hide RangeMap, Extends, Whole, Disjoint;
    var last := |ps| - 1;
    var p := ps[last];
    if i == last {
      RunPlaced(PeripheralMap(ps[..last], pages), RangeMap(p.virt, p.phys, p.pages, DEVICE_FLAGS));
    } else {
      PeripheralPlaced(ps[..last], pages, i);
      RunKept(PeripheralMap(ps[..last], pages), ps[i].virt, ps[i].phys, ps[i].pages, DEVICE_FLAGS,
              p.virt, p.phys, p.pages, DEVICE_FLAGS);
    }
  }

  /** A run that no fixed mapping overlaps. */
  predicate ApartFromFixed(virt: Word, n: nat, trackerPages: nat, argsPages: nat) {
    && Whole(virt, n) && Disjoint(ALLOCATION_TRACKER_OFFSET, trackerPages, virt, n)
    && Disjoint(KERNEL_ARGUMENT_OFFSET, argsPages, virt, n) && Outside(PERIPHERALS, virt, n)
    && Disjoint(ICM_KERNEL_DESC_AREA_ADDR, 1, virt, n) && Disjoint(ICM_KERNEL_HASH_AREA_ADDR, 1, virt, n)
  }

  lemma FixedKeeps(pages: PageMap, base: Word, argsSize: Word, tracker: Word, t: nat, desc: PageIndex,
                   hash: PageIndex, virt: Word, phys: Word, n: nat, f: Flags)
    requires ApartFromFixed(virt, n, t, PagesOf(argsSize)) && Extends(pages, RangeMap(virt, phys, n, f))
    ensures Extends(FixedMap(pages, base, argsSize, tracker, t, desc, hash), RangeMap(virt, phys, n, f))
  {
    hide RangeMap, Extends, Whole, Disjoint, PeripheralMap, PagesOf;
    var a := PagesOf(argsSize);
    var one := pages + RangeMap(ALLOCATION_TRACKER_OFFSET, tracker, t, DATA_FLAGS);
    RunKept(pages, virt, phys, n, f, ALLOCATION_TRACKER_OFFSET, tracker, t, DATA_FLAGS);
    var two := one + RangeMap(KERNEL_ARGUMENT_OFFSET, base, a, READ_FLAGS);
    RunKept(one, virt, phys, n, f, KERNEL_ARGUMENT_OFFSET, base, a, READ_FLAGS);
    PeripheralsKeep(PERIPHERALS, two, virt, phys, n, f);
    IcmKeeps(PeripheralMap(PERIPHERALS, two), desc, hash, virt, phys, n, f);
  }

  lemma IcmKeeps(pages: PageMap, desc: PageIndex, hash: PageIndex, virt: Word, phys: Word, n: nat, f: Flags)
    requires Whole(virt, n) && Extends(pages, RangeMap(virt, phys, n, f))
    requires Disjoint(ICM_KERNEL_DESC_AREA_ADDR, 1, virt, n) && Disjoint(ICM_KERNEL_HASH_AREA_ADDR, 1, virt, n)
    ensures Extends(pages + RangeMap(ICM_KERNEL_DESC_AREA_ADDR, AddrOf(desc), 1, DATA_FLAGS)
                    + RangeMap(ICM_KERNEL_HASH_AREA_ADDR, AddrOf(hash), 1, HASH_FLAGS), RangeMap(virt, phys, n, f))
  {
    hide RangeMap, Extends, Whole, Disjoint;
    RunKept(pages, virt, phys, n, f, ICM_KERNEL_DESC_AREA_ADDR, AddrOf(desc), 1, DATA_FLAGS);
    RunKept(pages + RangeMap(ICM_KERNEL_DESC_AREA_ADDR, AddrOf(desc), 1, DATA_FLAGS), virt, phys, n, f,
            ICM_KERNEL_HASH_AREA_ADDR, AddrOf(hash), 1, HASH_FLAGS);
  }

  function LastMap(fixed: PageMap): PageMap {
    fixed + RangeMap(BOOT_SPLASH_FB, BOOT_SPLASH_PHYS_ADDR, BOOT_SPLASH_PAGES, SPLASH_FLAGS)
    + RangeMap(LOADER_CODE_ADDRESS, LOADER_CODE_ADDRESS, 1, TEXT_FLAGS)
  }

  lemma LastKeeps(fixed: PageMap, virt: Word, phys: Word, n: nat, f: Flags)
    requires Whole(virt, n) && Extends(fixed, RangeMap(virt, phys, n, f))
    requires Disjoint(BOOT_SPLASH_FB, BOOT_SPLASH_PAGES, virt, n) && Disjoint(LOADER_CODE_ADDRESS, 1, virt, n)
    ensures Extends(LastMap(fixed), RangeMap(virt, phys, n, f))
  {
    hide RangeMap, Extends, Whole, Disjoint;
    RunKept(fixed, virt, phys, n, f, BOOT_SPLASH_FB, BOOT_SPLASH_PHYS_ADDR, BOOT_SPLASH_PAGES, SPLASH_FLAGS);
    RunKept(fixed + RangeMap(BOOT_SPLASH_FB, BOOT_SPLASH_PHYS_ADDR, BOOT_SPLASH_PAGES, SPLASH_FLAGS), virt, phys, n, f,
            LOADER_CODE_ADDRESS, LOADER_CODE_ADDRESS, 1, TEXT_FLAGS);
  }

  // ---- where every run is in the finished map ----

  /** Thread context and stacks in the map of the stacks. */
  ghost predicate StacksIn(pages: PageMap, lay: BootLayout) {
    && Extends(pages, RangeMap(THREAD_CONTEXT_AREA, AddrOf(lay.thread), 1, THREAD_FLAGS))
    && Extends(pages, RangeMap(PID1_STACK_LOW, AddrOf(lay.pid1Stack), PID1_STACK_PAGE_COUNT, DATA_FLAGS))
    && Extends(pages, RangeMap(KERNEL_STACK_LOW, AddrOf(lay.kernelStack), KERNEL_MODE_STACK_PAGE_COUNT, DATA_FLAGS))
    && Extends(pages, RangeMap(IRQ_STACK_LOW, AddrOf(lay.irqStack), PID1_IRQ_HANDLER_STACK_PAGE_COUNT, DATA_FLAGS))
  }

  lemma StacksPlaced(lay: BootLayout)
    ensures StacksIn(StackMap(lay), lay)
  {
    hide RangeMap, Extends;
    var t, p, q, i := AddrOf(lay.thread), AddrOf(lay.pid1Stack), AddrOf(lay.kernelStack), AddrOf(lay.irqStack);
    var one := RangeMap(THREAD_CONTEXT_AREA, t, 1, THREAD_FLAGS);
    var two := one + RangeMap(PID1_STACK_LOW, p, PID1_STACK_PAGE_COUNT, DATA_FLAGS);
    var three := two + RangeMap(KERNEL_STACK_LOW, q, KERNEL_MODE_STACK_PAGE_COUNT, DATA_FLAGS);
    ExtendsItself(one);
    RunPlaced(one, RangeMap(PID1_STACK_LOW, p, PID1_STACK_PAGE_COUNT, DATA_FLAGS));
    RunPlaced(two, RangeMap(KERNEL_STACK_LOW, q, KERNEL_MODE_STACK_PAGE_COUNT, DATA_FLAGS));
    RunPlaced(three, RangeMap(IRQ_STACK_LOW, i, PID1_IRQ_HANDLER_STACK_PAGE_COUNT, DATA_FLAGS));
    RunKept(one, THREAD_CONTEXT_AREA, t, 1, THREAD_FLAGS, PID1_STACK_LOW, p, PID1_STACK_PAGE_COUNT, DATA_FLAGS);
    RunKept(two, THREAD_CONTEXT_AREA, t, 1, THREAD_FLAGS, KERNEL_STACK_LOW, q, KERNEL_MODE_STACK_PAGE_COUNT,
            DATA_FLAGS);
    RunKept(three, THREAD_CONTEXT_AREA, t, 1, THREAD_FLAGS, IRQ_STACK_LOW, i, PID1_IRQ_HANDLER_STACK_PAGE_COUNT,
            DATA_FLAGS);
    RunKept(two, PID1_STACK_LOW, p, PID1_STACK_PAGE_COUNT, DATA_FLAGS, KERNEL_STACK_LOW, q,
            KERNEL_MODE_STACK_PAGE_COUNT, DATA_FLAGS);
    RunKept(three, PID1_STACK_LOW, p, PID1_STACK_PAGE_COUNT, DATA_FLAGS, IRQ_STACK_LOW, i,
            PID1_IRQ_HANDLER_STACK_PAGE_COUNT, DATA_FLAGS);
    RunKept(three, KERNEL_STACK_LOW, q, KERNEL_MODE_STACK_PAGE_COUNT, DATA_FLAGS, IRQ_STACK_LOW, i,
            PID1_IRQ_HANDLER_STACK_PAGE_COUNT, DATA_FLAGS);
  }

  /** Text and data leave the stacks alone. */
  lemma KernelKeepsStacks(k: ProgramDescription, lay: BootLayout)
    requires KernelFits(k) && lay.data + k.DataPages() < RAM_PAGES
    ensures Extends(KernelMap(k, lay), StackMap(lay))
  {
    hide StackMap, RangeMap, DataFits;
    var d, n, t := k.dataOffset / PAGE_SIZE, k.DataPages(), k.TextPages();
    DataAvoids(d, n, t);
    forall u | u in StackMap(lay)
      ensures u !in RangeMap(k.textOffset, AddrOf(lay.data + n), t, TEXT_FLAGS)
      ensures u !in RangeMap(k.dataOffset, AddrOf(lay.data), n, DATA_FLAGS)
    {
      StackPages(lay, u);
      InWholeRange(k.textOffset, AddrOf(lay.data + n), t, TEXT_FLAGS, u);
      InDataRange(k, lay.data, u);
    }
  }

  lemma InDataRange(k: ProgramDescription, data: PageIndex, u: int)
    requires data + k.DataPages() < RAM_PAGES
    ensures u in RangeMap(k.dataOffset, AddrOf(data), k.DataPages(), DATA_FLAGS) ==>
              0 <= u < PAGE_NUMBERS && u == Onward(k.dataOffset / PAGE_SIZE, Behind(u, k.dataOffset / PAGE_SIZE))
              && Behind(u, k.dataOffset / PAGE_SIZE) < k.DataPages()
  {
    if 0 <= u < PAGE_NUMBERS {
      BehindStep(u, k.dataOffset / PAGE_SIZE, Behind(u, k.dataOffset / PAGE_SIZE));
    }
  }

  /** A run of the kernel's own is untouched by everything that is mapped later. */
  lemma KernelRunStays(kernel: PageMap, base: Word, argsSize: Word, tracker: Word, t: nat, desc: PageIndex,
                       hash: PageIndex, virt: Word, phys: Word, n: nat, f: Flags)
    requires Extends(kernel, RangeMap(virt, phys, n, f)) && t < 0x200
    requires KERNEL_ARGUMENT_OFFSET + PagesOf(argsSize) * PAGE_SIZE <= THREAD_CONTEXT_AREA
    requires (virt == THREAD_CONTEXT_AREA && n == 1) || (PID1_STACK_LOW <= virt && Whole(virt, n))
    ensures Extends(LastMap(FixedMap(kernel, base, argsSize, tracker, t, desc, hash)), RangeMap(virt, phys, n, f))
  {
    hide RangeMap, Extends, FixedMap, LastMap, PagesOf;
    DevicesLow();
    FixedKeeps(kernel, base, argsSize, tracker, t, desc, hash, virt, phys, n, f);
    LastKeeps(FixedMap(kernel, base, argsSize, tracker, t, desc, hash), virt, phys, n, f);
  }

  lemma StacksStay(k: ProgramDescription, lay: BootLayout, base: Word, argsSize: Word, tracker: Word, t: nat,
                   desc: PageIndex, hash: PageIndex)
    requires KernelFits(k) && lay.data + k.DataPages() < RAM_PAGES && t < 0x200
    requires KERNEL_ARGUMENT_OFFSET + PagesOf(argsSize) * PAGE_SIZE <= THREAD_CONTEXT_AREA
    ensures StacksIn(LastMap(FixedMap(KernelMap(k, lay), base, argsSize, tracker, t, desc, hash)), lay)
  {
    hide RangeMap, Extends, FixedMap, LastMap, PagesOf, KernelMap, StackMap, KernelFits;
    var kernel := KernelMap(k, lay);
    StacksPlaced(lay);
    KernelKeepsStacks(k, lay);
    StacksInBoth(kernel, StackMap(lay), lay);
    KernelRunStays(kernel, base, argsSize, tracker, t, desc, hash, THREAD_CONTEXT_AREA, AddrOf(lay.thread), 1,
                   THREAD_FLAGS);
    KernelRunStays(kernel, base, argsSize, tracker, t, desc, hash, PID1_STACK_LOW, AddrOf(lay.pid1Stack),
                   PID1_STACK_PAGE_COUNT, DATA_FLAGS);
    KernelRunStays(kernel, base, argsSize, tracker, t, desc, hash, KERNEL_STACK_LOW, AddrOf(lay.kernelStack),
                   KERNEL_MODE_STACK_PAGE_COUNT, DATA_FLAGS);
    KernelRunStays(kernel, base, argsSize, tracker, t, desc, hash, IRQ_STACK_LOW, AddrOf(lay.irqStack),
                   PID1_IRQ_HANDLER_STACK_PAGE_COUNT, DATA_FLAGS);
  }

  lemma StacksInBoth(now: PageMap, was: PageMap, lay: BootLayout)
    requires Extends(now, was) && StacksIn(was, lay)
    ensures StacksIn(now, lay)
  {
    hide RangeMap, Extends;
    ExtendsThen(now, was, RangeMap(THREAD_CONTEXT_AREA, AddrOf(lay.thread), 1, THREAD_FLAGS));
    ExtendsThen(now, was, RangeMap(PID1_STACK_LOW, AddrOf(lay.pid1Stack), PID1_STACK_PAGE_COUNT, DATA_FLAGS));
    ExtendsThen(now, was,
                RangeMap(KERNEL_STACK_LOW, AddrOf(lay.kernelStack), KERNEL_MODE_STACK_PAGE_COUNT, DATA_FLAGS));
    ExtendsThen(now, was, RangeMap(IRQ_STACK_LOW, AddrOf(lay.irqStack), PID1_IRQ_HANDLER_STACK_PAGE_COUNT, DATA_FLAGS));
  }

  /** Tracker, device windows and the integrity monitor's pages in a map. */
  ghost predicate FixedIn(pages: PageMap, tracker: Word, t: nat, desc: PageIndex, hash: PageIndex) {
    && Extends(pages, RangeMap(ALLOCATION_TRACKER_OFFSET, tracker, t, DATA_FLAGS))
    && (forall i :: 0 <= i < |PERIPHERALS| ==> DeviceIn(pages, i))
    && Extends(pages, RangeMap(ICM_KERNEL_DESC_AREA_ADDR, AddrOf(desc), 1, DATA_FLAGS))
    && Extends(pages, RangeMap(ICM_KERNEL_HASH_AREA_ADDR, AddrOf(hash), 1, HASH_FLAGS))
  }

  ghost predicate DeviceIn(pages: PageMap, i: nat)
    requires i < |PERIPHERALS|
  {
    Extends(pages, RangeMap(PERIPHERALS[i].virt, PERIPHERALS[i].phys, PERIPHERALS[i].pages, DEVICE_FLAGS))
  }

  lemma FixedPlaced(pages: PageMap, base: Word, argsSize: Word, tracker: Word, t: nat, desc: PageIndex,
                    hash: PageIndex)
    requires t < 0x200 && KERNEL_ARGUMENT_OFFSET + PagesOf(argsSize) * PAGE_SIZE <= THREAD_CONTEXT_AREA
    ensures FixedIn(LastMap(FixedMap(pages, base, argsSize, tracker, t, desc, hash)), tracker, t, desc, hash)
  {
    hide RangeMap, Extends, LastMap, PagesOf, PeripheralMap;
    var fixed := FixedMap(pages, base, argsSize, tracker, t, desc, hash);
    var one := pages + RangeMap(ALLOCATION_TRACKER_OFFSET, tracker, t, DATA_FLAGS);
    var two := one + RangeMap(KERNEL_ARGUMENT_OFFSET, base, PagesOf(argsSize), READ_FLAGS);
    var three := PeripheralMap(PERIPHERALS, two);
    DevicesLow();
    RunPlaced(pages, RangeMap(ALLOCATION_TRACKER_OFFSET, tracker, t, DATA_FLAGS));
    RunKept(one, ALLOCATION_TRACKER_OFFSET, tracker, t, DATA_FLAGS, KERNEL_ARGUMENT_OFFSET, base, PagesOf(argsSize),
            READ_FLAGS);
    PeripheralsKeep(PERIPHERALS, two, ALLOCATION_TRACKER_OFFSET, tracker, t, DATA_FLAGS);
    IcmKeeps(three, desc, hash, ALLOCATION_TRACKER_OFFSET, tracker, t, DATA_FLAGS);
    LastKeeps(fixed, ALLOCATION_TRACKER_OFFSET, tracker, t, DATA_FLAGS);
    forall i | 0 <= i < |PERIPHERALS|
      ensures DeviceIn(LastMap(fixed), i)
    {
      DevicePlaced(two, desc, hash, i);
    }
    IcmPlaced(three, desc, hash);
  }

  lemma DevicesApart()
    ensures Separate(PERIPHERALS)
    ensures forall j, k :: 0 <= j < |PERIPHERALS| && 0 <= k < |PERIPHERALS| && j != k ==>
              Disjoint(PERIPHERALS[k].virt, PERIPHERALS[k].pages, PERIPHERALS[j].virt, PERIPHERALS[j].pages)
  {
    DevicesSeparate();
    DevicesLow();
  }

  lemma DevicePlaced(pages: PageMap, desc: PageIndex, hash: PageIndex, i: nat)
    requires i < |PERIPHERALS|
    ensures DeviceIn(LastMap(PeripheralMap(PERIPHERALS, pages)
                             + RangeMap(ICM_KERNEL_DESC_AREA_ADDR, AddrOf(desc), 1, DATA_FLAGS)
                             + RangeMap(ICM_KERNEL_HASH_AREA_ADDR, AddrOf(hash), 1, HASH_FLAGS)), i)
  {
    hide RangeMap, Extends, LastMap, PeripheralMap, Separate;
    var p := PERIPHERALS[i];
    var devices := PeripheralMap(PERIPHERALS, pages);
    var fixed := devices + RangeMap(ICM_KERNEL_DESC_AREA_ADDR, AddrOf(desc), 1, DATA_FLAGS)
                 + RangeMap(ICM_KERNEL_HASH_AREA_ADDR, AddrOf(hash), 1, HASH_FLAGS);
    DevicesApart();
    DevicesLow();
    IcmOutside();
    PeripheralPlaced(PERIPHERALS, pages, i);
    IcmKeeps(devices, desc, hash, p.virt, p.phys, p.pages, DEVICE_FLAGS);
    LastKeeps(fixed, p.virt, p.phys, p.pages, DEVICE_FLAGS);
  }

  lemma IcmPlaced(pages: PageMap, desc: PageIndex, hash: PageIndex)
    ensures var fixed := pages + RangeMap(ICM_KERNEL_DESC_AREA_ADDR, AddrOf(desc), 1, DATA_FLAGS)
                         + RangeMap(ICM_KERNEL_HASH_AREA_ADDR, AddrOf(hash), 1, HASH_FLAGS);
            && Extends(LastMap(fixed), RangeMap(ICM_KERNEL_DESC_AREA_ADDR, AddrOf(desc), 1, DATA_FLAGS))
            && Extends(LastMap(fixed), RangeMap(ICM_KERNEL_HASH_AREA_ADDR, AddrOf(hash), 1, HASH_FLAGS))
  {
    hide RangeMap, Extends, LastMap;
    var d, h := RangeMap(ICM_KERNEL_DESC_AREA_ADDR, AddrOf(desc), 1, DATA_FLAGS),
        RangeMap(ICM_KERNEL_HASH_AREA_ADDR, AddrOf(hash), 1, HASH_FLAGS);
    RunPlaced(pages, d);
    RunPlaced(pages + d, h);
    RunKept(pages + d, ICM_KERNEL_DESC_AREA_ADDR, AddrOf(desc), 1, DATA_FLAGS,
            ICM_KERNEL_HASH_AREA_ADDR, AddrOf(hash), 1, HASH_FLAGS);
    LastKeeps(pages + d + h, ICM_KERNEL_DESC_AREA_ADDR, AddrOf(desc), 1, DATA_FLAGS);
    LastKeeps(pages + d + h, ICM_KERNEL_HASH_AREA_ADDR, AddrOf(hash), 1, HASH_FLAGS);
  }

  lemma LastPlaced(fixed: PageMap)
    ensures Extends(LastMap(fixed), RangeMap(BOOT_SPLASH_FB, BOOT_SPLASH_PHYS_ADDR, BOOT_SPLASH_PAGES, SPLASH_FLAGS))
    ensures Extends(LastMap(fixed), RangeMap(LOADER_CODE_ADDRESS, LOADER_CODE_ADDRESS, 1, TEXT_FLAGS))
  {
    hide RangeMap, Extends;
    var splash := RangeMap(BOOT_SPLASH_FB, BOOT_SPLASH_PHYS_ADDR, BOOT_SPLASH_PAGES, SPLASH_FLAGS);
    RunPlaced(fixed, splash);
    RunPlaced(fixed + splash, RangeMap(LOADER_CODE_ADDRESS, LOADER_CODE_ADDRESS, 1, TEXT_FLAGS));
    RunKept(fixed + splash, BOOT_SPLASH_FB, BOOT_SPLASH_PHYS_ADDR, BOOT_SPLASH_PAGES, SPLASH_FLAGS,
            LOADER_CODE_ADDRESS, LOADER_CODE_ADDRESS, 1, TEXT_FLAGS);
  }

  // ---- the view ----

  const KERNEL_RW := Access(true, true, false, false, Cached)
  const KERNEL_R := Access(true, false, false, false, Cached)
  const USER_RW := Access(true, true, true, true, Cached)

  /** Thread context and stacks, each in its own pages. */
  ghost predicate StacksShown(m: Ram, ttbr: Word, lay: BootLayout) {
    && PagesShown(m, ttbr, THREAD_CONTEXT_AREA, AddrOf(lay.thread), 1, KERNEL_RW.(memory := Device), false)
    && PagesShown(m, ttbr, PID1_STACK_BOTTOM - 0x1_0000, AddrOf(lay.pid1Stack), 16, KERNEL_RW, false)
    && PagesShown(m, ttbr, KERNEL_MODE_STACK_BOTTOM - 0x8000, AddrOf(lay.kernelStack), 8, KERNEL_RW, false)
    && PagesShown(m, ttbr, PID1_IRQ_HANDLER_STACK_BOTTOM - 0x4000, AddrOf(lay.irqStack), 4, KERNEL_RW, false)
  }

  /** Every device window leads to its device, the tracker to the tracker's pages, the screen to the splash
      image, also for users, and the loader's page to itself. */
  ghost predicate FixedShown(m: Ram, ttbr: Word, tracker: Word, t: nat, desc: PageIndex, hash: PageIndex) {
    && PagesShown(m, ttbr, ALLOCATION_TRACKER_OFFSET, tracker, t, KERNEL_RW, false)
    && (forall i :: 0 <= i < |PERIPHERALS| ==> DeviceShown(m, ttbr, i))
    && PagesShown(m, ttbr, ICM_KERNEL_DESC_AREA_ADDR, AddrOf(desc), 1, KERNEL_RW, false)
    && PagesShown(m, ttbr, ICM_KERNEL_HASH_AREA_ADDR, AddrOf(hash), 1, KERNEL_R.(memory := Uncached), false)
    && PagesShown(m, ttbr, BOOT_SPLASH_FB, BOOT_SPLASH_PHYS_ADDR, BOOT_SPLASH_PAGES, USER_RW, false)
    && PagesShown(m, ttbr, PLAINTEXT_DRAM_BASE, PLAINTEXT_DRAM_BASE, 1, KERNEL_R, true)
  }

  ghost predicate DeviceShown(m: Ram, ttbr: Word, i: nat)
    requires i < |PERIPHERALS|
  {
    PagesShown(m, ttbr, PERIPHERALS[i].virt, PERIPHERALS[i].phys, PERIPHERALS[i].pages, KERNEL_RW.(memory := Device),
               false)
  }

  lemma StacksAreShown(m: Ram, l1: PageIndex, l2: map<int, PageIndex>, pages: PageMap, sections: SectionMap,
                       lay: BootLayout)
    requires Tables(m, l1, l2, pages, sections) && StacksIn(pages, lay)
    ensures StacksShown(m, AddrOf(l1), lay)
  {
    hide Tables, RangeMap, Extends, PagesShown;
    PageAligned(lay.thread);
    PageAligned(lay.pid1Stack);
    PageAligned(lay.kernelStack);
    PageAligned(lay.irqStack);
    RunShown(m, l1, l2, pages, sections, THREAD_CONTEXT_AREA, AddrOf(lay.thread), 1, THREAD_FLAGS);
    RunShown(m, l1, l2, pages, sections, PID1_STACK_LOW, AddrOf(lay.pid1Stack), PID1_STACK_PAGE_COUNT, DATA_FLAGS);
    RunShown(m, l1, l2, pages, sections, KERNEL_STACK_LOW, AddrOf(lay.kernelStack), KERNEL_MODE_STACK_PAGE_COUNT,
             DATA_FLAGS);
    RunShown(m, l1, l2, pages, sections, IRQ_STACK_LOW, AddrOf(lay.irqStack), PID1_IRQ_HANDLER_STACK_PAGE_COUNT,
             DATA_FLAGS);
  }

  lemma PageAligned(p: PageIndex)
    ensures AddrOf(p) % PAGE_SIZE == 0 && AddrOf(p) + 0x1_0000 <= ADDRESS_SPACE
  {
    Euclid(AddrOf(p), PAGE_SIZE, 0x4_0000 + p, 0);
  }

  lemma FixedAreShown(m: Ram, l1: PageIndex, l2: map<int, PageIndex>, fixed: PageMap, sections: SectionMap,
                      tracker: Word, t: nat, desc: PageIndex, hash: PageIndex)
    requires Tables(m, l1, l2, LastMap(fixed), sections) && FixedIn(LastMap(fixed), tracker, t, desc, hash)
    requires tracker % PAGE_SIZE == 0 && tracker + t * PAGE_SIZE <= ADDRESS_SPACE
    ensures FixedShown(m, AddrOf(l1), tracker, t, desc, hash)
  {
    hide Tables, RangeMap, Extends, PagesShown, LastMap;
    var pages := LastMap(fixed);
    PageAligned(desc);
    PageAligned(hash);
    LastPlaced(fixed);
    RunShown(m, l1, l2, pages, sections, ALLOCATION_TRACKER_OFFSET, tracker, t, DATA_FLAGS);
    forall i | 0 <= i < |PERIPHERALS|
      ensures DeviceShown(m, AddrOf(l1), i)
    {
      DeviceAddress(i);
      assert DeviceIn(pages, i);
      var p := PERIPHERALS[i];
      RunShown(m, l1, l2, pages, sections, p.virt, p.phys, p.pages, DEVICE_FLAGS);
    }
    RunShown(m, l1, l2, pages, sections, ICM_KERNEL_DESC_AREA_ADDR, AddrOf(desc), 1, DATA_FLAGS);
    RunShown(m, l1, l2, pages, sections, ICM_KERNEL_HASH_AREA_ADDR, AddrOf(hash), 1, HASH_FLAGS);
    RunShown(m, l1, l2, pages, sections, BOOT_SPLASH_FB, BOOT_SPLASH_PHYS_ADDR, BOOT_SPLASH_PAGES, SPLASH_FLAGS);
    SamePageSameRun();
    RunShown(m, l1, l2, pages, sections, PLAINTEXT_DRAM_BASE, PLAINTEXT_DRAM_BASE, 1, TEXT_FLAGS);
  }

  lemma DeviceAddress(i: nat)
    requires i < |PERIPHERALS|
    ensures PERIPHERALS[i].virt % PAGE_SIZE == 0 && PERIPHERALS[i].phys % PAGE_SIZE == 0
    ensures PERIPHERALS[i].phys + PERIPHERALS[i].pages * PAGE_SIZE <= ADDRESS_SPACE
  {
  }

  /** The loader's code is in the first page of RAM. */
  lemma SamePageSameRun()
    ensures RangeMap(LOADER_CODE_ADDRESS, LOADER_CODE_ADDRESS, 1, TEXT_FLAGS)
         == RangeMap(PLAINTEXT_DRAM_BASE, PLAINTEXT_DRAM_BASE, 1, TEXT_FLAGS)
  {
    assert LOADER_CODE_ADDRESS / PAGE_SIZE == PLAINTEXT_DRAM_BASE / PAGE_SIZE;
  }

  /** At hand-off every run of the loader's leads where it should. */
  lemma BootShown(m: Ram, l1: PageIndex, l2: map<int, PageIndex>, sections: SectionMap, k: ProgramDescription,
                  h: HandOff, base: Word, argsSize: Word, tracker: Word, t: nat)
    requires KernelFits(k) && h.lay.data + k.DataPages() < RAM_PAGES && t < 0x200
    requires KERNEL_ARGUMENT_OFFSET + PagesOf(argsSize) * PAGE_SIZE <= THREAD_CONTEXT_AREA
    requires tracker % PAGE_SIZE == 0 && tracker + t * PAGE_SIZE <= ADDRESS_SPACE
    requires Tables(m, l1, l2, BootMap(k, h.lay, base, argsSize, tracker, t, h.desc, h.hash), sections)
    ensures StacksShown(m, AddrOf(l1), h.lay) && FixedShown(m, AddrOf(l1), tracker, t, h.desc, h.hash)
  {
    hide Tables, RangeMap, KernelMap, FixedMap, KernelFits, PagesOf, StacksIn, FixedIn, StacksShown, FixedShown;
    var fixed := FixedMap(KernelMap(k, h.lay), base, argsSize, tracker, t, h.desc, h.hash);
    StacksStay(k, h.lay, base, argsSize, tracker, t, h.desc, h.hash);
    FixedPlaced(KernelMap(k, h.lay), base, argsSize, tracker, t, h.desc, h.hash);
    assert LastMap(fixed) == BootMap(k, h.lay, base, argsSize, tracker, t, h.desc, h.hash);
    StacksAreShown(m, l1, l2, LastMap(fixed), sections, h.lay);
    FixedAreShown(m, l1, l2, fixed, sections, tracker, t, h.desc, h.hash);
  }

  // ---- nothing is mapped twice ----

  /** The page of RAM that a physical page is, in either view. */
  function RamPageOf(frame: nat): (p: int)
    ensures p < RAM_PAGES
    ensures p >= 0 <==> 0x2_0000 <= frame < 0x2_8000 || 0x4_0000 <= frame < 0x4_8000
  {
    if 0x4_0000 <= frame < 0x4_8000 then frame - 0x4_0000
    else if 0x2_0000 <= frame < 0x2_8000 then frame - 0x2_0000
    else -1
  }

  predicate IsArgument(argsSize: Word, u: int) {
    KERNEL_ARGUMENT_OFFSET / PAGE_SIZE <= u < KERNEL_ARGUMENT_OFFSET / PAGE_SIZE + PagesOf(argsSize)
  }

  /** Where the loader's RAM pages are seen: `first` is the run's first page of RAM, `v` its first virtual
      one. */
  predicate Seen(u: int, p: int, v: nat, first: int, n: nat) {
    first <= p < first + n && u == Onward(v, p - first)
  }

  /** What a page of RAM is mapped for. */
  datatype Purpose =
    | Thread | Pid1Stack | KernelStack | IrqStack | IcmDesc | IcmHash | Text | Data | TrackerPart | Splash | LoaderCode

  /** First page of RAM, first virtual page and length of the run of each purpose. */
  function RunOf(w: Purpose, k: ProgramDescription, h: HandOff, t: nat): (int, nat, nat) {
    match w
    case Thread => (h.lay.thread, THREAD_CONTEXT_AREA / PAGE_SIZE, 1)
    case Pid1Stack => (h.lay.pid1Stack, PID1_STACK_LOW / PAGE_SIZE, PID1_STACK_PAGE_COUNT)
    case KernelStack => (h.lay.kernelStack, KERNEL_STACK_LOW / PAGE_SIZE, KERNEL_MODE_STACK_PAGE_COUNT)
    case IrqStack => (h.lay.irqStack, IRQ_STACK_LOW / PAGE_SIZE, PID1_IRQ_HANDLER_STACK_PAGE_COUNT)
    case IcmDesc => (h.desc, ICM_KERNEL_DESC_AREA_ADDR / PAGE_SIZE, 1)
    case IcmHash => (h.hash, ICM_KERNEL_HASH_AREA_ADDR / PAGE_SIZE, 1)
    case Text => (h.lay.data + k.DataPages(), k.textOffset / PAGE_SIZE, k.TextPages())
    case Data => (h.lay.data, k.dataOffset / PAGE_SIZE, k.DataPages())
    case TrackerPart => (RAM_PAGES - BOOT_SPLASH_PAGES - t, ALLOCATION_TRACKER_OFFSET / PAGE_SIZE, t)
    case Splash => (RAM_PAGES - BOOT_SPLASH_PAGES, BOOT_SPLASH_FB / PAGE_SIZE, BOOT_SPLASH_PAGES)
    case LoaderCode => (0, LOADER_CODE_ADDRESS / PAGE_SIZE, 1)
  }

  predicate Serves(w: Purpose, k: ProgramDescription, h: HandOff, t: nat, u: int, p: int) {
    var run := RunOf(w, k, h, t);
    Seen(u, p, run.1, run.0, run.2)
  }

  /** The runs lie one behind the other, from the loader's page at the bottom of RAM to the splash image at
      its top. */
  predicate InOrder(k: ProgramDescription, h: HandOff, t: nat) {
    && 0 < h.hash < h.desc < h.lay.irqStack
    && h.lay.irqStack + PID1_IRQ_HANDLER_STACK_PAGE_COUNT <= h.lay.kernelStack
    && h.lay.kernelStack + KERNEL_MODE_STACK_PAGE_COUNT <= h.lay.pid1Stack
    && h.lay.pid1Stack + PID1_STACK_PAGE_COUNT <= h.lay.thread < h.lay.data
    && h.lay.data + k.DataPages() + k.TextPages() == RAM_PAGES - BOOT_SPLASH_PAGES - t
  }

  /** A page of RAM serves one purpose, and is seen at one place. */
  lemma OnePurpose(k: ProgramDescription, h: HandOff, t: nat, w: Purpose, x: Purpose, u: int, v: int, p: int)
    requires InOrder(k, h, t) && Serves(w, k, h, t, u, p) && Serves(x, k, h, t, v, p)
    ensures w == x && u == v
  {
    hide Onward;
  }

  lemma RunSeen(virt: Word, phys: Word, n: nat, f: Flags, first: int, u: int)
    requires n <= RAM_PAGES && 0 <= first && first + n <= RAM_PAGES
    requires phys / PAGE_SIZE == 0x4_0000 + first || phys / PAGE_SIZE == 0x2_0000 + first
    ensures u in RangeMap(virt, phys, n, f) ==>
              Seen(u, RamPageOf(RangeMap(virt, phys, n, f)[u].frame), virt / PAGE_SIZE, first, n)
  {
    if 0 <= u < PAGE_NUMBERS && Behind(u, virt / PAGE_SIZE) < n {
      var i := Behind(u, virt / PAGE_SIZE);
      BehindStep(u, virt / PAGE_SIZE, i);
      Euclid(phys / PAGE_SIZE + i, PAGE_NUMBERS, 0, phys / PAGE_SIZE + i);
    }
  }

  lemma FrameNumber(p: PageIndex)
    ensures AddrOf(p) / PAGE_SIZE == 0x4_0000 + p
  {
    Euclid(AddrOf(p), PAGE_SIZE, 0x4_0000 + p, 0);
  }

  /** Every page of the map that leads to RAM serves a purpose. */
  ghost predicate AllServe(pages: PageMap, k: ProgramDescription, h: HandOff, argsSize: Word, t: nat) {
    forall u :: u in pages && !IsArgument(argsSize, u) ==> PageServes(pages[u].frame, k, h, t, u)
  }

  ghost predicate PageServes(frame: nat, k: ProgramDescription, h: HandOff, t: nat, u: int) {
    RamPageOf(frame) >= 0 ==> exists w :: Serves(w, k, h, t, u, RamPageOf(frame))
  }

  lemma ServeMore(pages: PageMap, k: ProgramDescription, h: HandOff, argsSize: Word, t: nat, w: Purpose,
                  virt: Word, phys: Word, n: nat, f: Flags)
    requires AllServe(pages, k, h, argsSize, t) && n <= RAM_PAGES
    requires var run := RunOf(w, k, h, t);
             && run.1 == virt / PAGE_SIZE && run.2 == n && 0 <= run.0 && run.0 + n <= RAM_PAGES
             && (phys / PAGE_SIZE == 0x4_0000 + run.0 || phys / PAGE_SIZE == 0x2_0000 + run.0)
    ensures AllServe(pages + RangeMap(virt, phys, n, f), k, h, argsSize, t)
  {
    hide RangeMap, RunOf;
    var run := RangeMap(virt, phys, n, f);
    forall u | u in run
      ensures PageServes(run[u].frame, k, h, t, u)
    {
      RunSeen(virt, phys, n, f, RunOf(w, k, h, t).0, u);
      assert Serves(w, k, h, t, u, RamPageOf(run[u].frame));
    }
  }

  /** The arguments' own pages are not counted, wherever they lead. */
  lemma ServeArguments(pages: PageMap, k: ProgramDescription, h: HandOff, argsSize: Word, t: nat, base: Word)
    requires AllServe(pages, k, h, argsSize, t)
    requires KERNEL_ARGUMENT_OFFSET + PagesOf(argsSize) * PAGE_SIZE <= THREAD_CONTEXT_AREA
    ensures AllServe(pages + RangeMap(KERNEL_ARGUMENT_OFFSET, base, PagesOf(argsSize), READ_FLAGS), k, h, argsSize, t)
  {
    hide RangeMap, PageServes, PagesOf;
    var run := RangeMap(KERNEL_ARGUMENT_OFFSET, base, PagesOf(argsSize), READ_FLAGS);
    forall u | u in run
      ensures IsArgument(argsSize, u)
    {
      InWholeRange(KERNEL_ARGUMENT_OFFSET, base, PagesOf(argsSize), READ_FLAGS, u);
    }
  }

  /** Devices are not RAM. */
  lemma {:induction false} ServeDevices(ps: seq<Peripheral>, pages: PageMap, k: ProgramDescription, h: HandOff,
                                        argsSize: Word, t: nat)
    requires AllServe(pages, k, h, argsSize, t)
    requires forall i :: 0 <= i < |ps| ==> NotRam(ps[i])
    ensures AllServe(PeripheralMap(ps, pages), k, h, argsSize, t)
  {
    hide RangeMap, PageServes, NotRam;
    if |ps| > 0 {
      var p := ps[|ps| - 1];
      var run := RangeMap(p.virt, p.phys, p.pages, DEVICE_FLAGS);
      ServeDevices(ps[..|ps| - 1], pages, k, h, argsSize, t);
      forall u | u in run
        ensures PageServes(run[u].frame, k, h, t, u)
      {
        DeviceServes(p, k, h, t, u);
      }
    }
  }

  predicate NotRam(p: Peripheral) {
    p.phys / PAGE_SIZE + p.pages <= 0x2_0000
    || (0x4_8000 <= p.phys / PAGE_SIZE && p.phys / PAGE_SIZE + p.pages <= PAGE_NUMBERS)
  }

  lemma DevicesNotRam()
    ensures forall i :: 0 <= i < |PERIPHERALS| ==> NotRam(PERIPHERALS[i])
  {
  }

  lemma DeviceServes(p: Peripheral, k: ProgramDescription, h: HandOff, t: nat, u: int)
    requires NotRam(p) && u in RangeMap(p.virt, p.phys, p.pages, DEVICE_FLAGS)
    ensures PageServes(RangeMap(p.virt, p.phys, p.pages, DEVICE_FLAGS)[u].frame, k, h, t, u)
  {
    var i := Behind(u, p.virt / PAGE_SIZE);
    Euclid(p.phys / PAGE_SIZE + i, PAGE_NUMBERS, 0, p.phys / PAGE_SIZE + i);
  }

  lemma KernelServes(k: ProgramDescription, h: HandOff, argsSize: Word, t: nat)
    requires InOrder(k, h, t) && h.lay.data + k.DataPages() < RAM_PAGES
    ensures AllServe(KernelMap(k, h.lay), k, h, argsSize, t)
  {
    hide RangeMap, AllServe, IsArgument;
    var lay := h.lay;
    var none: PageMap := map[];
    NoneServes(k, h, argsSize, t);
    FrameNumber(lay.thread);
    FrameNumber(lay.pid1Stack);
    FrameNumber(lay.kernelStack);
    FrameNumber(lay.irqStack);
    FrameNumber(lay.data);
    FrameNumber(lay.data + k.DataPages());
    var one := RangeMap(THREAD_CONTEXT_AREA, AddrOf(lay.thread), 1, THREAD_FLAGS);
    ServeMore(none, k, h, argsSize, t, Thread, THREAD_CONTEXT_AREA, AddrOf(lay.thread), 1, THREAD_FLAGS);
    assert none + one == one;
    var two := one + RangeMap(PID1_STACK_LOW, AddrOf(lay.pid1Stack), PID1_STACK_PAGE_COUNT, DATA_FLAGS);
    ServeMore(one, k, h, argsSize, t, Pid1Stack, PID1_STACK_LOW, AddrOf(lay.pid1Stack), PID1_STACK_PAGE_COUNT,
              DATA_FLAGS);
    var three := two + RangeMap(KERNEL_STACK_LOW, AddrOf(lay.kernelStack), KERNEL_MODE_STACK_PAGE_COUNT, DATA_FLAGS);
    ServeMore(two, k, h, argsSize, t, KernelStack, KERNEL_STACK_LOW, AddrOf(lay.kernelStack),
              KERNEL_MODE_STACK_PAGE_COUNT, DATA_FLAGS);
    ServeMore(three, k, h, argsSize, t, IrqStack, IRQ_STACK_LOW, AddrOf(lay.irqStack),
              PID1_IRQ_HANDLER_STACK_PAGE_COUNT, DATA_FLAGS);
    ServeMore(StackMap(lay), k, h, argsSize, t, Text, k.textOffset, AddrOf(lay.data + k.DataPages()), k.TextPages(),
              TEXT_FLAGS);
    ServeMore(StackMap(lay) + RangeMap(k.textOffset, AddrOf(lay.data + k.DataPages()), k.TextPages(), TEXT_FLAGS),
              k, h, argsSize, t, Data, k.dataOffset, AddrOf(lay.data), k.DataPages(), DATA_FLAGS);
  }

  lemma NoneServes(k: ProgramDescription, h: HandOff, argsSize: Word, t: nat)
    ensures AllServe(map[], k, h, argsSize, t)
  {
  }

  /** Every page of the finished map that leads to RAM, arguments aside, serves a purpose. */
  lemma BootServes(k: ProgramDescription, h: HandOff, base: Word, argsSize: Word, tracker: Word, t: nat)
    requires InOrder(k, h, t) && h.lay.data + k.DataPages() < RAM_PAGES
    requires KERNEL_ARGUMENT_OFFSET + PagesOf(argsSize) * PAGE_SIZE <= THREAD_CONTEXT_AREA
    requires tracker == AddrOf(RAM_PAGES - BOOT_SPLASH_PAGES - t) && t <= RAM_PAGES - BOOT_SPLASH_PAGES
    ensures AllServe(BootMap(k, h.lay, base, argsSize, tracker, t, h.desc, h.hash), k, h, argsSize, t)
  {
    hide RangeMap, AllServe, IsArgument, KernelMap, PeripheralMap, PagesOf;
    KernelServes(k, h, argsSize, t);
    FrameNumber(RAM_PAGES - BOOT_SPLASH_PAGES - t);
    FrameNumber(h.desc);
    FrameNumber(h.hash);
    DevicesNotRam();
    var kernel := KernelMap(k, h.lay);
    var one := kernel + RangeMap(ALLOCATION_TRACKER_OFFSET, tracker, t, DATA_FLAGS);
    ServeMore(kernel, k, h, argsSize, t, TrackerPart, ALLOCATION_TRACKER_OFFSET, tracker, t, DATA_FLAGS);
    var two := one + RangeMap(KERNEL_ARGUMENT_OFFSET, base, PagesOf(argsSize), READ_FLAGS);
    ServeArguments(one, k, h, argsSize, t, base);
    var three := PeripheralMap(PERIPHERALS, two);
    ServeDevices(PERIPHERALS, two, k, h, argsSize, t);
    var four := three + RangeMap(ICM_KERNEL_DESC_AREA_ADDR, AddrOf(h.desc), 1, DATA_FLAGS);
    ServeMore(three, k, h, argsSize, t, IcmDesc, ICM_KERNEL_DESC_AREA_ADDR, AddrOf(h.desc), 1, DATA_FLAGS);
    var five := four + RangeMap(ICM_KERNEL_HASH_AREA_ADDR, AddrOf(h.hash), 1, HASH_FLAGS);
    ServeMore(four, k, h, argsSize, t, IcmHash, ICM_KERNEL_HASH_AREA_ADDR, AddrOf(h.hash), 1, HASH_FLAGS);
    var six := five + RangeMap(BOOT_SPLASH_FB, BOOT_SPLASH_PHYS_ADDR, BOOT_SPLASH_PAGES, SPLASH_FLAGS);
    ServeMore(five, k, h, argsSize, t, Splash, BOOT_SPLASH_FB, BOOT_SPLASH_PHYS_ADDR, BOOT_SPLASH_PAGES, SPLASH_FLAGS);
    ServeMore(six, k, h, argsSize, t, LoaderCode, LOADER_CODE_ADDRESS, LOADER_CODE_ADDRESS, 1, TEXT_FLAGS);
  }

  /** No page of RAM is mapped at two places, arguments aside. */
  ghost predicate NothingTwice(pages: PageMap, argsSize: Word) {
    forall u, v :: u in pages && v in pages && !IsArgument(argsSize, u) && !IsArgument(argsSize, v) ==>
      RamPageOf(pages[u].frame) == RamPageOf(pages[v].frame) >= 0 ==> u == v
  }

  /** No table is mapped, arguments aside. */
  ghost predicate NoTableMapped(pages: PageMap, argsSize: Word, l1: PageIndex, l2: map<int, PageIndex>) {
    forall u :: u in pages && !IsArgument(argsSize, u) && RamPageOf(pages[u].frame) >= 0 ==>
      !IsTablePage(l1, l2, RamPageOf(pages[u].frame))
  }

  lemma PurposeIsNoTable(k: ProgramDescription, h: HandOff, t: nat, l1: PageIndex, l2: map<int, PageIndex>, top: int,
                         w: Purpose, u: int, p: PageIndex)
    requires InOrder(k, h, t) && PagesApart(h, l1, l2, top) && Serves(w, k, h, t, u, p)
    requires 0 < top <= l1 && forall g :: g in l2 ==> top <= l2[g] < l1
    ensures !IsTablePage(l1, l2, p)
  {
    hide Onward;
  }

  /** At hand-off, arguments aside, no page of RAM is mapped at two places, and no table at all. */
  lemma BootSharesNothing(k: ProgramDescription, h: HandOff, base: Word, argsSize: Word, tracker: Word, t: nat,
                          l1: PageIndex, l2: map<int, PageIndex>, top: int)
    requires PagesApart(h, l1, l2, top) && 0 < top <= l1 && (forall g :: g in l2 ==> top <= l2[g] < l1)
    requires h.lay.data + k.DataPages() + k.TextPages() == RAM_PAGES - BOOT_SPLASH_PAGES - t
    requires KERNEL_ARGUMENT_OFFSET + PagesOf(argsSize) * PAGE_SIZE <= THREAD_CONTEXT_AREA
    requires h.lay.data + k.DataPages() < RAM_PAGES && t <= RAM_PAGES - BOOT_SPLASH_PAGES
    requires tracker == AddrOf(RAM_PAGES - BOOT_SPLASH_PAGES - t)
    ensures var pages := BootMap(k, h.lay, base, argsSize, tracker, t, h.desc, h.hash);
            NothingTwice(pages, argsSize) && NoTableMapped(pages, argsSize, l1, l2)
  {
    hide BootMap, IsArgument, PagesOf, NoTables, Serves, RunOf, IsTablePage, RamPageOf;
    var pages := BootMap(k, h.lay, base, argsSize, tracker, t, h.desc, h.hash);
    assert InOrder(k, h, t);
    BootServes(k, h, base, argsSize, tracker, t);
    forall u, v | u in pages && v in pages && !IsArgument(argsSize, u) && !IsArgument(argsSize, v)
                  && RamPageOf(pages[u].frame) == RamPageOf(pages[v].frame) >= 0
      ensures u == v
    {
      assert PageServes(pages[u].frame, k, h, t, u) && PageServes(pages[v].frame, k, h, t, v);
      var w :| Serves(w, k, h, t, u, RamPageOf(pages[u].frame));
      var x :| Serves(x, k, h, t, v, RamPageOf(pages[v].frame));
      OnePurpose(k, h, t, w, x, u, v, RamPageOf(pages[u].frame));
    }
    forall u | u in pages && !IsArgument(argsSize, u) && RamPageOf(pages[u].frame) >= 0
      ensures !IsTablePage(l1, l2, RamPageOf(pages[u].frame))
    {
      assert PageServes(pages[u].frame, k, h, t, u);
      var w :| Serves(w, k, h, t, u, RamPageOf(pages[u].frame));
      PurposeIsNoTable(k, h, t, l1, l2, top, w, u, RamPageOf(pages[u].frame));
    }
  }

  // ---- what is mapped is owned ----

  /** Every page that is mapped to a frame with a tracker entry is marked as owned. */
  ghost predicate MappedOwned(pages: PageMap, regions: seq<Range>, owned: set<int>) {
    forall u :: u in pages ==> FrameOwned(regions, owned, pages[u].frame)
  }

  predicate FrameOwned(regions: seq<Range>, owned: set<int>, frame: nat) {
    frame < PAGE_NUMBERS && EntryOf(regions, frame * PAGE_SIZE).Some? ==>
      EntryOf(regions, frame * PAGE_SIZE).value in owned
  }

  /** Addresses of one page are found in one region. */
  lemma {:induction false} SamePageRegion(regions: seq<Range>, a: Word, b: Word, k: nat)
    requires (forall r :: r in regions ==> WholePages(r)) && a / PAGE_SIZE == b / PAGE_SIZE && k <= |regions|
    ensures FindRegion(regions, a, k) == FindRegion(regions, b, k)
    decreases |regions| - k
  {
    if k < |regions| {
      assert regions[k] in regions;
      SamePageRegion(regions, a, b, k + 1);
    }
  }

  lemma SamePageEntry(regions: seq<Range>, a: Word, b: Word)
    requires (forall r :: r in regions ==> WholePages(r)) && a / PAGE_SIZE == b / PAGE_SIZE
    ensures EntryOf(regions, a).Some? ==> EntryOf(regions, b) == EntryOf(regions, a)
  {
    hide WholePages, FindRegion;
    var x, y := DramView(a), DramView(b);
    assert x / PAGE_SIZE == y / PAGE_SIZE;
    EncryptedFrame(x);
    EncryptedFrame(y);
    SamePageRegion(regions, x, y, 0);
    if EntryOf(regions, a).Some? {
      if !InEncrypted(x) {
        var r := FindRegion(regions, x, 0);
        assert regions[r] in regions;
        SamePageOffset(regions[r], x, y);
      }
    }
  }

  lemma SamePageOffset(r: Range, x: Word, y: Word)
    requires WholePages(r) && r.start <= x && r.start <= y && x / PAGE_SIZE == y / PAGE_SIZE
    ensures (x - r.start) / PAGE_SIZE == (y - r.start) / PAGE_SIZE
  {
    var s := r.start / PAGE_SIZE;
    Euclid(x - r.start, PAGE_SIZE, x / PAGE_SIZE - s, x % PAGE_SIZE);
    Euclid(y - r.start, PAGE_SIZE, y / PAGE_SIZE - s, y % PAGE_SIZE);
  }

  lemma {:induction false} EntrySpanHas(regions: seq<Range>, phys: Word, n: nat, i: nat)
    requires i < n && EntryOf(regions, StepAddr(phys, i)).Some?
    ensures EntryOf(regions, StepAddr(phys, i)).value in EntrySpan(regions, phys, n)
  {
    hide EntryOf, StepAddr;
    if i < n - 1 {
      EntrySpanHas(regions, phys, n - 1, i);
    }
  }

  lemma OwnMore(pages: PageMap, regions: seq<Range>, owned: set<int>, virt: Word, phys: Word, n: nat, f: Flags)
    requires forall r :: r in regions ==> WholePages(r)
    requires MappedOwned(pages, regions, owned) && EntrySpan(regions, phys, n) <= owned
    ensures MappedOwned(pages + RangeMap(virt, phys, n, f), regions, owned)
  {
    hide EntryOf, WholePages, EntrySpan;
    var run := RangeMap(virt, phys, n, f);
    forall u | u in run
      ensures FrameOwned(regions, owned, run[u].frame)
    {
      var i := Behind(u, virt / PAGE_SIZE);
      StepPage(phys, i);
      var a := run[u].frame * PAGE_SIZE;
      Euclid(a, PAGE_SIZE, run[u].frame, 0);
      if EntryOf(regions, a).Some? {
        SamePageEntry(regions, a, StepAddr(phys, i));
        EntrySpanHas(regions, phys, n, i);
      }
    }
  }

  /** A run of RAM pages above the final top. */
  lemma OwnRam(pages: PageMap, regions: seq<Range>, owned: set<int>, top: int, virt: Word, phys: Word, p: int, n: nat,
               f: Flags)
    requires (forall r :: r in regions ==> WholePages(r)) && 0 <= top <= p && p + n <= RAM_PAGES
    requires phys == ENCRYPTED_DRAM_BASE + p * PAGE_SIZE || phys == PLAINTEXT_DRAM_BASE + p * PAGE_SIZE
    requires MappedOwned(pages, regions, owned) && PageSpan(top, RAM_PAGES) <= owned
    ensures MappedOwned(pages + RangeMap(virt, phys, n, f), regions, owned)
  {
    hide MappedOwned, WholePages, EntrySpan;
    EntrySpanOfDram(regions, phys, p, n);
    OwnMore(pages, regions, owned, virt, phys, n, f);
  }

  lemma {:induction false} OwnDevices(ps: seq<Peripheral>, pages: PageMap, regions: seq<Range>, owned: set<int>)
    requires forall r :: r in regions ==> WholePages(r)
    requires MappedOwned(pages, regions, owned) && PeripheralEntries(ps, regions) <= owned
    ensures MappedOwned(PeripheralMap(ps, pages), regions, owned)
  {
    hide MappedOwned, WholePages, EntrySpan, RangeMap;
    if |ps| > 0 {
      var p := ps[|ps| - 1];
      OwnDevices(ps[..|ps| - 1], pages, regions, owned);
      OwnMore(PeripheralMap(ps[..|ps| - 1], pages), regions, owned, p.virt, p.phys, p.pages, DEVICE_FLAGS);
    }
  }

  lemma KernelOwned(k: ProgramDescription, h: HandOff, t: nat, regions: seq<Range>, owned: set<int>, top: int)
    requires (forall r :: r in regions ==> WholePages(r)) && PageSpan(top, RAM_PAGES) <= owned
    requires InOrder(k, h, t) && 0 <= top <= h.hash && h.lay.data + k.DataPages() < RAM_PAGES
    ensures MappedOwned(KernelMap(k, h.lay), regions, owned)
  {
    hide MappedOwned, WholePages, RangeMap;
    var lay := h.lay;
    var none: PageMap := map[];
    NoneOwned(regions, owned);
    var one := RangeMap(THREAD_CONTEXT_AREA, AddrOf(lay.thread), 1, THREAD_FLAGS);
    OwnRam(none, regions, owned, top, THREAD_CONTEXT_AREA, AddrOf(lay.thread), lay.thread, 1, THREAD_FLAGS);
    assert none + one == one;
    OwnRam(one, regions, owned, top, PID1_STACK_LOW, AddrOf(lay.pid1Stack), lay.pid1Stack, PID1_STACK_PAGE_COUNT,
           DATA_FLAGS);
    var two := one + RangeMap(PID1_STACK_LOW, AddrOf(lay.pid1Stack), PID1_STACK_PAGE_COUNT, DATA_FLAGS);
    OwnRam(two, regions, owned, top, KERNEL_STACK_LOW, AddrOf(lay.kernelStack), lay.kernelStack,
           KERNEL_MODE_STACK_PAGE_COUNT, DATA_FLAGS);
    var three := two + RangeMap(KERNEL_STACK_LOW, AddrOf(lay.kernelStack), KERNEL_MODE_STACK_PAGE_COUNT, DATA_FLAGS);
    OwnRam(three, regions, owned, top, IRQ_STACK_LOW, AddrOf(lay.irqStack), lay.irqStack,
           PID1_IRQ_HANDLER_STACK_PAGE_COUNT, DATA_FLAGS);
    OwnRam(StackMap(lay), regions, owned, top, k.textOffset, AddrOf(lay.data + k.DataPages()),
           lay.data + k.DataPages(), k.TextPages(), TEXT_FLAGS);
    OwnRam(StackMap(lay) + RangeMap(k.textOffset, AddrOf(lay.data + k.DataPages()), k.TextPages(), TEXT_FLAGS),
           regions, owned, top, k.dataOffset, AddrOf(lay.data), lay.data, k.DataPages(), DATA_FLAGS);
  }

  lemma NoneOwned(regions: seq<Range>, owned: set<int>)
    ensures MappedOwned(map[], regions, owned)
  {
  }

  /** At hand-off everything that is mapped and can be tracked is owned, so that the kernel cannot give it
      away again. */
  lemma BootOwnsMapped(k: ProgramDescription, h: HandOff, base: Word, argsSize: Word, tracker: Word, t: nat,
                       l1: PageIndex, l2: map<int, PageIndex>, top: int, regions: seq<Range>)
    requires (forall r :: r in regions ==> WholePages(r)) && PagesApart(h, l1, l2, top) && 0 < top
    requires h.lay.data + k.DataPages() + k.TextPages() == RAM_PAGES - BOOT_SPLASH_PAGES - t
    requires h.lay.data + k.DataPages() < RAM_PAGES && t <= RAM_PAGES - BOOT_SPLASH_PAGES
    requires tracker == AddrOf(RAM_PAGES - BOOT_SPLASH_PAGES - t)
    ensures MappedOwned(BootMap(k, h.lay, base, argsSize, tracker, t, h.desc, h.hash), regions,
                        PageSpan(top, RAM_PAGES) + OutsideEntries(regions, base, argsSize))
  {
    hide MappedOwned, WholePages, RangeMap, KernelMap, PeripheralMap, PeripheralEntries, EntrySpan, PagesOf, NoTables;
    var owned := PageSpan(top, RAM_PAGES) + OutsideEntries(regions, base, argsSize);
    assert InOrder(k, h, t);
    KernelOwned(k, h, t, regions, owned, top);
    var kernel := KernelMap(k, h.lay);
    OwnRam(kernel, regions, owned, top, ALLOCATION_TRACKER_OFFSET, tracker, RAM_PAGES - BOOT_SPLASH_PAGES - t, t,
           DATA_FLAGS);
    var one := kernel + RangeMap(ALLOCATION_TRACKER_OFFSET, tracker, t, DATA_FLAGS);
    OwnMore(one, regions, owned, KERNEL_ARGUMENT_OFFSET, base, PagesOf(argsSize), READ_FLAGS);
    var two := one + RangeMap(KERNEL_ARGUMENT_OFFSET, base, PagesOf(argsSize), READ_FLAGS);
    OwnDevices(PERIPHERALS, two, regions, owned);
    var three := PeripheralMap(PERIPHERALS, two);
    OwnRam(three, regions, owned, top, ICM_KERNEL_DESC_AREA_ADDR, AddrOf(h.desc), h.desc, 1, DATA_FLAGS);
    var four := three + RangeMap(ICM_KERNEL_DESC_AREA_ADDR, AddrOf(h.desc), 1, DATA_FLAGS);
    OwnRam(four, regions, owned, top, ICM_KERNEL_HASH_AREA_ADDR, AddrOf(h.hash), h.hash, 1, HASH_FLAGS);
    var five := four + RangeMap(ICM_KERNEL_HASH_AREA_ADDR, AddrOf(h.hash), 1, HASH_FLAGS);
    OwnRam(five, regions, owned, top, BOOT_SPLASH_FB, BOOT_SPLASH_PHYS_ADDR, RAM_PAGES - BOOT_SPLASH_PAGES,
           BOOT_SPLASH_PAGES, SPLASH_FLAGS);
    var six := five + RangeMap(BOOT_SPLASH_FB, BOOT_SPLASH_PHYS_ADDR, BOOT_SPLASH_PAGES, SPLASH_FLAGS);
    LoaderEntry(regions);
    OwnMore(six, regions, owned, LOADER_CODE_ADDRESS, LOADER_CODE_ADDRESS, 1, TEXT_FLAGS);
  }
}
