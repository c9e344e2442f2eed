/** The ARMv7-A short-descriptor translation table format (section B3.5 of ARM DDI 0406C):
    how the loader encodes descriptors and how the hardware walk decodes them.
    The two sides are written independently and tied together by the lemmas at the end. */
module Armv7 {
  import opened Layout
  import opened Arith

  /** The loader's mapping request flags, one per `FLG_*` bit. */
  datatype Flags = Flags(valid: bool, x: bool, w: bool, r: bool, u: bool, guard: bool, dev: bool, noCache: bool)

  /** What memory behind a mapping is taken for. */
  datatype Memory = Cached | Uncached | Device | StronglyOrdered

  /** Data access allowed to privileged and unprivileged code, and to what kind of memory. */
  datatype Access = Access(privRead: bool, privWrite: bool, userRead: bool, userWrite: bool, memory: Memory)

  /** What a small page translates to: a 4 KiB frame number, its data access, and execute. */
  datatype PageMapping = PageMapping(frame: nat, access: Access, exec: bool)

  /** What a section translates to: a 1 MiB frame number and its data access. */
  datatype SectionMapping = SectionMapping(frame: nat, access: Access)

  // ---- decoding, as the hardware reads a descriptor ----

  /** Data access from AP[2] and AP[1:0] (section B3.7.1); the reserved value 0b100 is no access. */
  function DecodeAccess(ap2: bool, ap: int, memory: Memory): Access {
    match ap
    case 1 => Access(true, !ap2, false, false, memory)
    case 2 => Access(true, !ap2, true, false, memory)
    case 3 => Access(true, !ap2, true, !ap2, memory)
    case _ => Access(false, false, false, false, memory)
  }

  /** The memory type from TEX[0], C and B with remapping (section B3.8.3), as the kernel is started: B means
      device, C alone cacheable, and TEX[0] strongly ordered. */
  function DecodeMemory(tex: bool, c: bool, b: bool): Memory {
    if tex then StronglyOrdered else if b then Device else if c then Cached else Uncached
  }

  datatype L1Descriptor =
    | L1Invalid
    | L1PageTable(base: nat)
    | L1Section(section: SectionMapping, global: bool)
    | L1Supersection

  function DecodeL1(d: Word): L1Descriptor {
    if d % 4 == 0 then L1Invalid
    else if d % 4 == 1 then L1PageTable(d - d % 0x400)
    else if (d / 0x4_0000) % 2 == 1 then L1Supersection
    else
      var memory := DecodeMemory((d / 0x1000) % 2 == 1, (d / 8) % 2 == 1, (d / 4) % 2 == 1);
      L1Section(SectionMapping(d / 0x10_0000, DecodeAccess((d / 0x8000) % 2 == 1, (d / 0x400) % 4, memory)),
                (d / 0x2_0000) % 2 == 0)
  }

  datatype L2Descriptor =
    | L2Invalid
    | L2LargePage
    | L2SmallPage(page: PageMapping, global: bool)

  function DecodeL2(e: Word): L2Descriptor {
    if e % 4 == 0 then L2Invalid
    else if e % 4 == 1 then L2LargePage
    else
      var memory := DecodeMemory((e / 0x40) % 2 == 1, (e / 8) % 2 == 1, (e / 4) % 2 == 1);
      L2SmallPage(PageMapping(e / 0x1000, DecodeAccess((e / 0x200) % 2 == 1, (e / 0x10) % 4, memory), e % 2 == 0),
                  (e / 0x800) % 2 == 0)
  }

  // ---- encoding, as the loader writes a descriptor ----

  function Bit(b: bool, weight: nat): (r: nat)
    ensures r == weight || r == 0
  {
    if b then weight else 0
  }

  /** `VALID | DOMAIN.val(0xf)`: the three-bit domain field keeps the low bits of 0xf. */
  const PAGE_TABLE_ENTRY_FLAGS: nat := 0xE1

  function PageTableDescriptor(subTable: nat): nat {
    subTable + PAGE_TABLE_ENTRY_FLAGS
  }

  function SmallPageAp(f: Flags): nat {
    if f.guard then 0
    else if f.u then (if !f.w then 2 else 3)
    else 1
  }

  function SmallPageBits(f: Flags, isGlobal: bool): nat {
    Bit(f.valid && !f.x, 0x1) + Bit(f.valid, 0x2) + Bit(f.dev, 0x4) + Bit(!f.dev && !f.noCache, 0x8)
    + 0x10 * SmallPageAp(f) + Bit(!f.w && !f.guard, 0x200) + Bit(!isGlobal, 0x800)
  }

  function SectionAp(f: Flags): nat {
    if f.guard then 0
    else if f.u then (if !f.w then 1 else 3)
    else 1
  }

  function SectionBits(f: Flags, isGlobal: bool): nat {
    0x2 + Bit(f.dev, 0x4) + Bit(!f.dev && !f.noCache, 0x8) + 0x1E0
    + 0x400 * SectionAp(f) + Bit(!f.w && !f.guard, 0x8000) + Bit(!isGlobal, 0x2_0000)
  }

  // ---- what the flags ask for ----

  /** The access the request flags stand for: a guard page has none, the privileged side
      always reads, `W` adds writing, and `U` extends both to unprivileged code. */
  function Requested(f: Flags): Access {
    Access(!f.guard, !f.guard && f.w, !f.guard && f.u, !f.guard && f.u && f.w, MemoryOf(f))
  }

  /** A device is one whatever else is asked for, and other memory is cached unless that is not wanted. */
  function MemoryOf(f: Flags): Memory {
    if f.dev then Device else if f.noCache then Uncached else Cached
  }

  // ---- encode/decode round trips ----

  lemma PageTableDescriptorDecodes(subTable: nat)
    requires subTable % 0x400 == 0 && subTable + 0x400 <= ADDRESS_SPACE
    ensures DecodeL1(PageTableDescriptor(subTable)) == L1PageTable(subTable)
  {
    var d, k := PageTableDescriptor(subTable), subTable / 0x400;
    Euclid(d, 4, 0x100 * k + 0x38, 1);
    Euclid(d, 0x400, k, 0xE1);
  }

  /** The fields of a small-page descriptor put together by addition. */
  lemma SmallPageFields(low: int, mid: int, ap: int, ro: int, ng: int, frame: int)
    requires 0 <= low < 4 && 0 <= mid < 4 && 0 <= ap < 4 && 0 <= ro < 2 && 0 <= ng < 2 && frame >= 0
    ensures var e := low + 4 * mid + 0x10 * ap + 0x200 * ro + 0x800 * ng + 0x1000 * frame;
            e % 4 == low && e % 2 == low % 2 && (e / 0x10) % 4 == ap && (e / 0x200) % 2 == ro && e / 0x1000 == frame
  {
    var upper := ro + 4 * ng + 8 * frame;
    var middle := ap + 0x20 * upper;
    var e := low + 4 * mid + 0x10 * middle;
    Euclid(e, 4, mid + 4 * middle, low);
    Euclid(e, 2, 2 * (mid + 4 * middle) + low / 2, low % 2);
    Euclid(e, 0x10, middle, low + 4 * mid);
    Euclid(middle, 4, 8 * upper, ap);
    Euclid(e, 0x200, upper, low + 4 * mid + 0x10 * ap);
    Euclid(upper, 2, 2 * ng + 4 * frame, ro);
    Euclid(e, 0x1000, frame, low + 4 * mid + 0x10 * ap + 0x200 * ro + 0x800 * ng);
  }

  lemma SmallPageMemory(low: int, b: int, c: int, ap: int, ro: int, ng: int, frame: int)
    requires 0 <= low < 4 && 0 <= b < 2 && 0 <= c < 2 && 0 <= ap < 4 && 0 <= ro < 2 && 0 <= ng < 2 && frame >= 0
    ensures var e := low + 4 * (b + 2 * c) + 0x10 * ap + 0x200 * ro + 0x800 * ng + 0x1000 * frame;
            e / 4 % 2 == b && e / 8 % 2 == c && e / 0x40 % 2 == 0 && e / 0x800 % 2 == ng
  {
    var e := low + 4 * (b + 2 * c) + 0x10 * ap + 0x200 * ro + 0x800 * ng + 0x1000 * frame;
    var top := ng + 2 * frame;
    var upper := ro + 4 * top;
    Euclid(e, 4, b + 2 * (c + 2 * ap + 0x40 * upper), low);
    Euclid(b + 2 * (c + 2 * ap + 0x40 * upper), 2, c + 2 * ap + 0x40 * upper, b);
    Euclid(e, 8, c + 2 * (ap + 0x20 * upper), low + 4 * b);
    Euclid(c + 2 * (ap + 0x20 * upper), 2, ap + 0x20 * upper, c);
    Euclid(e, 0x40, 8 * upper, low + 4 * b + 8 * c + 0x10 * ap);
    Euclid(8 * upper, 2, 4 * upper, 0);
    Euclid(e, 0x800, top, low + 4 * b + 8 * c + 0x10 * ap + 0x200 * ro);
    Euclid(top, 2, frame, ng);
  }

  lemma SectionMemory(b: int, c: int, ap: int, ro: int, ng: int, frame: int)
    requires 0 <= b < 2 && 0 <= c < 2 && 0 <= ap < 4 && 0 <= ro < 2 && 0 <= ng < 2 && frame >= 0
    ensures var d := 2 + 4 * (b + 2 * c) + 0x1E0 + 0x400 * ap + 0x8000 * ro + 0x2_0000 * ng + 0x10_0000 * frame;
            d / 4 % 2 == b && d / 8 % 2 == c && d / 0x1000 % 2 == 0 && d / 0x2_0000 % 2 == ng
  {
    var d := 2 + 4 * (b + 2 * c) + 0x1E0 + 0x400 * ap + 0x8000 * ro + 0x2_0000 * ng + 0x10_0000 * frame;
    var top := ng + 8 * frame;
    var upper := ro + 4 * top;
    Euclid(d, 4, b + 2 * (c + 0x3C + 0x80 * ap + 0x1000 * upper), 2);
    Euclid(b + 2 * (c + 0x3C + 0x80 * ap + 0x1000 * upper), 2, c + 0x3C + 0x80 * ap + 0x1000 * upper, b);
    Euclid(d, 8, c + 2 * (0x1E + 0x40 * ap + 0x800 * upper), 2 + 4 * b);
    Euclid(c + 2 * (0x1E + 0x40 * ap + 0x800 * upper), 2, 0x1E + 0x40 * ap + 0x800 * upper, c);
    Euclid(d, 0x1000, 8 * upper, 2 + 4 * b + 8 * c + 0x1E0 + 0x400 * ap);
    Euclid(8 * upper, 2, 4 * upper, 0);
    Euclid(d, 0x2_0000, top, 2 + 4 * b + 8 * c + 0x1E0 + 0x400 * ap + 0x8000 * ro);
    Euclid(top, 2, 4 * frame, ng);
  }

  /** The fields of a section descriptor put together by addition. */
  lemma SectionFields(low: int, ap: int, ro: int, ng: int, frame: int)
    requires 0 <= low < 4 && 0 <= ap < 4 && 0 <= ro < 2 && 0 <= ng < 2 && frame >= 0
    ensures var d := 2 + 4 * low + 0x1E0 + 0x400 * ap + 0x8000 * ro + 0x2_0000 * ng + 0x10_0000 * frame;
            && d % 4 == 2 && (d / 0x400) % 4 == ap && (d / 0x8000) % 2 == ro
            && (d / 0x4_0000) % 2 == 0 && d / 0x10_0000 == frame
  {
    var upper := ro + 4 * ng + 0x20 * frame;
    var middle := ap + 0x20 * upper;
    var d := 2 + 4 * low + 0x1E0 + 0x400 * middle;
    Euclid(d, 4, low + 0x78 + 0x100 * middle, 2);
    Euclid(d, 0x400, middle, 2 + 4 * low + 0x1E0);
    Euclid(middle, 4, 8 * upper, ap);
    Euclid(d, 0x8000, upper, 2 + 4 * low + 0x1E0 + 0x400 * ap);
    Euclid(upper, 2, 2 * ng + 0x10 * frame, ro);
    Euclid(d, 0x4_0000, 4 * frame, 2 + 4 * low + 0x1E0 + 0x400 * ap + 0x8000 * ro + 0x2_0000 * ng);
    Euclid(4 * frame, 2, 2 * frame, 0);
    Euclid(d, 0x10_0000, frame, 2 + 4 * low + 0x1E0 + 0x400 * ap + 0x8000 * ro + 0x2_0000 * ng);
  }

  /** Reading back a small-page descriptor gives the frame, exactly the requested data access and kind of
      memory, execute exactly when asked for, and whether it is global; without `FLG_VALID` the entry stays
      invalid. */
  lemma SmallPageDecodes(frame: nat, f: Flags, isGlobal: bool)
    requires frame < 0x10_0000
    ensures frame * 0x1000 + SmallPageBits(f, isGlobal) < ADDRESS_SPACE
    ensures DecodeL2(frame * 0x1000 + SmallPageBits(f, isGlobal))
         == if f.valid then L2SmallPage(PageMapping(frame, Requested(f), f.x), isGlobal) else L2Invalid
  {
    var ap := SmallPageAp(f);
    var low := Bit(f.valid && !f.x, 1) + Bit(f.valid, 2);
    var mid := Bit(f.dev, 1) + Bit(!f.dev && !f.noCache, 2);
    var ro, ng := Bit(!f.w && !f.guard, 1), Bit(!isGlobal, 1);
    SmallPageBitsSplit(f, isGlobal);
    SmallPageFields(low, mid, ap, ro, ng, frame);
    SmallPageMemory(low, Bit(f.dev, 1), Bit(!f.dev && !f.noCache, 1), ap, ro, ng, frame);
    assert DecodeAccess(ro == 1, ap, MemoryOf(f)) == Requested(f);
  }

  lemma SmallPageBitsSplit(f: Flags, isGlobal: bool)
    ensures SmallPageBits(f, isGlobal)
         == Bit(f.valid && !f.x, 1) + Bit(f.valid, 2) + 4 * (Bit(f.dev, 1) + Bit(!f.dev && !f.noCache, 2))
            + 0x10 * SmallPageAp(f) + 0x200 * Bit(!f.w && !f.guard, 1) + 0x800 * Bit(!isGlobal, 1)
    ensures SmallPageBits(f, isGlobal) < 0x1000
  {
  }

  /** Reading back a section descriptor gives the 1 MiB frame. Its data access is the requested one
      except for a user mapping that is read-only and not a guard: that one is encoded with
      AP[2:0] = 0b101, which grants unprivileged code nothing. */
  lemma SectionDecodes(frame: nat, f: Flags, isGlobal: bool)
    requires frame < 0x1000
    ensures frame * 0x10_0000 + SectionBits(f, isGlobal) < ADDRESS_SPACE
    ensures DecodeL1(frame * 0x10_0000 + SectionBits(f, isGlobal))
         == L1Section(SectionMapping(frame, SectionAccess(f)), isGlobal)
    ensures SectionAccess(f) == Requested(f) <==> !(f.u && !f.w && !f.guard)
  {
    var ap := SectionAp(f);
    var low := Bit(f.dev, 1) + Bit(!f.dev && !f.noCache, 2);
    var ro, ng := Bit(!f.w && !f.guard, 1), Bit(!isGlobal, 1);
    assert SectionBits(f, isGlobal) == 2 + 4 * low + 0x1E0 + 0x400 * ap + 0x8000 * ro + 0x2_0000 * ng;
    SectionFields(low, ap, ro, ng, frame);
    SectionMemory(Bit(f.dev, 1), Bit(!f.dev && !f.noCache, 1), ap, ro, ng, frame);
    assert DecodeAccess(ro == 1, ap, MemoryOf(f)) == SectionAccess(f);
  }

  /** The access a section really gets, in terms of the request. */
  function SectionAccess(f: Flags): Access {
    var user := f.u && f.w;
    Access(!f.guard, !f.guard && f.w, !f.guard && user, !f.guard && user, MemoryOf(f))
  }

  /** The input on which a section's access differs from the one asked for. */
  lemma UserReadOnlySectionIsNotReadable()
    ensures var f := Flags(true, false, false, true, true, false, false, false);
            Requested(f).userRead && !SectionAccess(f).userRead
  {
  }
}
