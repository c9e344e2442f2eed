/** The page ownership tracker: one byte per page, packed into the words of the pages it lives in. */
module Tracker {
  import opened Arith
  import opened Layout
  import opened PageTables
  import opened Wrappers

  // ---- bytes of a little-endian word ----

  function Weight(k: nat): nat
    requires k < 4
  {
    if k == 0 then 1 else if k == 1 then 0x100 else if k == 2 then 0x1_0000 else 0x100_0000
  }

  function ByteOf(w: Word, k: nat): (b: int)
    requires k < 4
    ensures 0 <= b < 0x100
  {
    (w / Weight(k)) % 0x100
  }

  function WordOf(b0: int, b1: int, b2: int, b3: int): (w: Word)
    requires 0 <= b0 < 0x100 && 0 <= b1 < 0x100 && 0 <= b2 < 0x100 && 0 <= b3 < 0x100
  {
    b0 + 0x100 * b1 + 0x1_0000 * b2 + 0x100_0000 * b3
  }

  function SetByte(w: Word, k: nat, v: int): Word
    requires k < 4 && 0 <= v < 0x100
  {
    WordOf(if k == 0 then v else ByteOf(w, 0), if k == 1 then v else ByteOf(w, 1),
           if k == 2 then v else ByteOf(w, 2), if k == 3 then v else ByteOf(w, 3))
  }

  lemma BytesOfWord(b0: int, b1: int, b2: int, b3: int)
    requires 0 <= b0 < 0x100 && 0 <= b1 < 0x100 && 0 <= b2 < 0x100 && 0 <= b3 < 0x100
    ensures var w := WordOf(b0, b1, b2, b3);
            ByteOf(w, 0) == b0 && ByteOf(w, 1) == b1 && ByteOf(w, 2) == b2 && ByteOf(w, 3) == b3
  {
    var w := WordOf(b0, b1, b2, b3);
    var u2 := b2 + 0x100 * b3;
    var u1 := b1 + 0x100 * u2;
    Euclid(w, 1, w, 0);
    Euclid(w, 0x100, u1, b0);
    Euclid(w, 0x1_0000, u2, b0 + 0x100 * b1);
    Euclid(w, 0x100_0000, b3, b0 + 0x100 * b1 + 0x1_0000 * b2);
    Euclid(u1, 0x100, u2, b1);
    Euclid(u2, 0x100, b3, b2);
    Euclid(b3, 0x100, 0, b3);
  }

  /** Setting one byte of a word leaves the other three. */
  lemma SetByteBytes(w: Word, k: nat, v: int)
    requires k < 4 && 0 <= v < 0x100
    ensures forall i: nat :: i < 4 ==> ByteOf(SetByte(w, k, v), i) == if i == k then v else ByteOf(w, i)
  {
    BytesOfWord(if k == 0 then v else ByteOf(w, 0), if k == 1 then v else ByteOf(w, 1),
                if k == 2 then v else ByteOf(w, 2), if k == 3 then v else ByteOf(w, 3));
  }

  // ---- the tracker ----

  /** Entry `i` of a tracker that starts at page `base`. */
  function Entry(m: Ram, base: nat, i: nat): int
    requires base + i / PAGE_SIZE < RAM_PAGES
  {
    ByteOf(Page(m, base + i / PAGE_SIZE)[i % PAGE_SIZE / 4], i % 4)
  }

  /** The tracker, `len` bytes in `n` pages, holds 1 for exactly the owned entries and 0 for all others. */
  ghost predicate Tracks(m: Ram, base: nat, n: nat, len: nat, owned: set<int>)
    requires base + n <= RAM_PAGES && len <= n * PAGE_SIZE
  {
    && (forall i {:trigger Entry(m, base, i)} :: 0 <= i < len ==> Entry(m, base, i) == if i in owned then 1 else 0)
    && (forall i :: i in owned ==> 0 <= i < len)
  }

  function SetEntry(m: Ram, base: nat, i: nat): Ram
    requires base + i / PAGE_SIZE < RAM_PAGES
  {
    var p := base + i / PAGE_SIZE;
    Store(m, p, i % PAGE_SIZE / 4, SetByte(Page(m, p)[i % PAGE_SIZE / 4], i % 4, 1))
  }

  lemma SetEntryEntry(m: Ram, base: nat, i: nat, k: nat)
    requires base + i / PAGE_SIZE < RAM_PAGES && base + k / PAGE_SIZE < RAM_PAGES
    ensures Entry(SetEntry(m, base, i), base, k) == if k == i then 1 else Entry(m, base, k)
  {
    var p, j := base + i / PAGE_SIZE, i % PAGE_SIZE / 4;
    var w := Page(m, p)[j];
    StorePages(m, p, j, SetByte(w, i % 4, 1));
    SetByteBytes(w, i % 4, 1);
    SameCell(i, k);
  }

  lemma SameCell(i: nat, k: nat)
    ensures i / PAGE_SIZE == k / PAGE_SIZE && i % PAGE_SIZE / 4 == k % PAGE_SIZE / 4 && i % 4 == k % 4 <==> i == k
  {
    CellOf(i);
    CellOf(k);
  }

  lemma CellOf(i: nat)
    ensures i == PAGE_SIZE * (i / PAGE_SIZE) + 4 * (i % PAGE_SIZE / 4) + i % 4
  {
    var low := i % PAGE_SIZE;
    Euclid(i, 4, 1024 * (i / PAGE_SIZE) + low / 4, low % 4);
  }

  /** Marking an entry adds it to the owned set and touches no page outside the tracker. */
  lemma SetEntryTracks(m: Ram, base: nat, n: nat, len: nat, owned: set<int>, i: nat)
    requires base + n <= RAM_PAGES && len <= n * PAGE_SIZE && Tracks(m, base, n, len, owned) && i < len
    ensures Tracks(SetEntry(m, base, i), base, n, len, owned + {i})
    ensures forall p: PageIndex :: !(base <= p < base + n) ==> Page(SetEntry(m, base, i), p) == Page(m, p)
  {
    var p, j := base + i / PAGE_SIZE, i % PAGE_SIZE / 4;
    StorePages(m, p, j, SetByte(Page(m, p)[j], i % 4, 1));
    forall k | 0 <= k < len
      ensures Entry(SetEntry(m, base, i), base, k) == if k in owned + {i} then 1 else 0
    {
      SetEntryEntry(m, base, i, k);
    }
  }

  lemma TracksFrame(m: Ram, m': Ram, base: nat, n: nat, len: nat, owned: set<int>)
    requires base + n <= RAM_PAGES && len <= n * PAGE_SIZE && Tracks(m, base, n, len, owned)
    requires forall p: PageIndex :: base <= p < base + n ==> Page(m', p) == Page(m, p)
    ensures Tracks(m', base, n, len, owned)
  {
    forall k | 0 <= k < len
      ensures Entry(m', base, k) == Entry(m, base, k)
    {
      assert Page(m', base + k / PAGE_SIZE) == Page(m, base + k / PAGE_SIZE);
    }
  }

  // ---- which entry a physical address has ----

  /** A half-open physical address range. */
  datatype Range = Range(start: nat, end: nat)

  predicate WholePages(r: Range) {
    r.start % PAGE_SIZE == 0 && r.end % PAGE_SIZE == 0 && r.start <= r.end <= ADDRESS_SPACE
  }

  function RegionPages(regions: seq<Range>): (n: nat) {
    if |regions| == 0 then 0
    else
      var r := regions[|regions| - 1];
      RegionPages(regions[..|regions| - 1]) + if r.start <= r.end then (r.end - r.start) / PAGE_SIZE else 0
  }

  /** First region from `k` on that contains `addr`. */
  function FindRegion(regions: seq<Range>, addr: nat, k: nat): (r: nat)
    requires k <= |regions|
    ensures k <= r <= |regions|
    ensures r < |regions| ==> regions[r].start <= addr < regions[r].end
    ensures forall i :: k <= i < r ==> !(regions[i].start <= addr < regions[i].end)
    decreases |regions| - k
  {
    if k == |regions| then k
    else if regions[k].start <= addr < regions[k].end then k
    else FindRegion(regions, addr, k + 1)
  }

  /** Addresses in the plaintext view of DRAM are tracked under the encrypted view. */
  function DramView(phys: Word): Word {
    if InPlaintext(phys) then ToEncrypted(phys) else phys
  }

  /** The tracker entry of the page that contains a physical address; none outside defined memory. */
  function EntryOf(regions: seq<Range>, phys: Word): Option<nat> {
    var addr := DramView(phys);
    if InEncrypted(addr) then Some((addr - ENCRYPTED_DRAM_BASE) / PAGE_SIZE)
    else
      var r := FindRegion(regions, addr, 0);
      if r == |regions| then None
      else Some(RAM_PAGES + RegionPages(regions[..r]) + (addr - regions[r].start) / PAGE_SIZE)
  }

  lemma {:induction false} RegionPagesMonotone(regions: seq<Range>, i: nat, k: nat)
    requires i <= k <= |regions|
    ensures RegionPages(regions[..i]) <= RegionPages(regions[..k])
  {
    if i < k {
      RegionPagesMonotone(regions, i, k - 1);
      assert regions[..k][..k - 1] == regions[..k - 1];
    }
  }

  lemma RegionBound(regions: seq<Range>, r: nat, addr: nat)
    requires r < |regions| && WholePages(regions[r]) && regions[r].start <= addr < regions[r].end
    ensures RegionPages(regions[..r]) + (addr - regions[r].start) / PAGE_SIZE < RegionPages(regions[..r + 1])
    ensures RegionPages(regions[..r + 1]) <= RegionPages(regions)
  {
    assert regions[..r + 1][..r] == regions[..r];
    RegionPagesMonotone(regions, r + 1, |regions|);
    assert regions[..|regions|] == regions;
    var len, off := regions[r].end - regions[r].start, addr - regions[r].start;
    Euclid(len, PAGE_SIZE, regions[r].end / PAGE_SIZE - regions[r].start / PAGE_SIZE, 0);
  }

  /** The frame of an address, both views of a DRAM page counting as the same frame. */
  function FrameOf(phys: Word): nat {
    DramView(phys) / PAGE_SIZE
  }

  /** With whole-page regions the entry of any defined address is in bounds. */
  lemma EntryInBounds(regions: seq<Range>, a: Word)
    requires forall r :: r in regions ==> WholePages(r)
    requires EntryOf(regions, a).Some?
    ensures EntryOf(regions, a).value < RAM_PAGES + RegionPages(regions)
  {
    var x := DramView(a);
    if InEncrypted(x) {
      EncryptedFrame(x);
    } else {
      RegionBound(regions, FindRegion(regions, x, 0), x);
    }
  }

  /** Two defined addresses share an entry exactly when they lie in the same page (of either view
      of DRAM). */
  lemma EntryOfInjective(regions: seq<Range>, a: Word, b: Word)
    requires forall r :: r in regions ==> WholePages(r)
    requires EntryOf(regions, a).Some? && EntryOf(regions, b).Some?
    ensures EntryOf(regions, a) == EntryOf(regions, b) <==> FrameOf(a) == FrameOf(b)
  {
    var x, y := DramView(a), DramView(b);
    EncryptedFrame(x);
    EncryptedFrame(y);
    if !InEncrypted(x) && !InEncrypted(y) {
      OtherEntriesInjective(regions, x, y, FindRegion(regions, x, 0), FindRegion(regions, y, 0));
    }
  }

  lemma OtherEntriesInjective(regions: seq<Range>, x: nat, y: nat, r: nat, s: nat)
    requires forall g :: g in regions ==> WholePages(g)
    requires r == FindRegion(regions, x, 0) < |regions| && s == FindRegion(regions, y, 0) < |regions|
    ensures RegionPages(regions[..r]) + (x - regions[r].start) / PAGE_SIZE
         == RegionPages(regions[..s]) + (y - regions[s].start) / PAGE_SIZE
       <==> x / PAGE_SIZE == y / PAGE_SIZE
  {
    assert WholePages(regions[r]) && WholePages(regions[s]);
    if r == s {
      PageOffset(regions[r].start, x);
      PageOffset(regions[r].start, y);
    } else {
      if x / PAGE_SIZE == y / PAGE_SIZE {
        SamePageSameRange(regions[r], x, y);
        SamePageSameRange(regions[s], x, y);
      }
      RegionBound(regions, r, x);
      RegionBound(regions, s, y);
      if r < s {
        RegionPagesMonotone(regions, r + 1, s);
      } else {
        RegionPagesMonotone(regions, s + 1, r);
      }
    }
  }

  lemma EncryptedFrame(x: Word)
    ensures InEncrypted(x) <==> 0x4_0000 <= x / PAGE_SIZE < 0x4_8000
    ensures InEncrypted(x) ==> (x - ENCRYPTED_DRAM_BASE) / PAGE_SIZE == x / PAGE_SIZE - 0x4_0000
  {
    if InEncrypted(x) {
      Euclid(x - ENCRYPTED_DRAM_BASE, PAGE_SIZE, x / PAGE_SIZE - 0x4_0000, x % PAGE_SIZE);
    }
  }

  lemma PageOffset(start: nat, x: nat)
    requires start % PAGE_SIZE == 0 && start <= x
    ensures (x - start) / PAGE_SIZE == x / PAGE_SIZE - start / PAGE_SIZE
  {
    Euclid(x - start, PAGE_SIZE, x / PAGE_SIZE - start / PAGE_SIZE, x % PAGE_SIZE);
  }

  lemma SamePageSameRange(r: Range, x: nat, y: nat)
    requires WholePages(r) && x / PAGE_SIZE == y / PAGE_SIZE
    ensures r.start <= x < r.end <==> r.start <= y < r.end
  {
  }
}
