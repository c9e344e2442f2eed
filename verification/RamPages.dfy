/** Runs of RAM pages: their addresses, clearing them, and the address arithmetic of the loader. */
module RamPages {
  import opened Arith
  import opened Layout
  import opened PageTables
  import opened Tracker
  import opened Wrappers

  /** Pages `from <= p < to`. */
  function PageSpan(from: int, to: int): set<int> {
    set p | from <= p < to && Within(p, from, to)
  }

  /** Adjacent spans added to a set one after the other. */
  lemma SpanJoin(owned: set<int>, from: int, mid: int, to: int)
    requires from <= mid <= to
    ensures owned + PageSpan(mid, to) + PageSpan(from, mid) == owned + PageSpan(from, to)
  {
  }

  predicate Within(p: int, from: int, to: int) {
    from <= p < to
  }

  ghost predicate ZeroPage(m: Ram, p: PageIndex) {
    forall j :: 0 <= j < PAGE_WORDS ==> Page(m, p)[j] == 0
  }

  ghost predicate ZeroPages(m: Ram, from: int, to: int) {
    forall p: PageIndex {:trigger Page(m, p)} :: from <= p < to ==> ZeroPage(m, p)
  }

  /** A zeroed run below another one that was kept makes a longer run. */
  lemma ZeroPagesJoin(m: Ram, m': Ram, from: int, mid: int, to: int)
    requires from <= mid <= to && 0 <= from && to <= RAM_PAGES
    requires ZeroPages(m, mid, to) && ZeroPages(m', from, mid)
    requires forall p: PageIndex :: mid <= p < to ==> Page(m', p) == Page(m, p)
    ensures ZeroPages(m', from, to)
  {
    forall p: PageIndex | from <= p < to
      ensures ZeroPage(m', p)
    {
      if p >= mid {
        assert Page(m', p) == Page(m, p);
      } else {
        assert Page(m', p) == Page(m', p);
      }
    }
  }

  function AddrOf(p: PageIndex): Word {
    ENCRYPTED_DRAM_BASE + p * PAGE_SIZE
  }

  /** Words `from <= w < to` cleared. */
  function Cleared(m: Ram, from: nat, to: nat): (r: Ram)
    requires from <= to <= RAM_WORDS
    ensures forall w :: 0 <= w < RAM_WORDS ==> r[w] == if from <= w < to then 0 else m[w]
  {
    m[..from] + seq(to - from, _ => 0) + m[to..]
  }

  function WordIndex(addr: Word): nat
    requires InEncrypted(addr)
  {
    (addr - ENCRYPTED_DRAM_BASE) / 4
  }

  /** `n` words at `from` copied to `to`. */
  function Copied(m: Ram, to: nat, from: nat, n: nat): (r: Ram)
    requires from + n <= RAM_WORDS && to + n <= RAM_WORDS
    ensures forall w :: 0 <= w < RAM_WORDS ==> r[w] == if to <= w < to + n then m[w - to + from] else m[w]
  {
    m[..to] + m[from..from + n] + m[to + n..]
  }

  lemma CopiedIs(m: Ram, m': Ram, to: nat, from: nat, n: nat)
    requires from + n <= RAM_WORDS && to + n <= RAM_WORDS
    requires forall w :: to <= w < to + n ==> m'[w] == m[w - to + from]
    requires forall w :: 0 <= w < RAM_WORDS && !(to <= w < to + n) ==> m'[w] == m[w]
    ensures m' == Copied(m, to, from, n)
  {
    var c := Copied(m, to, from, n);
    assert forall w :: 0 <= w < RAM_WORDS ==> m'[w] == c[w];
  }

  /** A write confined to words `from <= w < to` keeps every page outside them. */
  lemma OutsidePages(m: Ram, m': Ram, from: nat, to: nat, p: PageIndex)
    requires forall w :: 0 <= w < RAM_WORDS && !(from <= w < to) ==> m'[w] == m[w]
    requires (p + 1) * PAGE_WORDS <= from || to <= p * PAGE_WORDS
    ensures Page(m', p) == Page(m, p)
  {
  }

  lemma ClearedPage(m: Ram, p: PageIndex)
    ensures ZeroPage(Cleared(m, p * PAGE_WORDS, (p + 1) * PAGE_WORDS), p)
    ensures forall q: PageIndex :: q != p ==> Page(Cleared(m, p * PAGE_WORDS, (p + 1) * PAGE_WORDS), q) == Page(m, q)
  {
    var m' := Cleared(m, p * PAGE_WORDS, (p + 1) * PAGE_WORDS);
    forall q: PageIndex | q != p
      ensures Page(m', q) == Page(m, q)
    {
      OutsidePages(m, m', p * PAGE_WORDS, (p + 1) * PAGE_WORDS, q);
    }
  }

  /** The top pointer is the address of the top page. */
  lemma TopAddress(rptPages: nat, extraPages: nat)
    ensures var top := RAM_PAGES - rptPages - extraPages;
            var addr := ENCRYPTED_DRAM_END - rptPages * PAGE_SIZE - extraPages * PAGE_SIZE;
            && addr == ENCRYPTED_DRAM_BASE + top * PAGE_SIZE
            && (addr - ENCRYPTED_DRAM_BASE) / 4 == top * PAGE_WORDS
            && (addr + PAGE_SIZE - ENCRYPTED_DRAM_BASE) / 4 == (top + 1) * PAGE_WORDS
            && addr % 4 == 0
  {
    var top := RAM_PAGES - rptPages - extraPages;
    Euclid(top * PAGE_SIZE, 4, top * PAGE_WORDS, 0);
    Euclid((top + 1) * PAGE_SIZE, 4, (top + 1) * PAGE_WORDS, 0);
    Euclid(ENCRYPTED_DRAM_BASE + top * PAGE_SIZE, 4, ENCRYPTED_DRAM_BASE / 4 + top * PAGE_WORDS, 0);
  }

  lemma OneOfFourAligned(p: int)
    ensures exists q :: p <= q < p + 4 && q % 4 == 0
  {
    var q := p + (4 - p % 4) % 4;
    assert q % 4 == 0;
  }

  /** The tracker entry of a page the allocator returned is its page number. */
  lemma OwnEntry(regions: seq<Range>, p: PageIndex)
    ensures EntryOf(regions, AddrOf(p)) == Some(p)
  {
    Euclid(p * PAGE_SIZE, PAGE_SIZE, p, 0);
  }

  lemma Aligned(p: PageIndex)
    ensures AddrOf(p) % 0x4000 == 0 <==> p % 4 == 0
  {
    Euclid(AddrOf(p), 0x4000, 0x1_0000 + p / 4, (p % 4) * PAGE_SIZE);
  }


  /** The byte write behind a tracker slice element. */
  lemma TrackerCell(m: Ram, base: nat, i: nat)
    requires base + i / PAGE_SIZE < RAM_PAGES
    ensures var addr := ENCRYPTED_DRAM_BASE + base * PAGE_SIZE + i;
            var w := (addr - ENCRYPTED_DRAM_BASE) / 4;
            && addr < ENCRYPTED_DRAM_END && w < RAM_WORDS && addr % 4 == i % 4
            && SetEntry(m, base, i) == m[w := SetByte(m[w], addr % 4, 1)]
  {
    var q, j := i / PAGE_SIZE, i % PAGE_SIZE / 4;
    var w := (base + q) * PAGE_WORDS + j;
    CellOf(i);
    Euclid(base * PAGE_SIZE + i, 4, w, i % 4);
    Euclid(ENCRYPTED_DRAM_BASE + base * PAGE_SIZE + i, 4, ENCRYPTED_DRAM_BASE / 4 + w, i % 4);
    assert Page(m, base + q)[j] == m[w];
  }

  /** Address of first-level entry `i` as a word of one of the table's four pages. */
  lemma EntryAddress(l1: PageIndex, i: nat)
    requires l1 + 4 <= RAM_PAGES && i < 4096
    ensures AddrOf(l1) + 4 * i == AddrOf(l1 + i / PAGE_WORDS) + 4 * (i % PAGE_WORDS)
  {
  }
}
