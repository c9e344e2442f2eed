/** The two-level translation tables as they lie in RAM, and the abstract map they stand for. */
module PageTables {
  import opened Arith
  import opened Layout
  import opened Armv7

  // ---- RAM as pages of words ----

  /** The contents of DRAM, one element per word. */
  type Ram = m: seq<Word> | |m| == RAM_WORDS witness seq(RAM_WORDS, _ => 0)

  type PageIndex = p: int | 0 <= p < RAM_PAGES

  function Page(m: Ram, p: PageIndex): (words: seq<Word>)
    ensures |words| == PAGE_WORDS
  {
    m[p * PAGE_WORDS..(p + 1) * PAGE_WORDS]
  }

  function Store(m: Ram, p: PageIndex, j: nat, v: Word): Ram
    requires j < PAGE_WORDS
  {
    m[p * PAGE_WORDS + j := v]
  }

  /** A store changes its own word of its own page and no other page. */
  lemma StorePages(m: Ram, p: PageIndex, j: nat, v: Word)
    requires j < PAGE_WORDS
    ensures Page(Store(m, p, j, v), p) == Page(m, p)[j := v]
    ensures forall q: PageIndex :: q != p ==> Page(Store(m, p, j, v), q) == Page(m, q)
  {
    var m' := Store(m, p, j, v);
    assert Page(m', p) == Page(m, p)[j := v];
    forall q: PageIndex | q != p
      ensures Page(m', q) == Page(m, q)
    {
      assert forall k :: q * PAGE_WORDS <= k < (q + 1) * PAGE_WORDS ==> m'[k] == m[k];
    }
  }

  /** The word at a DRAM address of the encrypted view. */
  function Load(m: Ram, addr: Word): Word
    requires InEncrypted(addr)
  {
    m[(addr - ENCRYPTED_DRAM_BASE) / 4]
  }

  lemma LoadFromPage(m: Ram, p: PageIndex, j: nat)
    requires j < PAGE_WORDS
    ensures var addr := ENCRYPTED_DRAM_BASE + p * PAGE_SIZE + 4 * j;
            InEncrypted(addr) && Load(m, addr) == Page(m, p)[j]
  {
    Euclid(p * PAGE_SIZE + 4 * j, 4, p * PAGE_WORDS + j, 0);
  }

  // ---- the hardware walk ----

  /** `Unmodelled` stands for supersections, large pages and tables outside DRAM. */
  datatype Translation =
    | Fault
    | ToPage(phys: nat, access: Access, exec: bool, global: bool)
    | ToSection(phys: nat, access: Access, global: bool)
    | Unmodelled

  /** Translation of one virtual address, reading the first- and second-level tables in RAM. */
  function Walk(m: Ram, ttbr: Word, va: Word): Translation {
    var first := ttbr + 4 * (va / 0x10_0000);
    if first < ADDRESS_SPACE && InEncrypted(first) then WalkFrom(m, DecodeL1(Load(m, first)), va) else Unmodelled
  }

  function WalkFrom(m: Ram, d: L1Descriptor, va: Word): Translation {
    match d
    case L1Invalid => Fault
    case L1Supersection => Unmodelled
    case L1Section(s, global) => ToSection(s.frame * 0x10_0000 + va % 0x10_0000, s.access, global)
    case L1PageTable(base) =>
      var second := base + 4 * ((va / 0x1000) % 0x100);
      if second < ADDRESS_SPACE && InEncrypted(second) then Leaf(DecodeL2(Load(m, second)), va) else Unmodelled
  }

  function Leaf(d: L2Descriptor, va: Word): Translation {
    match d
    case L2Invalid => Fault
    case L2LargePage => Unmodelled
    case L2SmallPage(page, global) => ToPage(page.frame * 0x1000 + va % 0x1000, page.access, page.exec, global)
  }

  // ---- the abstract map ----

  /** Small pages by virtual page number (20 bits). */
  type PageMap = map<int, PageMapping>
  /** Sections by virtual section number (12 bits). */
  type SectionMap = map<int, SectionMapping>

  /** `now` maps every page of `was` as `was` does. */
  ghost predicate Extends(now: PageMap, was: PageMap) {
    forall v :: v in was ==> v in now && now[v] == was[v]
  }

  /** The megabyte belongs to the kernel's half of the address space, which is the same in all processes. */
  predicate IsGlobal(vpn1: int) {
    vpn1 >= L1_USER_PAGE_TABLE_ENTRIES
  }

  function Lookup(pages: PageMap, sections: SectionMap, va: Word): Translation {
    if va / 0x1000 in pages then
      var page := pages[va / 0x1000];
      ToPage(page.frame * 0x1000 + va % 0x1000, page.access, page.exec, IsGlobal(va / 0x10_0000))
    else if va / 0x10_0000 in sections then
      var s := sections[va / 0x10_0000];
      ToSection(s.frame * 0x10_0000 + va % 0x10_0000, s.access, IsGlobal(va / 0x10_0000))
    else Fault
  }

  // ---- representation invariant ----

  /** The first-level table is four pages; entry `i` of it. */
  function L1Entry(m: Ram, l1: PageIndex, i: nat): Word
    requires l1 + 4 <= RAM_PAGES && i < 4096
  {
    Page(m, l1 + i / PAGE_WORDS)[i % PAGE_WORDS]
  }

  /** What first-level entry `i` must decode to, where `l2` gives the page that holds the four
      second-level tables of each aligned group of four entries. */
  function L1Spec(l2: map<int, PageIndex>, sections: SectionMap, i: nat): L1Descriptor {
    if i in sections then L1Section(sections[i], IsGlobal(i))
    else if i / 4 in l2 then L1PageTable(ENCRYPTED_DRAM_BASE + l2[i / 4] * PAGE_SIZE + (i % 4) * 0x400)
    else L1Invalid
  }

  function L2Spec(pages: PageMap, vpn: int): L2Descriptor {
    if vpn in pages then L2SmallPage(pages[vpn], IsGlobal(vpn / 0x100)) else L2Invalid
  }

  ghost predicate L1Holds(m: Ram, l1: PageIndex, l2: map<int, PageIndex>, sections: SectionMap)
    requires l1 + 4 <= RAM_PAGES
  {
    forall i {:trigger L1Entry(m, l1, i)} :: 0 <= i < 4096 ==> DecodeL1(L1Entry(m, l1, i)) == L1Spec(l2, sections, i)
  }

  /** The page of a group's tables holds the group's 1024 consecutive virtual pages. */
  ghost predicate GroupHolds(words: seq<Word>, g: int, pages: PageMap)
    requires |words| == PAGE_WORDS
  {
    forall j :: 0 <= j < PAGE_WORDS ==> DecodeL2(words[j]) == L2Spec(pages, g * PAGE_WORDS + j)
  }

  /** Table pages are pairwise distinct: no second-level page lies in the first-level table and no
      two groups share one. */
  ghost predicate Apart(l1: PageIndex, l2: map<int, PageIndex>) {
    && l1 % 4 == 0 && l1 + 4 <= RAM_PAGES
    && (forall g :: g in l2 ==> 0 <= g < 1024 && l2[g] < l1)
    && (forall g, h :: g in l2 && h in l2 && g != h ==> l2[g] != l2[h])
  }

  ghost predicate L2Holds(m: Ram, l2: map<int, PageIndex>, pages: PageMap) {
    forall g :: g in l2 ==> GroupHolds(Page(m, l2[g]), g, pages)
  }

  /** Every mapped page lies in a group that has tables, every section in one that has none. */
  ghost predicate Domains(l2: map<int, PageIndex>, pages: PageMap, sections: SectionMap) {
    && (forall v :: v in pages ==> v / PAGE_WORDS in l2)
    && (forall i :: i in sections ==> 0 <= i < 4096 && i / 4 !in l2)
  }

  ghost predicate Tables(m: Ram, l1: PageIndex, l2: map<int, PageIndex>, pages: PageMap, sections: SectionMap) {
    && Apart(l1, l2)
    && L1Holds(m, l1, l2, sections)
    && L2Holds(m, l2, pages)
    && Domains(l2, pages, sections)
  }

  /** How many groups of a set have no tables yet. */
  ghost function Missing(gs: set<int>, l2: map<int, PageIndex>): nat {
    |gs - l2.Keys|
  }

  /** Some page of a group is mapped. */
  ghost predicate HasPage(pages: PageMap, g: int) {
    exists v :: v in pages && v / PAGE_WORDS == g
  }

  /** No group has tables without reason. */
  ghost predicate Tight(l2: map<int, PageIndex>, pages: PageMap) {
    forall g :: g in l2 ==> HasPage(pages, g)
  }

  /** Mapping one more page, with tables for its group if it had none. */
  lemma StaysTight(l2: map<int, PageIndex>, pages: PageMap, l2': map<int, PageIndex>, pages': PageMap, v: int)
    requires Tight(l2, pages) && Extends(pages', pages) && v in pages'
    requires forall g :: g in l2' ==> g in l2 || g == v / PAGE_WORDS
    ensures Tight(l2', pages')
  {
    forall g | g in l2'
      ensures HasPage(pages', g)
    {
      if g in l2 {
        var u :| u in pages && u / PAGE_WORDS == g;
        assert u in pages';
      }
    }
  }

  /** Between two moments tables stayed where they were, and new ones went below the earlier top. */
  ghost predicate Grown(was: map<int, PageIndex>, top: int, now: map<int, PageIndex>, newTop: int) {
    && (forall g :: g in was ==> g in now && now[g] == was[g])
    && (forall g :: g in now && g !in was ==> newTop <= now[g] < top)
    && newTop <= top
  }

  lemma GrownThen(a: map<int, PageIndex>, ta: int, b: map<int, PageIndex>, tb: int, c: map<int, PageIndex>, tc: int)
    requires Grown(a, ta, b, tb) && Grown(b, tb, c, tc)
    ensures Grown(a, ta, c, tc)
  {
  }

  /** No second-level table lies in a run of pages. */
  ghost predicate NoTables(l2: map<int, PageIndex>, from: int, n: nat) {
    forall g :: g in l2 ==> !(from <= l2[g] < from + n)
  }

  lemma StillNoTables(was: map<int, PageIndex>, top: int, now: map<int, PageIndex>, newTop: int, from: int, n: nat)
    requires Grown(was, top, now, newTop) && NoTables(was, from, n) && top <= from
    ensures NoTables(now, from, n)
  {
  }

  ghost predicate IsTablePage(l1: PageIndex, l2: map<int, PageIndex>, p: PageIndex) {
    l1 <= p < l1 + 4 || exists g :: g in l2 && l2[g] == p
  }

  // ---- the walk computes the abstract map ----

  /** Walking the tables in RAM is looking up the abstract map, at every virtual address. */
  lemma WalkIsLookup(m: Ram, l1: PageIndex, l2: map<int, PageIndex>, pages: PageMap, sections: SectionMap, va: Word)
    requires Tables(m, l1, l2, pages, sections)
    ensures Walk(m, ENCRYPTED_DRAM_BASE + l1 * PAGE_SIZE, va) == Lookup(pages, sections, va)
  {
    var i := va / 0x10_0000;
    IndexSplit(va);
    FirstLoad(m, l1, i);
    assert DecodeL1(L1Entry(m, l1, i)) == L1Spec(l2, sections, i);
    WalkFromIsLookup(m, l2, pages, sections, va);
  }

  lemma WalkFromIsLookup(m: Ram, l2: map<int, PageIndex>, pages: PageMap, sections: SectionMap, va: Word)
    requires L2Holds(m, l2, pages) && Domains(l2, pages, sections)
    ensures WalkFrom(m, L1Spec(l2, sections, va / 0x10_0000), va) == Lookup(pages, sections, va)
  {
    hide Load, DecodeL2, GroupHolds;
    var i, vpn := va / 0x10_0000, va / 0x1000;
    SameGroup(va);
    if i in sections {
      assert i / 4 !in l2;
      assert vpn !in pages;
    } else if i / 4 in l2 {
      LeafLoad(m, l2[i / 4], pages, va);
    } else {
      assert vpn !in pages;
    }
  }

  /** The loader's own indices: group, page of the group, and the second-level index. */
  lemma VirtualIndices(virt: Word)
    ensures var vpn1, vpn2 := virt / 0x10_0000, virt % 0x10_0000 / 0x1000;
            && vpn1 < 4096 && vpn2 < 0x100
            && virt / 0x1000 == vpn1 / 4 * PAGE_WORDS + (vpn1 % 4) * 0x100 + vpn2
  {
    var vpn1, vpn2 := virt / 0x10_0000, virt % 0x10_0000 / 0x1000;
    Euclid(virt, 0x1000, 0x100 * vpn1 + vpn2, virt % 0x10_0000 % 0x1000);
  }

  lemma SameGroup(va: Word)
    ensures va / 0x1000 / PAGE_WORDS == va / 0x10_0000 / 4
  {
    IndexSplit(va);
  }

  /** The second level of the walk, in the page of tables of the address's group. */
  lemma LeafLoad(m: Ram, p: PageIndex, pages: PageMap, va: Word)
    requires GroupHolds(Page(m, p), va / 0x10_0000 / 4, pages)
    ensures WalkFrom(m, L1PageTable(ENCRYPTED_DRAM_BASE + p * PAGE_SIZE + (va / 0x10_0000 % 4) * 0x400), va)
         == Leaf(L2Spec(pages, va / 0x1000), va)
  {
    var i, vpn := va / 0x10_0000, va / 0x1000;
    IndexSplit(va);
    SecondLoad(m, p, i % 4, vpn % 0x100);
    assert DecodeL2(Page(m, p)[vpn % PAGE_WORDS]) == L2Spec(pages, i / 4 * PAGE_WORDS + vpn % PAGE_WORDS);
  }

  lemma FirstLoad(m: Ram, l1: PageIndex, i: nat)
    requires l1 + 4 <= RAM_PAGES && i < 4096
    ensures var addr := ENCRYPTED_DRAM_BASE + l1 * PAGE_SIZE + 4 * i;
            InEncrypted(addr) && Load(m, addr) == L1Entry(m, l1, i)
  {
    LoadFromPage(m, l1 + i / PAGE_WORDS, i % PAGE_WORDS);
  }

  lemma SecondLoad(m: Ram, p: PageIndex, quarter: nat, j: nat)
    requires quarter < 4 && j < 0x100
    ensures var addr := ENCRYPTED_DRAM_BASE + p * PAGE_SIZE + quarter * 0x400 + 4 * j;
            InEncrypted(addr) && Load(m, addr) == Page(m, p)[quarter * 0x100 + j]
  {
    LoadFromPage(m, p, quarter * 0x100 + j);
  }

  /** How a virtual address splits into the indices of the two levels. */
  lemma IndexSplit(va: Word)
    ensures var i, vpn := va / 0x10_0000, va / 0x1000;
            && i < 4096 && i / 4 == vpn / PAGE_WORDS
            && vpn % PAGE_WORDS == (i % 4) * 0x100 + vpn % 0x100
            && i == (i / PAGE_WORDS) * PAGE_WORDS + i % PAGE_WORDS
            && vpn == (i / 4) * PAGE_WORDS + vpn % PAGE_WORDS
  {
    var i, vpn := va / 0x10_0000, va / 0x1000;
    assert va == 0x10_0000 * i + va % 0x10_0000;
    Euclid(va, 0x1000, 0x100 * i + (va % 0x10_0000) / 0x1000, va % 0x1000) by {
      Euclid(va % 0x10_0000, 0x1000, (va % 0x10_0000) / 0x1000, (va % 0x10_0000) % 0x1000);
      Euclid(va, 0x1000, 0x100 * i + (va % 0x10_0000) / 0x1000, (va % 0x10_0000) % 0x1000);
    }
    var low := (va % 0x10_0000) / 0x1000;
    Euclid(vpn, 0x100, i, low);
    Euclid(vpn, PAGE_WORDS, i / 4, (i % 4) * 0x100 + low);
  }

  // ---- what each kind of write does to the tables ----

  /** Writes outside the table pages leave the tables as they are. */
  lemma TablesFrame(m: Ram, m': Ram, l1: PageIndex, l2: map<int, PageIndex>, pages: PageMap, sections: SectionMap)
    requires Tables(m, l1, l2, pages, sections)
    requires forall p: PageIndex :: IsTablePage(l1, l2, p) ==> Page(m', p) == Page(m, p)
    ensures Tables(m', l1, l2, pages, sections)
  {
    forall i | 0 <= i < 4096
      ensures DecodeL1(L1Entry(m', l1, i)) == L1Spec(l2, sections, i)
    {
      assert IsTablePage(l1, l2, l1 + i / PAGE_WORDS);
      assert L1Entry(m', l1, i) == L1Entry(m, l1, i);
    }
    forall g | g in l2
      ensures GroupHolds(Page(m', l2[g]), g, pages)
    {
      assert IsTablePage(l1, l2, l2[g]);
    }
  }

  function L1Store(m: Ram, l1: PageIndex, i: nat, d: Word): Ram
    requires l1 + 4 <= RAM_PAGES && i < 4096
  {
    Store(m, l1 + i / PAGE_WORDS, i % PAGE_WORDS, d)
  }

  /** Writing one first-level entry changes that entry only. */
  lemma L1StoreEntries(m: Ram, l1: PageIndex, i: nat, d: Word)
    requires l1 + 4 <= RAM_PAGES && i < 4096
    ensures L1Entry(L1Store(m, l1, i, d), l1, i) == d
    ensures forall k: nat :: k < 4096 && k != i ==> L1Entry(L1Store(m, l1, i, d), l1, k) == L1Entry(m, l1, k)
    ensures forall p: PageIndex :: !(l1 <= p < l1 + 4) ==> Page(L1Store(m, l1, i, d), p) == Page(m, p)
  {
    StorePages(m, l1 + i / PAGE_WORDS, i % PAGE_WORDS, d);
    forall k: nat | k < 4096 && k != i
      ensures L1Entry(L1Store(m, l1, i, d), l1, k) == L1Entry(m, l1, k)
    {
      assert k / PAGE_WORDS != i / PAGE_WORDS || k % PAGE_WORDS != i % PAGE_WORDS;
    }
  }

  /** Writing a second-level entry replaces the translation of its virtual page and no other. */
  lemma TablesSetPage(m: Ram, l1: PageIndex, l2: map<int, PageIndex>, pages: PageMap, sections: SectionMap,
                      g: int, j: nat, e: Word, pages': PageMap)
    requires Tables(m, l1, l2, pages, sections)
    requires g in l2 && j < PAGE_WORDS
    requires DecodeL2(e) == L2Spec(pages', g * PAGE_WORDS + j)
    requires forall v :: v != g * PAGE_WORDS + j ==> L2Spec(pages', v) == L2Spec(pages, v)
    ensures Tables(Store(m, l2[g], j, e), l1, l2, pages', sections)
  {
    var m' := Store(m, l2[g], j, e);
    StorePages(m, l2[g], j, e);
    forall i | 0 <= i < 4096
      ensures DecodeL1(L1Entry(m', l1, i)) == L1Spec(l2, sections, i)
    {
      assert L1Entry(m', l1, i) == L1Entry(m, l1, i);
    }
    forall h | h in l2
      ensures GroupHolds(Page(m', l2[h]), h, pages')
    {
      SetPageGroup(Page(m, l2[h]), Page(m', l2[h]), h, pages, g, j, e, pages');
    }
    DomainsSetPage(l2, pages, sections, g, j, pages');
  }

  lemma SetPageGroup(words: seq<Word>, words': seq<Word>, h: int, pages: PageMap, g: int, j: nat, e: Word,
                     pages': PageMap)
    requires |words| == |words'| == PAGE_WORDS && j < PAGE_WORDS
    requires words' == if h == g then words[j := e] else words
    requires GroupHolds(words, h, pages)
    requires DecodeL2(e) == L2Spec(pages', g * PAGE_WORDS + j)
    requires forall v :: v != g * PAGE_WORDS + j ==> L2Spec(pages', v) == L2Spec(pages, v)
    ensures GroupHolds(words', h, pages')
  {
    forall k | 0 <= k < PAGE_WORDS
      ensures DecodeL2(words'[k]) == L2Spec(pages', h * PAGE_WORDS + k)
    {
      if h != g || k != j {
        assert h * PAGE_WORDS + k != g * PAGE_WORDS + j;
        assert words'[k] == words[k];
      }
    }
  }

  lemma DomainsSetPage(l2: map<int, PageIndex>, pages: PageMap, sections: SectionMap, g: int, j: nat, pages': PageMap)
    requires Domains(l2, pages, sections)
    requires g in l2 && j < PAGE_WORDS
    requires forall v :: v != g * PAGE_WORDS + j ==> L2Spec(pages', v) == L2Spec(pages, v)
    ensures Domains(l2, pages', sections)
  {
    forall v | v in pages'
      ensures v / PAGE_WORDS in l2
    {
      if v == g * PAGE_WORDS + j {
        Euclid(v, PAGE_WORDS, g, j);
      } else {
        assert L2Spec(pages', v) == L2Spec(pages, v);
      }
    }
  }

  /** Writing a section descriptor into an invalid entry adds the section and nothing else. */
  lemma TablesAddSection(m: Ram, l1: PageIndex, l2: map<int, PageIndex>, pages: PageMap, sections: SectionMap,
                         i: nat, d: Word, s: SectionMapping)
    requires Tables(m, l1, l2, pages, sections)
    requires i < 4096 && i / 4 !in l2 && DecodeL1(d) == L1Section(s, IsGlobal(i))
    ensures Tables(L1Store(m, l1, i, d), l1, l2, pages, sections[i := s])
  {
    var m' := L1Store(m, l1, i, d);
    L1StoreEntries(m, l1, i, d);
    forall k | 0 <= k < 4096
      ensures DecodeL1(L1Entry(m', l1, k)) == L1Spec(l2, sections[i := s], k)
    {
      assert DecodeL1(L1Entry(m, l1, k)) == L1Spec(l2, sections, k);
    }
    forall g | g in l2
      ensures GroupHolds(Page(m', l2[g]), g, pages)
    {
      assert Page(m', l2[g]) == Page(m, l2[g]);
    }
  }

  // ---- giving a group its page of second-level tables ----

  /** The four first-level entries of group `g`, entries `0..n` of them written. */
  function GroupStore(m: Ram, l1: PageIndex, g: nat, p: PageIndex, n: nat): Ram
    requires l1 + 4 <= RAM_PAGES && g < 1024 && n <= 4
  {
    if n == 0 then m
    else L1Store(GroupStore(m, l1, g, p, n - 1), l1, 4 * g + (n - 1), SubTable(p, n - 1))
  }

  /** Descriptor of quarter `k` of the page of tables `p`. */
  function SubTable(p: PageIndex, k: nat): Word
    requires k < 4
  {
    PageTableDescriptor(ENCRYPTED_DRAM_BASE + p * PAGE_SIZE + k * 0x400)
  }

  lemma {:induction false} GroupStoreEntries(m: Ram, l1: PageIndex, g: nat, p: PageIndex, n: nat)
    requires l1 + 4 <= RAM_PAGES && g < 1024 && n <= 4
    ensures forall k: nat :: k < n ==> L1Entry(GroupStore(m, l1, g, p, n), l1, 4 * g + k) == SubTable(p, k)
    ensures forall i: nat :: i < 4096 && !(4 * g <= i < 4 * g + n) ==>
              L1Entry(GroupStore(m, l1, g, p, n), l1, i) == L1Entry(m, l1, i)
    ensures forall q: PageIndex :: !(l1 <= q < l1 + 4) ==> Page(GroupStore(m, l1, g, p, n), q) == Page(m, q)
  {
    if n > 0 {
      GroupStoreEntries(m, l1, g, p, n - 1);
      L1StoreEntries(GroupStore(m, l1, g, p, n - 1), l1, 4 * g + (n - 1), SubTable(p, n - 1));
    }
  }

  /** Backing a group that has neither tables nor sections with a zeroed page of its own changes no
      translation: the tables stand for the same map. */
  lemma TablesAddGroup(m: Ram, l1: PageIndex, l2: map<int, PageIndex>, pages: PageMap, sections: SectionMap,
                       g: nat, p: PageIndex)
    requires Tables(m, l1, l2, pages, sections)
    requires g < 1024 && g !in l2 && (forall i :: i in sections ==> i / 4 != g)
    requires p < l1 && (forall h :: h in l2 ==> l2[h] != p) && (forall j :: 0 <= j < PAGE_WORDS ==> Page(m, p)[j] == 0)
    ensures Tables(GroupStore(m, l1, g, p, 4), l1, l2[g := p], pages, sections)
  {
    var m' := GroupStore(m, l1, g, p, 4);
    var l2' := l2[g := p];
    AddGroupFirstLevel(m, l1, l2, sections, g, p);
    forall h | h in l2'
      ensures GroupHolds(Page(m', l2'[h]), h, pages)
    {
      GroupStoreEntries(m, l1, g, p, 4);
      assert Page(m', l2'[h]) == Page(m, l2'[h]);
      if h == g {
        EmptyGroup(Page(m, p), g, l2, pages, sections);
      }
    }
  }

  lemma AddGroupFirstLevel(m: Ram, l1: PageIndex, l2: map<int, PageIndex>, sections: SectionMap, g: nat, p: PageIndex)
    requires l1 + 4 <= RAM_PAGES && L1Holds(m, l1, l2, sections)
    requires g < 1024 && (forall i :: i in sections ==> i / 4 != g)
    ensures L1Holds(GroupStore(m, l1, g, p, 4), l1, l2[g := p], sections)
  {
    var m' := GroupStore(m, l1, g, p, 4);
    GroupStoreEntries(m, l1, g, p, 4);
    forall i | 0 <= i < 4096
      ensures DecodeL1(L1Entry(m', l1, i)) == L1Spec(l2[g := p], sections, i)
    {
      if i / 4 == g {
        var k: nat := i % 4;
        assert i == 4 * g + k;
        assert 4 * g <= i < 4 * g + 4;
        assert L1Entry(m', l1, 4 * g + k) == SubTable(p, k);
        SubTableDecodes(p, k);
      } else {
        assert L1Entry(m', l1, i) == L1Entry(m, l1, i);
        assert DecodeL1(L1Entry(m, l1, i)) == L1Spec(l2, sections, i);
      }
    }
  }

  lemma SubTableDecodes(p: PageIndex, k: nat)
    requires k < 4
    ensures DecodeL1(SubTable(p, k)) == L1PageTable(ENCRYPTED_DRAM_BASE + p * PAGE_SIZE + k * 0x400)
  {
    var base := ENCRYPTED_DRAM_BASE + p * PAGE_SIZE + k * 0x400;
    Euclid(base, 0x400, 0x10_0000 + 4 * p + k, 0);
    PageTableDescriptorDecodes(base);
  }

  lemma EmptyGroup(words: seq<Word>, g: int, l2: map<int, PageIndex>, pages: PageMap, sections: SectionMap)
    requires |words| == PAGE_WORDS && (forall j :: 0 <= j < PAGE_WORDS ==> words[j] == 0)
    requires Domains(l2, pages, sections) && g !in l2
    ensures GroupHolds(words, g, pages)
  {
    forall j | 0 <= j < PAGE_WORDS
      ensures DecodeL2(words[j]) == L2Spec(pages, g * PAGE_WORDS + j)
    {
      Euclid(g * PAGE_WORDS + j, PAGE_WORDS, g, j);
    }
  }

  /** Four zeroed, aligned pages are a first-level table that maps nothing. */
  lemma EmptyTables(m: Ram, l1: PageIndex)
    requires l1 % 4 == 0 && l1 + 4 <= RAM_PAGES
    requires forall p: PageIndex :: l1 <= p < l1 + 4 ==> forall j :: 0 <= j < PAGE_WORDS ==> Page(m, p)[j] == 0
    ensures Tables(m, l1, map[], map[], map[])
  {
    forall i | 0 <= i < 4096
      ensures DecodeL1(L1Entry(m, l1, i)) == L1Spec(map[], map[], i)
    {
      assert L1Entry(m, l1, i) == 0;
    }
  }
}
