/** Copying the kernel image out of the boot arguments to the top of free RAM. */
module KernelImage {
  import opened Arith
  import opened Layout
  import opened PageTables
  import opened Tracker
  import opened RamPages
  import opened Boot

  /** The kernel as the boot arguments describe it. */
  datatype ProgramDescription = ProgramDescription(
    loadOffset: Word,
    textOffset: Word,
    textSize: Word,
    dataOffset: Word,
    dataSize: Word,
    bssSize: Word,
    entrypoint: Word)
  {
    function TextPages(): nat { PagesOf(textSize) }
    function DataPages(): nat { PagesOf(dataSize + bssSize) }

    /** Offsets and sizes are whole words, as the word-wise copy needs. */
    predicate WholeWords() {
      loadOffset % 4 == 0 && textSize % 4 == 0 && dataSize % 4 == 0
    }
  }

  /** Number of pages that hold `n` bytes. */
  function PagesOf(n: nat): nat {
    (n + PAGE_SIZE - 1) / PAGE_SIZE
  }

  /** Pages `first <= p < first + n` hold `words` words of `src` from `at` on, and zeros after them. */
  ghost predicate LoadedAt(m: Ram, first: int, n: nat, src: Ram, at: nat, words: nat)
    requires 0 <= first && first + n <= RAM_PAGES && at + words <= RAM_WORDS
  {
    forall p: PageIndex, j {:trigger Page(m, p)[j]} :: first <= p < first + n && 0 <= j < PAGE_WORDS ==>
      Page(m, p)[j] == ImageWord(src, at, words, (p - first) * PAGE_WORDS + j)
  }

  function ImageWord(src: Ram, at: nat, words: nat, k: nat): Word
    requires at + words <= RAM_WORDS
  {
    if k < words then src[at + k] else 0
  }

  lemma LoadedFrame(m: Ram, m': Ram, first: int, n: nat, src: Ram, at: nat, words: nat)
    requires 0 <= first && first + n <= RAM_PAGES && at + words <= RAM_WORDS
    requires LoadedAt(m, first, n, src, at, words)
    requires forall p: PageIndex :: first <= p < first + n ==> Page(m', p) == Page(m, p)
    ensures LoadedAt(m', first, n, src, at, words)
  {
    forall p: PageIndex, j | first <= p < first + n && 0 <= j < PAGE_WORDS
      ensures Page(m', p)[j] == ImageWord(src, at, words, (p - first) * PAGE_WORDS + j)
    {
      assert Page(m', p)[j] == Page(m, p)[j];
    }
  }

  /** Copying and then clearing the rest of the pages loads them. */
  lemma CopyLoads(m: Ram, first: int, n: nat, at: nat, words: nat)
    requires 0 <= first && first + n <= RAM_PAGES && at + words <= first * PAGE_WORDS && words <= n * PAGE_WORDS
    ensures var m' := Cleared(Copied(m, first * PAGE_WORDS, at, words), first * PAGE_WORDS + words,
              (first + n) * PAGE_WORDS);
            && LoadedAt(m', first, n, m, at, words)
            && (forall p: PageIndex :: !(first <= p < first + n) ==> Page(m', p) == Page(m, p))
  {
    var c := Copied(m, first * PAGE_WORDS, at, words);
    var m' := Cleared(c, first * PAGE_WORDS + words, (first + n) * PAGE_WORDS);
    forall p: PageIndex, j | first <= p < first + n && 0 <= j < PAGE_WORDS
      ensures Page(m', p)[j] == ImageWord(m, at, words, (p - first) * PAGE_WORDS + j)
    {
      var w := p * PAGE_WORDS + j;
      assert Page(m', p)[j] == m'[w];
      assert m'[w] == if first * PAGE_WORDS + words <= w < (first + n) * PAGE_WORDS then 0 else c[w];
    }
    forall p: PageIndex | !(first <= p < first + n)
      ensures Page(m', p) == Page(m, p)
    {
      OutsidePages(m, m', first * PAGE_WORDS, (first + n) * PAGE_WORDS, p);
    }
  }

  /** Reserve the pages of one segment, copy its initialised part and clear the rest. */
  method CopySegment(cfg: BootConfig, src: Word, bytes: nat, total: nat)
    requires cfg.Ready() && src % 4 == 0 && bytes % 4 == 0 && bytes <= total
    requires InEncrypted(DramView(src)) && cfg.TopPage() - PagesOf(total) >= 0
    requires DramView(src) + bytes <= AddrOf(cfg.TopPage() - PagesOf(total))
    modifies cfg.ram, cfg`extraPages
    ensures cfg.Ready() && cfg.TopPage() == old(cfg.TopPage()) - PagesOf(total)
    ensures LoadedAt(cfg.Mem(), cfg.TopPage(), PagesOf(total), old(cfg.Mem()), WordIndex(DramView(src)), bytes / 4)
    ensures cfg.Keeps(old(cfg.Mem()), cfg.TopPage(), old(cfg.TopPage()))
  {
    hide Cleared, Copied, Tracks, RegionPages, WholePages, Page, LoadedAt;
    var rounded := (total + PAGE_SIZE - 1) / PAGE_SIZE * PAGE_SIZE;
    ghost var n, m := PagesOf(total), cfg.Mem();
    Euclid(rounded, PAGE_SIZE, n, 0);
    cfg.extraPages := cfg.extraPages + rounded / PAGE_SIZE;
    var top := cfg.GetTop();
    ghost var first, at := cfg.TopPage(), WordIndex(DramView(src));
    SegmentBounds(first, n, DramView(src), bytes, total);
    cfg.Memcpy(top, src, bytes + 1);
    cfg.Bzero(top + bytes / 4 * 4, top + rounded);
    CopyLoads(m, first, n, at, bytes / 4);
    TracksFrame(m, cfg.Mem(), cfg.TrackerPage(), cfg.rptPages, cfg.trackerLen, cfg.owned);
  }

  /** Word positions of a segment's pages, its source and its initialised part. */
  lemma SegmentBounds(first: int, n: nat, src: Word, bytes: nat, total: nat)
    requires 0 <= first && first + n <= RAM_PAGES && n == PagesOf(total) && first < RAM_PAGES
    requires bytes % 4 == 0 && bytes <= total && src % 4 == 0
    requires InEncrypted(src) && src + bytes <= AddrOf(first)
    ensures var top := AddrOf(first);
            && (bytes + 1) / 4 == bytes / 4 && bytes / 4 * 4 == bytes
            && top % 4 == 0 && (top + bytes) % 4 == 0 && (top + n * PAGE_SIZE) % 4 == 0
            && WordIndex(top) == first * PAGE_WORDS
            && (top + bytes - ENCRYPTED_DRAM_BASE) / 4 == first * PAGE_WORDS + bytes / 4
            && (top + n * PAGE_SIZE - ENCRYPTED_DRAM_BASE) / 4 == (first + n) * PAGE_WORDS
            && WordIndex(src) + bytes / 4 <= first * PAGE_WORDS
            && bytes / 4 <= n * PAGE_WORDS
  {
    var w := bytes / 4;
    var top := AddrOf(first);
    assert bytes == 4 * w;
    Euclid(bytes + 1, 4, w, 1);
    Euclid(top, 4, ENCRYPTED_DRAM_BASE / 4 + first * PAGE_WORDS, 0);
    Euclid(top + bytes, 4, ENCRYPTED_DRAM_BASE / 4 + first * PAGE_WORDS + w, 0);
    Euclid(top + n * PAGE_SIZE, 4, ENCRYPTED_DRAM_BASE / 4 + (first + n) * PAGE_WORDS, 0);
    Euclid(first * PAGE_SIZE, 4, first * PAGE_WORDS, 0);
    Euclid(first * PAGE_SIZE + bytes, 4, first * PAGE_WORDS + w, 0);
    Euclid((first + n) * PAGE_SIZE, 4, (first + n) * PAGE_WORDS, 0);
    Euclid(src - ENCRYPTED_DRAM_BASE, 4, (src - ENCRYPTED_DRAM_BASE) / 4, (src - ENCRYPTED_DRAM_BASE) % 4);
  }

  /** Pages that are kept keep their words. */
  lemma WordKept(m: Ram, m': Ram, w: nat, below: int)
    requires w < RAM_WORDS && w < below * PAGE_WORDS
    requires forall p: PageIndex :: p < below ==> Page(m', p) == Page(m, p)
    ensures m'[w] == m[w]
  {
    var p: PageIndex := w / PAGE_WORDS;
    assert Page(m, p)[w % PAGE_WORDS] == m[w];
    assert Page(m', p)[w % PAGE_WORDS] == m'[w];
  }

  lemma LoadedFrom(m: Ram, first: int, n: nat, src: Ram, src': Ram, at: nat, words: nat, below: int)
    requires 0 <= first && first + n <= RAM_PAGES && at + words <= RAM_WORDS && at + words <= below * PAGE_WORDS
    requires LoadedAt(m, first, n, src', at, words)
    requires forall p: PageIndex :: p < below ==> Page(src', p) == Page(src, p)
    ensures LoadedAt(m, first, n, src, at, words)
  {
    forall p: PageIndex, j | first <= p < first + n && 0 <= j < PAGE_WORDS
      ensures Page(m, p)[j] == ImageWord(src, at, words, (p - first) * PAGE_WORDS + j)
    {
      var k := (p - first) * PAGE_WORDS + j;
      assert Page(m, p)[j] == ImageWord(src', at, words, k);
      if k < words {
        WordKept(src, src', at + k, below);
      }
    }
  }

  /** Where the image ends up: `data` is the first page of its data and bss, its text follows. */
  ghost predicate ImageIn(m: Ram, data: int, k: ProgramDescription, src: Ram, at: nat)
    requires 0 <= data && data + k.DataPages() + k.TextPages() <= RAM_PAGES
    requires at + k.textSize / 4 + k.dataSize / 4 <= RAM_WORDS
  {
    && LoadedAt(m, data, k.DataPages(), src, at + k.textSize / 4, k.dataSize / 4)
    && LoadedAt(m, data + k.DataPages(), k.TextPages(), src, at, k.textSize / 4)
  }

  /** The image lies below the pages it is about to be copied to. */
  predicate SourceBelow(k: ProgramDescription, base: Word, top: int) {
    && base % 4 == 0 && k.WholeWords() && InEncrypted(DramView(base))
    && top - k.TextPages() - k.DataPages() >= 0
    && DramView(base) + k.loadOffset + k.textSize + k.dataSize
       <= ENCRYPTED_DRAM_BASE + (top - k.TextPages() - k.DataPages()) * PAGE_SIZE
  }

  /** First word of the image in RAM. */
  function SourceWord(k: ProgramDescription, base: Word): nat
    requires InEncrypted(DramView(base))
  {
    (DramView(base) + k.loadOffset - ENCRYPTED_DRAM_BASE) / 4
  }

  /** Copy text, then data, to the top of free RAM, each padded with zeros to whole pages. */
  method Copy(cfg: BootConfig, k: ProgramDescription, base: Word)
    requires cfg.Ready() && cfg.TopPage() < RAM_PAGES && SourceBelow(k, base, cfg.TopPage())
    modifies cfg.ram, cfg`extraPages
    ensures cfg.Ready() && cfg.TopPage() == old(cfg.TopPage()) - k.TextPages() - k.DataPages()
    ensures SourceWord(k, base) + k.textSize / 4 + k.dataSize / 4 <= RAM_WORDS
    ensures ImageIn(cfg.Mem(), cfg.TopPage(), k, old(cfg.Mem()), SourceWord(k, base))
    ensures cfg.Keeps(old(cfg.Mem()), cfg.TopPage(), old(cfg.TopPage()))
  {
    hide Tracks, RegionPages, WholePages, Page, LoadedAt;
    ghost var m0, top0 := cfg.Mem(), cfg.TopPage();
    SourceAddresses(k, base, top0);
    CopySegment(cfg, base + k.loadOffset / 4 * 4, k.textSize, k.textSize);
    ghost var m1, top1 := cfg.Mem(), cfg.TopPage();
    CopySegment(cfg, base + ((k.loadOffset + k.textSize + 4) / 4 - 1) * 4, k.dataSize, k.dataSize + k.bssSize);
    ghost var at := SourceWord(k, base);
    LoadedFrame(m1, cfg.Mem(), top1, k.TextPages(), m0, at, k.textSize / 4);
    LoadedFrom(cfg.Mem(), cfg.TopPage(), k.DataPages(), m0, m1, at + k.textSize / 4, k.dataSize / 4, cfg.TopPage());
  }

  /** The two source pointers of the copy. */
  lemma SourceAddresses(k: ProgramDescription, base: Word, top: int)
    requires SourceBelow(k, base, top) && top < RAM_PAGES
    ensures var src, src2 := base + k.loadOffset / 4 * 4, base + ((k.loadOffset + k.textSize + 4) / 4 - 1) * 4;
            && src == base + k.loadOffset && src2 == base + k.loadOffset + k.textSize
            && src < ADDRESS_SPACE && src2 < ADDRESS_SPACE && src % 4 == 0 && src2 % 4 == 0
            && DramView(src) == DramView(base) + k.loadOffset
            && DramView(src2) == DramView(base) + k.loadOffset + k.textSize
            && InEncrypted(DramView(src)) && InEncrypted(DramView(src2))
            && WordIndex(DramView(src)) == SourceWord(k, base)
            && WordIndex(DramView(src2)) == SourceWord(k, base) + k.textSize / 4
    ensures SourceWord(k, base) + k.textSize / 4 + k.dataSize / 4 <= RAM_WORDS
    ensures SourceWord(k, base) + k.textSize / 4 + k.dataSize / 4 <= (top - k.TextPages() - k.DataPages()) * PAGE_WORDS
  {
    var lo, ts, ds := k.loadOffset / 4, k.textSize / 4, k.dataSize / 4;
    assert k.loadOffset == 4 * lo && k.textSize == 4 * ts && k.dataSize == 4 * ds;
    Euclid(k.loadOffset + k.textSize + 4, 4, lo + ts + 1, 0);
    var src, src2 := base + k.loadOffset, base + k.loadOffset + k.textSize;
    ViewsAreInverse(base);
    ViewsAreInverse(src);
    ViewsAreInverse(src2);
    var b := (DramView(base) - ENCRYPTED_DRAM_BASE) / 4;
    DramViewAligned(base);
    Euclid(DramView(base) + k.loadOffset - ENCRYPTED_DRAM_BASE, 4, b + lo, 0);
    Euclid(DramView(base) + k.loadOffset + k.textSize - ENCRYPTED_DRAM_BASE, 4, b + lo + ts, 0);
    Euclid(src, 4, base / 4 + lo, 0);
    Euclid(src2, 4, base / 4 + lo + ts, 0);
  }

  lemma DramViewAligned(addr: Word)
    requires addr % 4 == 0 && InEncrypted(DramView(addr))
    ensures DramView(addr) - ENCRYPTED_DRAM_BASE == 4 * ((DramView(addr) - ENCRYPTED_DRAM_BASE) / 4)
  {
    ViewsAreInverse(addr);
    if InPlaintext(addr) {
      Euclid(addr - PLAINTEXT_DRAM_BASE, 4, addr / 4 - PLAINTEXT_DRAM_BASE / 4, 0);
    } else {
      Euclid(addr - ENCRYPTED_DRAM_BASE, 4, addr / 4 - ENCRYPTED_DRAM_BASE / 4, 0);
    }
  }
}
