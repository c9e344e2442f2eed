/** Packing an app bundle: the size check against the reader's bound, and the order of the entries. */
module AppArchive {
  import opened Arith
  import opened TreeHash
  import opened TreeWalk
  import opened Wrappers

  const BLOCK := 512
  const TRAILER := 1024
  const NAME_FIELD := 100
  const MAX_BUNDLE_BYTES := 64 * 1024 * 1024
  const MAX_U64 := 0xFFFF_FFFF_FFFF_FFFF

  /** An archive entry: its name and content. */
  datatype BundleEntry = BundleEntry(name: Bytes, content: Bytes)

  // ---- the tar stream ----

  /** Bytes up to a multiple of the block size. */
  function Padded(n: nat): nat {
    (n + BLOCK - 1) / BLOCK * BLOCK
  }

  lemma PaddedBounds(n: nat)
    ensures n <= Padded(n) < n + BLOCK && Padded(n) % BLOCK == 0
  {
    Euclid(Padded(n), BLOCK, (n + BLOCK - 1) / BLOCK, 0);
  }

  /** What one entry takes in a GNU tar stream: header and padded content, and before them, for a name
      that the header cannot hold, another header and the name with its terminator. */
  function EntryLength(e: BundleEntry): nat {
    (if |e.name| > NAME_FIELD then BLOCK + Padded(|e.name| + 1) else 0) + BLOCK + Padded(|e.content|)
  }

  /** The whole stream, with the two empty blocks at its end. */
  function TarLength(entries: seq<BundleEntry>): nat {
    if |entries| == 0 then TRAILER else EntryLength(entries[0]) + TarLength(entries[1..])
  }

  // ---- the estimate ----

  function SaturatingAdd(a: nat, b: nat): nat {
    if a + b > MAX_U64 then MAX_U64 else a + b
  }

  function Framing(e: BundleEntry): nat {
    if |e.name| > NAME_FIELD then 2048 else 1024
  }

  /** The estimate without saturation. */
  function Estimate(entries: seq<BundleEntry>): nat {
    if |entries| == 0 then TRAILER else |entries[0].content| + Framing(entries[0]) + Estimate(entries[1..])
  }

  lemma {:induction false} EstimateAppend(entries: seq<BundleEntry>, e: BundleEntry)
    ensures Estimate(entries + [e]) == Estimate(entries) + |e.content| + Framing(e)
  {
    if |entries| > 0 {
      EstimateAppend(entries[1..], e);
      assert (entries + [e])[1..] == entries[1..] + [e];
    } else {
      assert entries + [e] == [e] && [e][1..] == [];
    }
  }

  /** The name, if it needs a record of its own, takes one block, or it takes two and the content has no
      padding that would need the room. */
  predicate Covered(e: BundleEntry) {
    |e.name| <= 511 || (|e.name| <= 1023 && |e.content| % BLOCK == 0)
  }

  /** Exactly when an entry takes no more than its share of the estimate. */
  lemma CoveredExactly(e: BundleEntry)
    ensures EntryLength(e) <= |e.content| + Framing(e) <==> Covered(e)
    ensures |e.name| <= 511 ==> EntryLength(e) < |e.content| + Framing(e)
  {
    var n, c := |e.name|, |e.content|;
    PaddedBounds(c);
    PaddedBounds(n + 1);
    PaddedWhole(c);
    if NAME_FIELD < n <= 511 {
      Euclid(n + BLOCK, BLOCK, 1, n);
    } else if 511 < n <= 1023 {
      Euclid(n + BLOCK, BLOCK, 2, n - BLOCK);
    }
  }

  lemma PaddedWhole(n: nat)
    ensures Padded(n) == n <==> n % BLOCK == 0
  {
    PaddedBounds(n);
    if n % BLOCK == 0 {
      Euclid(n + BLOCK - 1, BLOCK, n / BLOCK, BLOCK - 1);
    }
  }

  /** The estimate covers the stream if it covers every entry, with a byte to spare for each when names
      have up to 511 bytes. */
  lemma {:induction false} EstimateCovers(entries: seq<BundleEntry>)
    requires forall i :: 0 <= i < |entries| ==> Covered(entries[i])
    ensures TarLength(entries) <= Estimate(entries)
    ensures (forall i :: 0 <= i < |entries| ==> |entries[i].name| <= 511) ==>
              TarLength(entries) + |entries| <= Estimate(entries)
  {
    if |entries| > 0 {
      EstimateCovers(entries[1..]);
      CoveredExactly(entries[0]);
    }
  }

  /** Add up the sizes of all entries. */
  method EstimateStream(entries: seq<BundleEntry>) returns (streamBytes: nat)
    ensures streamBytes == if Estimate(entries) > MAX_U64 then MAX_U64 else Estimate(entries)
  {
    streamBytes := 1024;
    assert entries[..0] == [];
    var k := 0;
    while k < |entries|
      invariant 0 <= k <= |entries|
      invariant streamBytes == if Estimate(entries[..k]) > MAX_U64 then MAX_U64 else Estimate(entries[..k])
    {
      var framing := if |entries[k].name| > 100 then 2048 else 1024;
      streamBytes := SaturatingAdd(SaturatingAdd(streamBytes, |entries[k].content|), framing);
      EstimateAppend(entries[..k], entries[k]);
      assert entries[..k + 1] == entries[..k] + [entries[k]];
      k := k + 1;
    }
    assert entries[..k] == entries;
  }

  // ---- writing ----

  /** What a header says: it announces a long name of some length, or it is that of a file. */
  datatype Head = LongName(size: nat) | FileHead(name: Bytes, size: nat)

  /** The bytes of a header are of no interest here, only how many they are, and what a reader makes of them. */
  type Headers = f: Head -> Bytes | forall h :: |f(h)| == BLOCK witness (h: Head) => seq(BLOCK, _ => 0)
  type HeaderReader = Bytes -> Option<Head>

  function Zeros(n: nat): (z: Bytes)
    ensures |z| == n
  {
    seq(n, _ => 0)
  }

  function PaddedTo(data: Bytes): (r: Bytes)
    ensures |r| == Padded(|data|)
  {
    PaddedBounds(|data|);
    data + Zeros(Padded(|data|) - |data|)
  }

  /** What a header has room for of a name. */
  function NameField(name: Bytes): Bytes {
    if |name| > NAME_FIELD then name[..NAME_FIELD] else name
  }

  /** A long name goes before its entry, with a terminator. */
  function EntryBytes(header: Headers, e: BundleEntry): (r: Bytes)
    ensures |r| == EntryLength(e)
  {
    (if |e.name| > NAME_FIELD then header(LongName(|e.name| + 1)) + PaddedTo(e.name + [0]) else [])
    + header(FileHead(NameField(e.name), |e.content|)) + PaddedTo(e.content)
  }

  function TarStream(header: Headers, entries: seq<BundleEntry>): (r: Bytes)
    ensures |r| == TarLength(entries)
  {
    if |entries| == 0 then Zeros(TRAILER) else EntryBytes(header, entries[0]) + TarStream(header, entries[1..])
  }

  // ---- reading ----

  /** Without the terminator, if there is one. */
  function Terminated(name: Bytes): Bytes {
    if |name| > 0 && name[|name| - 1] == 0 then name[..|name| - 1] else name
  }

  predicate AllZero(s: Bytes) {
    forall i :: 0 <= i < |s| ==> s[i] == 0
  }

  /** Read entries block by block until an empty block. A long name is kept for the entry after it. */
  function ReadEntries(read: HeaderReader, s: Bytes, long: Option<Bytes>): Option<seq<BundleEntry>>
    decreases |s|
  {
    if |s| < BLOCK || AllZero(s[..BLOCK]) then
      if long.None? then Some([]) else None
    else
      match read(s[..BLOCK])
      case None => None
      case Some(head) =>
        var rest := s[BLOCK..];
        PaddedBounds(head.size);
        if Padded(head.size) > |rest| then None
        else if head.LongName? then
          if long.Some? then None else ReadEntries(read, rest[Padded(head.size)..], Some(rest[..head.size]))
        else
          match ReadEntries(read, rest[Padded(head.size)..], None)
          case None => None
          case Some(entries) =>
            Some([BundleEntry(if long.Some? then Terminated(long.value) else head.name, rest[..head.size])] + entries)
  }

  /** The reader understands a header that it is given. */
  predicate Understood(header: Headers, read: HeaderReader, h: Head) {
    !AllZero(header(h)) && read(header(h)) == Some(h)
  }

  predicate HeadersKept(header: Headers, read: HeaderReader, e: BundleEntry) {
    && Understood(header, read, FileHead(NameField(e.name), |e.content|))
    && (|e.name| > NAME_FIELD ==> Understood(header, read, LongName(|e.name| + 1)))
  }

  /** Reading a header and its data in front of anything. */
  lemma ReadOne(header: Headers, read: HeaderReader, h: Head, data: Bytes, rest: Bytes, long: Option<Bytes>)
    requires Understood(header, read, h) && h.size == |data|
    ensures h.LongName? && long.None? ==>
              ReadEntries(read, header(h) + PaddedTo(data) + rest, long) == ReadEntries(read, rest, Some(data))
    ensures h.FileHead? && ReadEntries(read, rest, None).Some? ==>
              ReadEntries(read, header(h) + PaddedTo(data) + rest, long)
              == Some([BundleEntry(if long.Some? then Terminated(long.value) else h.name, data)]
                      + ReadEntries(read, rest, None).value)
  {
    hide AllZero, Terminated;
    var s := header(h) + PaddedTo(data) + rest;
    PaddedBounds(|data|);
    assert s[..BLOCK] == header(h);
    assert s[BLOCK..] == PaddedTo(data) + rest;
    assert s[BLOCK..][..|data|] == data;
    assert s[BLOCK..][Padded(|data|)..] == rest;
  }

  /** Reading an entry, long name or not, in front of others. */
  lemma ReadEntry(header: Headers, read: HeaderReader, e: BundleEntry, rest: Bytes, entries: seq<BundleEntry>)
    requires HeadersKept(header, read, e) && ReadEntries(read, rest, None) == Some(entries)
    ensures ReadEntries(read, EntryBytes(header, e) + rest, None) == Some([e] + entries)
  {
    hide ReadEntries, Padded, PaddedTo, Understood;
    var file := FileHead(NameField(e.name), |e.content|);
    var tail := header(file) + PaddedTo(e.content) + rest;
    if |e.name| > NAME_FIELD {
      var name := e.name + [0];
      assert EntryBytes(header, e) + rest == header(LongName(|name|)) + PaddedTo(name) + tail;
      ReadOne(header, read, LongName(|name|), name, tail, None);
      ReadOne(header, read, file, e.content, rest, Some(name));
      assert Terminated(name) == e.name;
    } else {
      assert EntryBytes(header, e) + rest == tail;
      ReadOne(header, read, file, e.content, rest, None);
    }
  }

  predicate EntriesKept(header: Headers, read: HeaderReader, entries: seq<BundleEntry>) {
    forall i :: 0 <= i < |entries| ==> HeadersKept(header, read, entries[i])
  }

  /** Reading a stream gives back the entries it was written from: their names, of any length, and contents. */
  lemma {:induction false} ReadsBack(header: Headers, read: HeaderReader, entries: seq<BundleEntry>)
    requires EntriesKept(header, read, entries)
    ensures ReadEntries(read, TarStream(header, entries), None) == Some(entries)
  {
    if |entries| > 0 {
      hide ReadEntries, EntryBytes, HeadersKept;
      ReadsBack(header, read, entries[1..]);
      ReadEntry(header, read, entries[0], TarStream(header, entries[1..]), entries[1..]);
      assert entries == [entries[0]] + entries[1..];
    }
  }

  /** Decoding reads no further than the bound. */
  function Decoded(stream: Bytes): Bytes {
    if |stream| <= MAX_BUNDLE_BYTES then stream else stream[..MAX_BUNDLE_BYTES]
  }

  // ---- the order of the entries ----

  predicate InOrder(names: seq<Bytes>) {
    forall i, j :: 0 <= i < j < |names| ==> !Below(names[j], names[i])
  }

  /** Names as paths of one part, which compare like the names themselves. */
  function Keyed(names: seq<Bytes>): (r: seq<(Path, Bytes)>)
    ensures |r| == |names|
  {
    seq(|names|, i requires 0 <= i < |names| => ([names[i]], names[i]))
  }

  function SortNames(names: seq<Bytes>): seq<Bytes> {
    var sorted := Sort(Keyed(names));
    seq(|sorted|, i requires 0 <= i < |sorted| => sorted[i].1)
  }

  lemma OnePart(a: Bytes, b: Bytes)
    ensures PathBelow([a], [b]) <==> Below(a, b)
  {
    var p, q: Path := [a], [b];
    assert p[1..] == [] && q[1..] == [];
  }

  lemma KeyedInOrder(names: seq<Bytes>)
    ensures Ordered(Keyed(names)) <==> InOrder(names)
    ensures KeyDetermines(Keyed(names))
  {
    hide PathBelow, Below;
    forall i, j | 0 <= i < j < |names|
      ensures PathBelow(Keyed(names)[j].0, Keyed(names)[i].0) <==> Below(names[j], names[i])
    {
      OnePart(names[j], names[i]);
    }
    if InOrder(names) {
      assert Ordered(Keyed(names));
    }
    if Ordered(Keyed(names)) {
      forall i, j | 0 <= i < j < |names|
        ensures !Below(names[j], names[i])
      {
        assert !PathBelow(Keyed(names)[j].0, Keyed(names)[i].0);
      }
    }
  }

  lemma {:induction false} KeyedCount(names: seq<Bytes>, x: Bytes)
    ensures multiset(Keyed(names))[([x], x)] == multiset(names)[x]
  {
    if |names| > 0 {
      var n := |names| - 1;
      KeyedCount(names[..n], x);
      assert names == names[..n] + [names[n]];
      assert Keyed(names) == Keyed(names[..n]) + [([names[n]], names[n])];
    }
  }

  /** Keyed lists with the same elements. */
  lemma KeyedSame(a: seq<Bytes>, b: seq<Bytes>)
    ensures multiset(Keyed(a)) == multiset(Keyed(b)) <==> multiset(a) == multiset(b)
  {
    forall x: Bytes
      ensures multiset(Keyed(a))[([x], x)] == multiset(a)[x] && multiset(Keyed(b))[([x], x)] == multiset(b)[x]
    {
      KeyedCount(a, x);
      KeyedCount(b, x);
    }
    if multiset(a) == multiset(b) {
      forall k: (Path, Bytes)
        ensures multiset(Keyed(a))[k] == multiset(Keyed(b))[k]
      {
        if k != ([k.1], k.1) {
          assert k !in Keyed(a) && k !in Keyed(b);
        }
      }
    }
    if multiset(Keyed(a)) == multiset(Keyed(b)) {
      forall x: Bytes
        ensures multiset(a)[x] == multiset(b)[x]
      {
        assert multiset(Keyed(a))[([x], x)] == multiset(Keyed(b))[([x], x)];
      }
    }
  }

  /** Sorting keeps the keys with their names. */
  lemma SortNamesKeyed(names: seq<Bytes>)
    ensures Keyed(SortNames(names)) == Sort(Keyed(names))
  {
    hide Sort, PathBelow;
    var sorted := Sort(Keyed(names));
    SortKeeps(Keyed(names));
    forall i | 0 <= i < |sorted|
      ensures sorted[i] == ([sorted[i].1], sorted[i].1)
    {
      assert sorted[i] in multiset(Keyed(names));
    }
  }

  lemma SortNamesKeeps(names: seq<Bytes>)
    ensures InOrder(SortNames(names)) && multiset(SortNames(names)) == multiset(names)
  {
    hide SortNames, Keyed, Sort, Ordered, InOrder;
    SortNamesKeyed(names);
    SortKeeps(Keyed(names));
    KeyedInOrder(SortNames(names));
    KeyedSame(SortNames(names), names);
  }

  /** Two orders of the same names are sorted alike, duplicates or not. */
  lemma OneOrder(a: seq<Bytes>, b: seq<Bytes>)
    requires InOrder(a) && InOrder(b) && multiset(a) == multiset(b)
    ensures a == b
  {
    hide Ordered, InOrder;
    KeyedInOrder(a);
    KeyedInOrder(b);
    KeyedSame(a, b);
    OrderedSame(Keyed(a), Keyed(b));
    assert |Keyed(a)| == |Keyed(b)|;
    forall i | 0 <= i < |a|
      ensures a[i] == b[i]
    {
      assert Keyed(a)[i] == Keyed(b)[i];
    }
  }

  /** The entries of a bundle: the manifest, then every hashed file, sorted by name. */
  function EntriesOf(manifest: Bytes, names: seq<Bytes>, files: map<Bytes, Bytes>): seq<BundleEntry> {
    var all := [manifest] + SortNames(names);
    seq(|all|, i requires 0 <= i < |all| => BundleEntry(all[i], if all[i] in files then files[all[i]] else []))
  }

  lemma OrderDoesNotMatter(manifest: Bytes, a: seq<Bytes>, b: seq<Bytes>, files: map<Bytes, Bytes>)
    requires multiset(a) == multiset(b)
    ensures EntriesOf(manifest, a, files) == EntriesOf(manifest, b, files)
  {
    SortNamesKeeps(a);
    SortNamesKeeps(b);
    OneOrder(SortNames(a), SortNames(b));
  }

  /** What a bundle is to hold: the manifest first, then every name as often as it was listed, in order, each
      with the content of its file. */
  predicate Holds(entries: seq<BundleEntry>, manifest: Bytes, names: seq<Bytes>, files: map<Bytes, Bytes>)
    requires manifest in files && forall n :: n in names ==> n in files
  {
    && |entries| == |names| + 1 && entries[0] == BundleEntry(manifest, files[manifest])
    && multiset(NamesIn(entries[1..])) == multiset(names) && InOrder(NamesIn(entries[1..]))
    && forall i :: 0 < i < |entries| ==> entries[i].name in files && entries[i].content == files[entries[i].name]
  }

  function NamesIn(entries: seq<BundleEntry>): (r: seq<Bytes>)
    ensures |r| == |entries|
  {
    seq(|entries|, i requires 0 <= i < |entries| => entries[i].name)
  }

  lemma EntriesHold(manifest: Bytes, names: seq<Bytes>, files: map<Bytes, Bytes>)
    requires manifest in files && forall n :: n in names ==> n in files
    ensures Holds(EntriesOf(manifest, names, files), manifest, names, files)
  {
    hide SortNames, InOrder;
    SortNamesKeeps(names);
    SameLength(SortNames(names), names);
    var entries := EntriesOf(manifest, names, files);
    assert NamesIn(entries[1..]) == SortNames(names);
    forall i | 0 < i < |entries|
      ensures entries[i].name in files && entries[i].content == files[entries[i].name]
    {
      assert entries[i].name == SortNames(names)[i - 1];
      assert SortNames(names)[i - 1] in multiset(names);
    }
  }

  datatype PackResult = Packed(stream: Bytes) | TooLarge(streamBytes: nat) | Unreadable

  /** Pack a bundle. What is packed is never cut short by the reader if the estimate covers every entry,
      which it does for names of up to 511 bytes. */
  method PackBundle(header: Headers, manifest: Bytes, names: seq<Bytes>, files: map<Bytes, Bytes>)
    returns (r: PackResult, ghost entries: seq<BundleEntry>)
    ensures r.Unreadable? <==> manifest !in files || exists n :: n in names && n !in files
    ensures !r.Unreadable? ==> Holds(entries, manifest, names, files)
    ensures r.TooLarge? <==> !r.Unreadable? && Estimate(entries) > MAX_BUNDLE_BYTES
    ensures r.Packed? ==> r.stream == TarStream(header, entries)
    ensures r.Packed? && (forall e :: e in entries ==> Covered(e)) ==> Decoded(r.stream) == r.stream
    ensures r.Packed? && |manifest| <= 511 && (forall n :: n in names ==> |n| <= 511) ==> Decoded(r.stream) == r.stream
    ensures r.Packed? ==>
              forall read: HeaderReader :: EntriesKept(header, read, entries) ==>
                ReadEntries(read, r.stream, None) == Some(entries)
  {
    hide EntriesOf, TarStream, Covered, HeadersKept, ReadEntries, Holds;
    entries := [];
    if manifest !in files || exists n :: n in names && n !in files {
      return Unreadable, entries;
    }
    var bundle := EntriesOf(manifest, names, files);
    entries := bundle;
    EntriesHold(manifest, names, files);
    var streamBytes := EstimateStream(bundle);
    if streamBytes > MAX_BUNDLE_BYTES {
      return TooLarge(streamBytes), entries;
    }
    var stream := WriteEntries(header, bundle);
    if |manifest| <= 511 && forall n :: n in names ==> |n| <= 511 {
      ShortNames(manifest, names, files);
    }
    if forall e :: e in entries ==> Covered(e) {
      EstimateCovers(entries);
    }
    forall read: HeaderReader | EntriesKept(header, read, entries)
      ensures ReadEntries(read, stream, None) == Some(entries)
    {
      ReadsBack(header, read, entries);
    }
    return Packed(stream), entries;
  }

  lemma ShortNames(manifest: Bytes, names: seq<Bytes>, files: map<Bytes, Bytes>)
    requires |manifest| <= 511 && forall n :: n in names ==> |n| <= 511
    ensures forall i :: 0 <= i < |EntriesOf(manifest, names, files)| ==>
              |EntriesOf(manifest, names, files)[i].name| <= 511 && Covered(EntriesOf(manifest, names, files)[i])
  {
    hide SortNames;
    SortNamesKeeps(names);
    forall i | 0 <= i < |SortNames(names)|
      ensures |SortNames(names)[i]| <= 511
    {
      assert SortNames(names)[i] in multiset(SortNames(names));
    }
  }

  /** A bundle that is accepted and then cut: a small manifest, and a file with a name of 1024 bytes that
      fills the bound. */
  lemma AcceptedButCut(header: Headers, manifest: Bytes, name: Bytes)
    requires |manifest| <= NAME_FIELD && |name| == 1024
    ensures var files := map[manifest := [0], name := Zeros(MAX_BUNDLE_BYTES - 4607)];
            var entries := EntriesOf(manifest, [name], files);
            Estimate(entries) <= MAX_BUNDLE_BYTES && Decoded(TarStream(header, entries)) != TarStream(header, entries)
  {
    hide Zeros, Padded, TarStream, SortNames;
    var n := MAX_BUNDLE_BYTES - 4607;
    var files := map[manifest := [0], name := Zeros(n)];
    var small, large := BundleEntry(manifest, [0]), BundleEntry(name, Zeros(n));
    OneSorted(name);
    assert EntriesOf(manifest, [name], files) == [small, large];
    CutSizes();
    assert EntryLength(small) == 1024 && EntryLength(large) == 512 + 1536 + 512 + n + 511;
    assert [small, large][1..] == [large] && [large][1..] == [];
    assert Estimate([large]) == n + 2048 + 1024 && TarLength([large]) == EntryLength(large) + 1024;
  }

  lemma OneSorted(name: Bytes)
    ensures SortNames([name]) == [name]
  {
    hide SortNames;
    SortNamesKeeps([name]);
    SameLength(SortNames([name]), [name]);
    assert SortNames([name])[0] in multiset([name]);
  }

  lemma CutSizes()
    ensures Padded(1) == 512 && Padded(1025) == 1536
    ensures Padded(MAX_BUNDLE_BYTES - 4607) == MAX_BUNDLE_BYTES - 4096
  {
  }

  method WriteEntries(header: Headers, entries: seq<BundleEntry>) returns (stream: Bytes)
    ensures stream == TarStream(header, entries)
  {
    stream := [];
    var k := 0;
    assert entries[0..] == entries;
    while k < |entries|
      invariant 0 <= k <= |entries|
      invariant TarStream(header, entries) == stream + TarStream(header, entries[k..])
    {
      assert entries[k..][1..] == entries[k + 1..];
      assert stream + (EntryBytes(header, entries[k]) + TarStream(header, entries[k + 1..]))
          == stream + EntryBytes(header, entries[k]) + TarStream(header, entries[k + 1..]);
      stream := stream + EntryBytes(header, entries[k]);
      k := k + 1;
    }
    assert entries[k..] == [];
    stream := stream + Zeros(TRAILER);
  }
}
