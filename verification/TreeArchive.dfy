/** Reading a tree of files from an archive. */
module TreeArchive {
  import opened TreeHash
  import opened TreeWalk
  import opened Wrappers

  predicate StartsWith(s: Bytes, prefix: Bytes) {
    |prefix| <= |s| && s[..|prefix|] == prefix
  }

  /** A directory entry is one whose name ends with a slash. */
  predicate IsDirectoryName(name: Bytes) {
    |name| > 0 && name[|name| - 1] == SLASH
  }

  predicate ValidRelative(relative: Bytes) {
    && |relative| > 0 && relative[0] != SLASH
    && BACKSLASH !in relative
    && [DOT, DOT] !in Split(relative)
  }

  /** Where a relative name leads to from a directory, one part after another. */
  function Resolve(d: Path, parts: Path): Path
    decreases |parts|
  {
    if |parts| == 0 then d
    else
      var to := if parts[0] == [] || parts[0] == [DOT] then d
                else if parts[0] == [DOT, DOT] then (if |d| == 0 then [] else d[..|d| - 1])
                else d + [parts[0]];
      Resolve(to, parts[1..])
  }

  /** A name with a slash in front leads from the root, any other from the directory. */
  function Target(d: Path, relative: Bytes): Path {
    Resolve(if |relative| > 0 && relative[0] == SLASH then [] else d, Split(relative))
  }

  lemma {:induction false} ResolveStays(d: Path, at: Path, parts: Path)
    requires d <= at && [DOT, DOT] !in parts
    ensures d <= Resolve(at, parts)
    decreases |parts|
  {
    if |parts| > 0 {
      var to := if parts[0] == [] || parts[0] == [DOT] then at else at + [parts[0]];
      assert parts[0] in parts;
      ResolveStays(d, to, parts[1..]);
    }
  }

  /** A valid name leads to no place outside the directory, whichever that is. */
  lemma ValidStaysInside(d: Path, relative: Bytes)
    requires ValidRelative(relative)
    ensures d <= Target(d, relative)
  {
    ResolveStays(d, d, Split(relative));
  }

  predicate Selected(name: Bytes, prefix: Bytes) {
    !IsDirectoryName(name) && StartsWith(name, prefix)
  }

  predicate AllValid(entries: seq<Record>, prefix: Bytes) {
    forall i :: 0 <= i < |entries| && Selected(entries[i].0, prefix) ==> ValidRelative(entries[i].0[|prefix|..])
  }

  // ---- how names compare ----

  /** The parts of a path that `components` gives: no empty ones and no dots. */
  function Named(parts: Path): Path {
    if |parts| == 0 then []
    else (if parts[0] == [] || parts[0] == [DOT] then [] else [parts[0]]) + Named(parts[1..])
  }

  /** What paths are compared by. A leading dot counts and comes before every name: the empty part
      stands for it. */
  function Components(relative: Bytes): Path {
    (if Split(relative)[0] == [DOT] then [[]] else []) + Named(Split(relative))
  }

  /** Every part is a name. */
  predicate PlainPath(p: Path) {
    forall i :: 0 <= i < |p| ==> p[i] != [] && p[i] != [DOT]
  }

  lemma {:induction false} NamedPlain(p: Path)
    requires PlainPath(p)
    ensures Named(p) == p
  {
    if |p| > 0 {
      NamedPlain(p[1..]);
      assert p == [p[0]] + p[1..];
    }
  }

  /** Plain names are compared by their parts. */
  lemma PlainComponents(relative: Bytes)
    requires PlainPath(Split(relative))
    ensures Components(relative) == Split(relative)
  {
    NamedPlain(Split(relative));
  }

  /** The archive's files below a prefix, in its order: what they are compared by, and their names. */
  function NamesOf(entries: seq<Record>, prefix: Bytes): seq<(Path, Bytes)> {
    if |entries| == 0 then []
    else
      var last := entries[|entries| - 1];
      NamesOf(entries[..|entries| - 1], prefix)
      + (if Selected(last.0, prefix) then [(Components(last.0[|prefix|..]), last.0[|prefix|..])] else [])
  }

  /** `by_name`: of entries with one name the last one counts. */
  function ByName(entries: seq<Record>, name: Bytes): Option<Bytes> {
    if |entries| == 0 then None
    else if entries[|entries| - 1].0 == name then Some(entries[|entries| - 1].1)
    else ByName(entries[..|entries| - 1], name)
  }

  function ContentOf(entries: seq<Record>, name: Bytes): Bytes {
    match ByName(entries, name)
    case Some(content) => content
    case None => []
  }

  function WithContents(names: seq<(Path, Bytes)>, entries: seq<Record>, prefix: Bytes): (r: seq<Record>)
    ensures |r| == |names|
  {
    seq(|names|, i requires 0 <= i < |names| => (names[i].1, ContentOf(entries, prefix + names[i].1)))
  }

  /** Names and contents in the order in which an archive is hashed. */
  function Listed(entries: seq<Record>, prefix: Bytes): seq<Record> {
    WithContents(Sort(NamesOf(entries, prefix)), entries, prefix)
  }

  /** No name follows itself. */
  predicate NoRepeat(names: seq<(Path, Bytes)>) {
    forall i :: 0 <= i < |names| - 1 ==> names[i].1 != names[i + 1].1
  }

  /** What the reader accepts: some files, with clean names, and no name twice in a row. */
  predicate Accepted(entries: seq<Record>, prefix: Bytes) {
    AllValid(entries, prefix) && NamesOf(entries, prefix) != [] && NoRepeat(Sort(NamesOf(entries, prefix)))
  }

  // ---- the reader ----

  /** The relative names of the selected entries; one that is not a clean path is an error. */
  method SelectNames(entries: seq<Record>, prefix: Bytes) returns (names: Option<seq<(Path, Bytes)>>)
    ensures names.Some? <==> AllValid(entries, prefix)
    ensures names.Some? ==> names.value == NamesOf(entries, prefix)
  {
    var paths: seq<(Path, Bytes)> := [];
    var k := 0;
    assert entries[..0] == [];
    while k < |entries|
      invariant 0 <= k <= |entries|
      invariant forall i :: 0 <= i < k && Selected(entries[i].0, prefix) ==> ValidRelative(entries[i].0[|prefix|..])
      invariant paths == NamesOf(entries[..k], prefix)
    {
      assert entries[..k + 1][..k] == entries[..k];
      var name := entries[k].0;
      if Selected(name, prefix) {
        var relative := name[|prefix|..];
        if !ValidRelative(relative) {
          return None;
        }
        paths := paths + [(Components(relative), relative)];
      }
      k := k + 1;
    }
    assert entries[..k] == entries;
    return Some(paths);
  }

  /** Hash an archive's tree. It fails on unclean names, on a name twice in a row, and on no files. */
  method HashArchive(entries: seq<Record>, prefix: Bytes, hasher: Hasher) returns (ok: bool)
    requires hasher.input == []
    modifies hasher
    ensures ok <==> Accepted(entries, prefix)
    ensures ok ==> hasher.input == Stream(Listed(entries, prefix))
  {
    hide Framed, Stream, NamesOf, Sort, AllValid, Components, ByName;
    var names := SelectNames(entries, prefix);
    if names == None {
      return false;
    }
    var paths := Sort(names.value);
    SortKeeps(names.value);
    SameLength(paths, names.value);
    if |paths| == 0 || exists i :: 0 <= i < |paths| - 1 && paths[i].1 == paths[i + 1].1 {
      return false;
    }
    ghost var list := Listed(entries, prefix);
    EmptyStream();
    var k := 0;
    assert list[..0] == [];
    while k < |paths|
      invariant 0 <= k <= |paths|
      invariant hasher.input == Stream(list[..k])
    {
      assert list[..k + 1] == list[..k] + [list[k]];
      var relative := paths[k].1;
      var content := ContentOf(entries, prefix + relative);
      HashFile(hasher, relative, content, list[..k]);
      k := k + 1;
    }
    assert list[..k] == list;
    ok := true;
  }

  // ---- plain names ----

  /** The archive's files below a prefix, by path and content. */
  function Matching(entries: seq<Record>, prefix: Bytes): seq<PlainFile> {
    if |entries| == 0 then []
    else
      var last := entries[|entries| - 1];
      Matching(entries[..|entries| - 1], prefix)
      + (if Selected(last.0, prefix) then [(Split(last.0[|prefix|..]), last.1)] else [])
  }

  /** The name an archive file is stored under. */
  function StoredName(prefix: Bytes, f: PlainFile): Bytes {
    prefix + Join(f.0)
  }

  /** A file of the archive lies under its stored name. */
  lemma {:induction false} MatchedName(entries: seq<Record>, prefix: Bytes, f: PlainFile)
    requires f in Matching(entries, prefix)
    ensures Split(Join(f.0)) == f.0 && Selected(StoredName(prefix, f), prefix)
  {
    var n := |entries| - 1;
    if f in Matching(entries[..n], prefix) {
      MatchedName(entries[..n], prefix, f);
    } else {
      var name := entries[n].0;
      JoinSplit(name[|prefix|..]);
      assert name == prefix + name[|prefix|..];
    }
  }

  /** Looking a file up by its stored name finds a file of that path. */
  lemma {:induction false} ByNameFinds(entries: seq<Record>, prefix: Bytes, f: PlainFile)
    requires f in Matching(entries, prefix)
    ensures ByName(entries, StoredName(prefix, f)).Some?
    ensures (f.0, ByName(entries, StoredName(prefix, f)).value) in Matching(entries, prefix)
  {
    var n := |entries| - 1;
    var name := StoredName(prefix, f);
    MatchedName(entries, prefix, f);
    if f !in Matching(entries[..n], prefix) {
      LastNamed(entries, prefix, f);
    }
    if entries[n].0 == name {
      assert name[|prefix|..] == Join(f.0);
    } else {
      ByNameFinds(entries[..n], prefix, f);
    }
  }

  lemma LastNamed(entries: seq<Record>, prefix: Bytes, f: PlainFile)
    requires f in Matching(entries, prefix) && f !in Matching(entries[..|entries| - 1], prefix)
    ensures entries[|entries| - 1].0 == StoredName(prefix, f)
  {
    var name := entries[|entries| - 1].0;
    JoinSplit(name[|prefix|..]);
    assert name == prefix + name[|prefix|..];
  }

  /** Without duplicates the lookup by name finds the file itself. */
  lemma FoundIsIt(entries: seq<Record>, prefix: Bytes, files: seq<PlainFile>, k: nat)
    requires multiset(files) == multiset(Matching(entries, prefix)) && DistinctPaths(files) && k < |files|
    ensures ByName(entries, prefix + Join(files[k].0)) == Some(files[k].1)
  {
    assert files[k] in multiset(files);
    ByNameFinds(entries, prefix, files[k]);
    var found := (files[k].0, ByName(entries, prefix + Join(files[k].0)).value);
    assert found in multiset(files);
    var j :| 0 <= j < |files| && files[j] == found;
  }

  /** Files with what they are compared by and their names. */
  function KeysOf(files: seq<PlainFile>): (r: seq<(Path, Bytes)>)
    ensures |r| == |files|
  {
    seq(|files|, i requires 0 <= i < |files| => (Components(Join(files[i].0)), Join(files[i].0)))
  }

  lemma KeysAppend(files: seq<PlainFile>, f: PlainFile)
    ensures KeysOf(files + [f]) == KeysOf(files) + [(Components(Join(f.0)), Join(f.0))]
  {
  }

  lemma {:induction false} NamesAreKeys(entries: seq<Record>, prefix: Bytes)
    ensures NamesOf(entries, prefix) == KeysOf(Matching(entries, prefix))
  {
    if |entries| > 0 {
      var n := |entries| - 1;
      NamesAreKeys(entries[..n], prefix);
      if Selected(entries[n].0, prefix) {
        var relative := entries[n].0[|prefix|..];
        JoinSplit(relative);
        KeysAppend(Matching(entries[..n], prefix), (Split(relative), entries[n].1));
      }
    }
  }

  /** All paths are plain, and come back from their names. */
  ghost predicate PlainFiles(files: seq<PlainFile>) {
    forall f :: f in files ==> PlainPath(f.0) && Split(Join(f.0)) == f.0
  }

  lemma PlainKey(f: PlainFile)
    requires PlainPath(f.0) && Split(Join(f.0)) == f.0
    ensures Components(Join(f.0)) == f.0
  {
    PlainComponents(Join(f.0));
  }

  lemma {:induction false} InsertKeys(x: PlainFile, s: seq<PlainFile>)
    requires PlainFiles([x] + s)
    ensures KeysOf(Insert(x, s)) == Insert((x.0, Join(x.0)), KeysOf(s))
  {
    hide Components, Join, PathBelow;
    assert x in [x] + s;
    PlainKey(x);
    if |s| > 0 {
      assert s[0] in [x] + s;
      PlainKey(s[0]);
      assert PlainFiles([x] + s[1..]) by {
        assert forall f :: f in [x] + s[1..] ==> f in [x] + s;
      }
      InsertKeys(x, s[1..]);
      assert KeysOf(s)[1..] == KeysOf(s[1..]);
    }
  }

  lemma {:induction false} SortKeys(s: seq<PlainFile>)
    requires PlainFiles(s)
    ensures KeysOf(Sort(s)) == Sort(KeysOf(s))
  {
    hide Components, Join, PathBelow, Insert, PlainFiles;
    if |s| > 0 {
      var n := |s| - 1;
      PlainSorted(s);
      SortKeys(s[..n]);
      InsertKeys(s[n], Sort(s[..n]));
      assert KeysOf(s)[..n] == KeysOf(s[..n]);
      assert KeysOf(s)[n] == (s[n].0, Join(s[n].0));
    }
  }

  lemma PlainSorted(s: seq<PlainFile>)
    requires PlainFiles(s) && |s| > 0
    ensures var n := |s| - 1;
            && PlainFiles(s[..n]) && PlainFiles([s[n]] + Sort(s[..n]))
            && Components(Join(s[n].0)) == s[n].0
  {
    hide Components, Join, Sort, PlainPath;
    var n := |s| - 1;
    SortKeeps(s[..n]);
    PlainKey(s[n]);
    forall f | f in [s[n]] + Sort(s[..n])
      ensures f in s
    {
      if f != s[n] {
        assert f in multiset(Sort(s[..n]));
      }
    }
  }

  /** In order and with no equal neighbours means no duplicates. */
  lemma NeighboursSuffice<T>(s: seq<(Path, T)>)
    requires Ordered(s) && forall i :: 0 <= i < |s| - 1 ==> s[i].0 != s[i + 1].0
    ensures DistinctPaths(s)
  {
    forall i, j | 0 <= i < j < |s|
      ensures s[i].0 != s[j].0
    {
      assert s[i].0 != s[i + 1].0;
      PathOrder(s[i].0, s[i + 1].0, s[i].0);
      assert PathBelow(s[i].0, s[i + 1].0);
      assert i + 1 < j ==> !PathBelow(s[j].0, s[i + 1].0);
    }
  }

  /** With plain names the reader accepts exactly the archives with files and without duplicates, and
      hashes exactly the files, in path order. */
  lemma PlainArchive(entries: seq<Record>, prefix: Bytes)
    requires PlainFiles(Matching(entries, prefix)) && AllValid(entries, prefix)
    ensures Accepted(entries, prefix)
       <==> Matching(entries, prefix) != [] && DistinctPaths(Sort(Matching(entries, prefix)))
    ensures Accepted(entries, prefix) ==> Listed(entries, prefix) == Records(Sort(Matching(entries, prefix)))
  {
    hide Components, Join, PathBelow, NamesOf, Matching, Sort, AllValid, PlainPath, Ordered, ByName;
    var files := Sort(Matching(entries, prefix));
    NamesAreKeys(entries, prefix);
    SortKeys(Matching(entries, prefix));
    SortKeeps(Matching(entries, prefix));
    SameLength(files, Matching(entries, prefix));
    forall i | 0 <= i < |files|
      ensures KeysOf(files)[i] == (files[i].0, Join(files[i].0)) && Split(Join(files[i].0)) == files[i].0
    {
      assert files[i] in multiset(files);
      PlainKey(files[i]);
    }
    if NoRepeat(KeysOf(files)) {
      assert forall i :: 0 <= i < |files| - 1 ==> KeysOf(files)[i].1 != KeysOf(files)[i + 1].1;
      NeighboursSuffice(files);
      forall k | 0 <= k < |files|
        ensures ByName(entries, prefix + Join(files[k].0)) == Some(files[k].1)
      {
        FoundIsIt(entries, prefix, files, k);
      }
    }
  }

  /** A directory and an archive with the same files are hashed alike, whatever order either lists them in. */
  lemma SameHash(root: Option<Node>, walked: seq<PlainFile>, entries: seq<Record>, prefix: Bytes)
    requires Ordered(walked) && multiset(walked) == multiset(FilesOf(Contents(root)))
    requires forall f :: f in FilesOf(Contents(root)) ==> PlainPath(f.0)
    requires multiset(FilesOf(Contents(root))) == multiset(Matching(entries, prefix))
    requires Accepted(entries, prefix)
    ensures Stream(Records(walked)) == Stream(Listed(entries, prefix))
  {
    hide Ordered, PathBelow, Matching, Sort, PlainPath, Join, Contents, Stream, NamesOf, AllValid;
    forall f | f in Matching(entries, prefix)
      ensures PlainPath(f.0) && Split(Join(f.0)) == f.0
    {
      assert f in multiset(FilesOf(Contents(root)));
      MatchedName(entries, prefix, f);
    }
    PlainArchive(entries, prefix);
    SortKeeps(Matching(entries, prefix));
    DistinctDetermines(Sort(Matching(entries, prefix)));
    OrderedSame(Sort(Matching(entries, prefix)), walked);
  }

  // ---- the archive of a directory ----

  /** What an archive stores for something in a directory: a file with its content, and a directory under
      a name that ends with a slash. */
  function StoredAs(prefix: Bytes, x: (Path, Node)): Record {
    match x.1
    case File(content) => (prefix + Join(x.0), content)
    case Dir(_) => (prefix + Join(x.0) + [SLASH], [])
  }

  function ArchiveOf(prefix: Bytes, paths: seq<(Path, Node)>): (r: seq<Record>)
    ensures |r| == |paths|
  {
    seq(|paths|, i requires 0 <= i < |paths| => StoredAs(prefix, paths[i]))
  }

  /** Names that both readers take as they are. */
  predicate CleanPath(p: Path) {
    |p| > 0 && PlainPath(p) && forall i :: 0 <= i < |p| ==> p[i] != [DOT, DOT] && SLASH !in p[i] && BACKSLASH !in p[i]
  }

  lemma {:induction false} JoinClean(p: Path)
    requires CleanPath(p)
    ensures var s := Join(p); |s| > 0 && s[0] != SLASH && s[|s| - 1] != SLASH && BACKSLASH !in s
  {
    if |p| > 1 {
      JoinClean(p[1..]);
    }
  }

  /** A file with a clean path is selected under its stored name, and the name is valid. */
  lemma StoredFile(prefix: Bytes, p: Path)
    requires CleanPath(p)
    ensures var name := prefix + Join(p);
            Selected(name, prefix) && name[|prefix|..] == Join(p) && ValidRelative(Join(p)) && Split(Join(p)) == p
  {
    hide Join, Split, PlainPath;
    JoinClean(p);
    SplitJoin(p);
  }

  /** Reading an archive finds the files that were stored, and no directory. */
  lemma {:induction false} MatchingStored(prefix: Bytes, paths: seq<(Path, Node)>)
    requires forall i :: 0 <= i < |paths| ==> CleanPath(paths[i].0)
    ensures Matching(ArchiveOf(prefix, paths), prefix) == FilesOf(paths)
    ensures AllValid(ArchiveOf(prefix, paths), prefix)
  {
    hide Join, Split, CleanPath, ValidRelative, StartsWith;
    if |paths| > 0 {
      var n := |paths| - 1;
      MatchingStored(prefix, paths[..n]);
      assert ArchiveOf(prefix, paths)[..n] == ArchiveOf(prefix, paths[..n]);
      forall i | 0 <= i < n
        ensures ArchiveOf(prefix, paths)[i] == ArchiveOf(prefix, paths[..n])[i]
      {
      }
      if paths[n].1.File? {
        StoredFile(prefix, paths[n].0);
      }
    }
  }

  lemma {:induction false} MatchingAppend(a: seq<Record>, b: seq<Record>, prefix: Bytes)
    ensures Matching(a + b, prefix) == Matching(a, prefix) + Matching(b, prefix)
  {
    hide Selected, Split;
    if |b| == 0 {
      assert a + b == a;
    } else {
      assert (a + b)[..|a + b| - 1] == a + b[..|b| - 1];
      MatchingAppend(a, b[..|b| - 1], prefix);
    }
  }

  lemma {:induction false} MatchingNone(s: seq<Record>, prefix: Bytes)
    requires forall r :: r in s ==> !Selected(r.0, prefix)
    ensures Matching(s, prefix) == []
  {
    hide Selected;
    if |s| > 0 {
      assert s[|s| - 1] in s;
      MatchingNone(s[..|s| - 1], prefix);
    }
  }

  /** How often a file is found depends only on how often its entry occurs. */
  lemma {:induction false} MatchingCount(entries: seq<Record>, prefix: Bytes, f: PlainFile)
    ensures multiset(Matching(entries, prefix))[f]
         == if Selected(StoredName(prefix, f), prefix) && Split(Join(f.0)) == f.0
            then multiset(entries)[(StoredName(prefix, f), f.1)] else 0
  {
    hide Join, Split;
    if |entries| > 0 {
      var head, last := entries[..|entries| - 1], entries[|entries| - 1];
      MatchingCount(head, prefix, f);
      CountLast(entries, (StoredName(prefix, f), f.1));
      MatchingLast(entries, prefix);
      SelectedIs(last, prefix, f);
      hide Matching, Selected, StoredName;
      if Selected(last.0, prefix) {
        CountAppend(Matching(head, prefix), (Split(last.0[|prefix|..]), last.1), f);
      }
    }
  }

  lemma MatchingLast(entries: seq<Record>, prefix: Bytes)
    requires |entries| > 0
    ensures var head, last := entries[..|entries| - 1], entries[|entries| - 1];
            var before := Matching(head, prefix);
            Matching(entries, prefix)
            == if Selected(last.0, prefix) then before + [(Split(last.0[|prefix|..]), last.1)] else before
  {
    hide Split;
  }

  /** Which file an entry is. */
  lemma SelectedIs(r: Record, prefix: Bytes, f: PlainFile)
    ensures Selected(r.0, prefix) && (Split(r.0[|prefix|..]), r.1) == f
       <==> Selected(StoredName(prefix, f), prefix) && Split(Join(f.0)) == f.0 && r == (StoredName(prefix, f), f.1)
  {
    hide Join, Split;
    if Selected(r.0, prefix) {
      var relative := r.0[|prefix|..];
      assert r.0 == prefix + relative;
      JoinSplit(relative);
    }
    assert StoredName(prefix, f)[|prefix|..] == Join(f.0);
  }

  lemma SameMatching(a: seq<Record>, b: seq<Record>, prefix: Bytes)
    requires multiset(a) == multiset(b)
    ensures multiset(Matching(a, prefix)) == multiset(Matching(b, prefix))
    ensures AllValid(a, prefix) ==> AllValid(b, prefix)
  {
    hide Matching, Selected, ValidRelative;
    forall f: PlainFile
      ensures multiset(Matching(a, prefix))[f] == multiset(Matching(b, prefix))[f]
    {
      MatchingCount(a, prefix, f);
      MatchingCount(b, prefix, f);
    }
    forall i | 0 <= i < |b|
      ensures b[i] in a
    {
      assert b[i] in multiset(b);
    }
  }

  /** An archive with everything below a directory, directories included, in any order and among any
      entries from elsewhere, is accepted, and hashed like the directory. */
  lemma ArchivedAlike(root: Node, prefix: Bytes, walked: seq<PlainFile>, entries: seq<Record>, others: seq<Record>)
    requires root.Dir? && DistinctNames(root)
    requires forall i :: 0 <= i < |Contents(Some(root))| ==> CleanPath(Contents(Some(root))[i].0)
    requires Ordered(walked) && multiset(walked) == multiset(FilesOf(Contents(Some(root)))) && walked != []
    requires forall r :: r in others ==> !Selected(r.0, prefix)
    requires multiset(entries) == multiset(ArchiveOf(prefix, Contents(Some(root))) + others)
    ensures Accepted(entries, prefix) && Stream(Records(walked)) == Stream(Listed(entries, prefix))
  {
    hide Matching, Contents, Ordered, DistinctPaths, DistinctNames, AllValid, Accepted, Selected, ArchiveOf, Stream,
         Listed, PlainFiles, CleanPath, Records, Sort, FilesOf;
    var paths := Contents(Some(root));
    var files := FilesOf(paths);
    FoundAgain(prefix, paths, entries, others);
    CleanFiles(paths);
    var sorted := Sort(Matching(entries, prefix));
    SortKeeps(Matching(entries, prefix));
    SamePlain(files, Matching(entries, prefix));
    PlainArchive(entries, prefix);
    ContentsDistinct(Some(root));
    FilesDistinct(paths);
    SameDistinct(files, sorted);
    DistinctDetermines(sorted);
    OrderedSame(sorted, walked);
    SameLength(walked, Matching(entries, prefix));
  }

  lemma FoundAgain(prefix: Bytes, paths: seq<(Path, Node)>, entries: seq<Record>, others: seq<Record>)
    requires forall i :: 0 <= i < |paths| ==> CleanPath(paths[i].0)
    requires forall r :: r in others ==> !Selected(r.0, prefix)
    requires multiset(entries) == multiset(ArchiveOf(prefix, paths) + others)
    ensures multiset(Matching(entries, prefix)) == multiset(FilesOf(paths)) && AllValid(entries, prefix)
  {
    hide Matching, AllValid, ArchiveOf, CleanPath, FilesOf;
    var stored := ArchiveOf(prefix, paths);
    MatchingStored(prefix, paths);
    WithOthers(stored, others, prefix);
    SameMatching(stored + others, entries, prefix);
  }

  lemma WithOthers(stored: seq<Record>, others: seq<Record>, prefix: Bytes)
    requires AllValid(stored, prefix) && forall r :: r in others ==> !Selected(r.0, prefix)
    ensures Matching(stored + others, prefix) == Matching(stored, prefix) && AllValid(stored + others, prefix)
  {
    hide Matching, Selected, ValidRelative;
    MatchingAppend(stored, others, prefix);
    MatchingNone(others, prefix);
    var all := stored + others;
    forall i | 0 <= i < |all|
      ensures all[i] in stored || all[i] in others
    {
      assert all[i] == if i < |stored| then stored[i] else others[i - |stored|];
    }
  }

  lemma CleanFiles(paths: seq<(Path, Node)>)
    requires forall i :: 0 <= i < |paths| ==> CleanPath(paths[i].0)
    ensures PlainFiles(FilesOf(paths))
  {
    hide PlainPath, Join, Split;
    forall f | f in FilesOf(paths)
      ensures PlainPath(f.0) && Split(Join(f.0)) == f.0
    {
      FileIsThere(paths, f);
      var k :| 0 <= k < |paths| && paths[k] == (f.0, File(f.1));
      assert CleanPath(paths[k].0);
      SplitJoin(f.0);
    }
  }

  lemma SamePlain(a: seq<PlainFile>, b: seq<PlainFile>)
    requires PlainFiles(a) && multiset(a) == multiset(b)
    ensures PlainFiles(b)
  {
    hide PlainPath, Join, Split;
    forall f | f in b
      ensures f in a
    {
      assert f in multiset(b);
    }
  }

  /** Whether paths are distinct does not depend on the order. */
  lemma SameDistinct(a: seq<PlainFile>, b: seq<PlainFile>)
    requires DistinctPaths(a) && multiset(a) == multiset(b)
    ensures DistinctPaths(b)
  {
    forall i, j | 0 <= i < j < |b|
      ensures b[i].0 != b[j].0
    {
      if b[i].0 == b[j].0 {
        assert b[i] in multiset(a) && b[j] in multiset(a);
        assert b[i] == b[j];
        TwiceIn(b, i, j);
        OnceIn(a, b[i]);
      }
    }
  }

  lemma TwiceIn(s: seq<PlainFile>, i: nat, j: nat)
    requires i < j < |s| && s[i] == s[j]
    ensures multiset(s)[s[i]] >= 2
  {
    assert s == s[..j] + s[j..] && s[i] in s[..j] && s[j] in s[j..];
    assert multiset(s) == multiset(s[..j]) + multiset(s[j..]);
    assert s[i] in multiset(s[..j]) && s[j] in multiset(s[j..]);
  }

  lemma {:induction false} OnceIn(s: seq<PlainFile>, f: PlainFile)
    requires DistinctPaths(s)
    ensures multiset(s)[f] <= 1
  {
    if |s| > 0 {
      var n := |s| - 1;
      assert s == s[..n] + [s[n]];
      OnceIn(s[..n], f);
      if f == s[n] {
        assert f !in s[..n];
      }
    }
  }

  // ---- names that compare alike ----

  lemma {:induction false} NamesAppend(a: seq<Record>, b: seq<Record>, prefix: Bytes)
    ensures NamesOf(a + b, prefix) == NamesOf(a, prefix) + NamesOf(b, prefix)
  {
    hide Selected, Components;
    if |b| == 0 {
      assert a + b == a;
    } else {
      assert (a + b)[..|a + b| - 1] == a + b[..|b| - 1];
      NamesAppend(a, b[..|b| - 1], prefix);
    }
  }

  lemma OneName(r: Record, prefix: Bytes)
    requires Selected(r.0, prefix)
    ensures NamesOf([r], prefix) == [(Components(r.0[|prefix|..]), r.0[|prefix|..])]
  {
    hide Selected, Components;
    assert [r][..0] == [];
  }

  /** Taking one entry out of its place. */
  lemma NamesAround(s: seq<Record>, i: nat, prefix: Bytes)
    requires i < |s|
    ensures NamesOf(s, prefix) == NamesOf(s[..i], prefix) + NamesOf([s[i]], prefix) + NamesOf(s[i + 1..], prefix)
  {
    hide NamesOf;
    assert s == s[..i] + [s[i]] + s[i + 1..];
    NamesAppend(s[..i] + [s[i]], s[i + 1..], prefix);
    NamesAppend(s[..i], [s[i]], prefix);
  }

  /** The names do not depend on the order of the entries, except for their own order. */
  lemma {:induction false} NamesCount(a: seq<Record>, b: seq<Record>, prefix: Bytes)
    requires multiset(a) == multiset(b)
    ensures multiset(NamesOf(a, prefix)) == multiset(NamesOf(b, prefix))
    decreases |a|
  {
    hide NamesOf;
    SameLength(a, b);
    if |a| > 0 {
      assert a[0] in multiset(b);
      var j :| 0 <= j < |b| && b[j] == a[0];
      var rest := b[..j] + b[j + 1..];
      OneLess(a, b, j);
      NamesCount(a[1..], rest, prefix);
      assert a == [a[0]] + a[1..];
      NamesAppend([a[0]], a[1..], prefix);
      NamesAround(b, j, prefix);
      NamesAppend(b[..j], b[j + 1..], prefix);
    }
  }

  lemma OneLess<T>(a: seq<T>, b: seq<T>, j: nat)
    requires multiset(a) == multiset(b) && |a| > 0 && j < |b| && b[j] == a[0]
    ensures multiset(a[1..]) == multiset(b[..j] + b[j + 1..])
  {
    assert a == [a[0]] + a[1..] && b == b[..j] + [b[j]] + b[j + 1..];
    assert multiset(a[1..]) == multiset(a) - multiset{a[0]};
    assert multiset(b[..j]) + multiset(b[j + 1..]) == multiset(b) - multiset{b[j]};
  }

  /** Where a name comes from. */
  lemma {:induction false} NameFrom(entries: seq<Record>, prefix: Bytes, x: (Path, Bytes)) returns (i: nat)
    requires x in NamesOf(entries, prefix)
    ensures i < |entries| && Selected(entries[i].0, prefix)
    ensures x == (Components(x.1), x.1) && entries[i].0 == prefix + x.1
  {
    hide Components;
    var n := |entries| - 1;
    if x in NamesOf(entries[..n], prefix) {
      i := NameFrom(entries[..n], prefix, x);
    } else {
      i := n;
    }
  }

  lemma NameOf(entries: seq<Record>, prefix: Bytes, i: nat)
    requires i < |entries| && Selected(entries[i].0, prefix)
    ensures (Components(entries[i].0[|prefix|..]), entries[i].0[|prefix|..]) in NamesOf(entries, prefix)
  {
    hide NamesOf;
    NamesAround(entries, i, prefix);
    OneName(entries[i], prefix);
  }

  lemma {:induction false} CountOnce<T>(s: seq<(Path, T)>, x: (Path, T))
    requires DistinctPaths(s)
    ensures multiset(s)[x] <= 1
  {
    if |s| > 0 {
      var n := |s| - 1;
      CountOnce(s[..n], x);
      assert s == s[..n] + [s[n]];
      assert x in s[..n] ==> x != s[n];
    }
  }

  lemma DistinctSame<T>(s: seq<(Path, T)>, t: seq<(Path, T)>)
    requires multiset(s) == multiset(t) && DistinctPaths(s)
    ensures DistinctPaths(t)
  {
    forall i, j | 0 <= i < j < |t|
      ensures t[i].0 != t[j].0
    {
      assert t[i] in multiset(s) && t[j] in multiset(s);
      if t[i].0 == t[j].0 {
        CountOnce(s, t[i]);
        CountTwice(t, i, j);
        assert false;
      }
    }
  }

  lemma CountTwice<T>(t: seq<T>, i: nat, j: nat)
    requires i < j < |t| && t[i] == t[j]
    ensures multiset(t)[t[i]] >= 2
  {
    assert t == t[..i] + [t[i]] + t[i + 1..j] + [t[j]] + t[j + 1..];
  }

  /** When no two files compare alike each is found under its name. */
  lemma {:induction false} OneNamed(entries: seq<Record>, prefix: Bytes, i: nat)
    requires i < |entries| && Selected(entries[i].0, prefix) && DistinctPaths(NamesOf(entries, prefix))
    ensures ByName(entries, entries[i].0) == Some(entries[i].1)
  {
    hide Components;
    var n := |entries| - 1;
    if i < n {
      NameOf(entries[..n], prefix, i);
      var names, key := NamesOf(entries[..n], prefix), Components(entries[i].0[|prefix|..]);
      var k :| 0 <= k < |names| && names[k] == (key, entries[i].0[|prefix|..]);
      RepeatedKey(names, (key, entries[i].0[|prefix|..]), k);
      assert forall k :: 0 <= k < |names| ==> NamesOf(entries, prefix)[k] == names[k];
      OneNamed(entries[..n], prefix, i);
    }
  }

  lemma RepeatedKey<T>(s: seq<(Path, T)>, x: (Path, T), k: nat)
    requires k < |s| && s[k].0 == x.0
    ensures !DistinctPaths(s + [x])
  {
    assert (s + [x])[k].0 == (s + [x])[|s|].0;
  }

  /** When no two files compare alike the order of the archive does not matter. */
  lemma OrderDoesNotMatter(a: seq<Record>, b: seq<Record>, prefix: Bytes)
    requires multiset(a) == multiset(b) && DistinctPaths(NamesOf(a, prefix))
    ensures Listed(a, prefix) == Listed(b, prefix)
  {
    hide NamesOf, Sort, Components, Selected, Ordered, PathBelow, ByName;
    var s, t := Sort(NamesOf(a, prefix)), Sort(NamesOf(b, prefix));
    NamesCount(a, b, prefix);
    SortKeeps(NamesOf(a, prefix));
    SortKeeps(NamesOf(b, prefix));
    DistinctSame(NamesOf(a, prefix), s);
    DistinctSame(NamesOf(a, prefix), NamesOf(b, prefix));
    DistinctDetermines(s);
    OrderedSame(s, t);
    forall k | 0 <= k < |s|
      ensures ByName(a, prefix + s[k].1) == ByName(b, prefix + s[k].1)
    {
      assert s[k] in multiset(NamesOf(a, prefix));
      var i := NameFrom(a, prefix, s[k]);
      assert a[i] in multiset(b);
      var j :| 0 <= j < |b| && b[j] == a[i];
      OneNamed(a, prefix, i);
      OneNamed(b, prefix, j);
    }
  }

  // ---- stability ----

  /** The part of a list that compares as `p`. */
  function Run<T>(p: Path, s: seq<(Path, T)>): seq<(Path, T)> {
    if |s| == 0 then []
    else Run(p, s[..|s| - 1]) + (if s[|s| - 1].0 == p then [s[|s| - 1]] else [])
  }

  lemma {:induction false} RunAppend<T>(p: Path, a: seq<(Path, T)>, b: seq<(Path, T)>)
    ensures Run(p, a + b) == Run(p, a) + Run(p, b)
  {
    if |b| == 0 {
      assert a + b == a;
    } else {
      assert (a + b)[..|a + b| - 1] == a + b[..|b| - 1];
      RunAppend(p, a, b[..|b| - 1]);
    }
  }

  lemma RunOfOne<T>(p: Path, x: (Path, T))
    ensures Run(p, [x]) == if x.0 == p then [x] else []
  {
    assert [x][..0] == [];
  }

  lemma {:induction false} RunNone<T>(p: Path, s: seq<(Path, T)>)
    requires forall i :: 0 <= i < |s| ==> s[i].0 != p
    ensures Run(p, s) == []
  {
    if |s| > 0 {
      RunNone(p, s[..|s| - 1]);
    }
  }

  lemma {:induction false} InsertRun<T>(p: Path, x: (Path, T), s: seq<(Path, T)>)
    requires Ordered(s)
    ensures Run(p, Insert(x, s)) == Run(p, s) + (if x.0 == p then [x] else [])
  {
    hide PathBelow, Run, Ordered;
    RunOfOne(p, x);
    if |s| == 0 {
      RunNone(p, s);
      assert Insert(x, s) == [x];
    } else {
      assert s == [s[0]] + s[1..];
      OrderedCons(s[0], s[1..]);
      if PathBelow(x.0, s[0].0) {
        RunAppend(p, [x], s);
        if x.0 == p {
          forall i | 0 <= i < |s|
            ensures s[i].0 != p
          {
            PathOrder(p, s[0].0, p);
            assert i > 0 ==> s[i] == s[1..][i - 1];
          }
          RunNone(p, s);
        }
      } else {
        RunAppend(p, [s[0]], Insert(x, s[1..]));
        RunAppend(p, [s[0]], s[1..]);
        InsertRun(p, x, s[1..]);
      }
    }
  }

  /** Sorting is stable: what compares alike stays in its order. */
  lemma {:induction false} SortRun<T>(p: Path, s: seq<(Path, T)>)
    ensures Run(p, Sort(s)) == Run(p, s)
  {
    if |s| > 0 {
      var n := |s| - 1;
      SortRun(p, s[..n]);
      SortKeeps(s[..n]);
      InsertRun(p, s[n], Sort(s[..n]));
    }
  }

  /** Two entries exchanged. */
  function Exchanged(s: seq<Record>, p: nat, q: nat): (r: seq<Record>)
    requires p < q < |s|
    ensures multiset(r) == multiset(s)
  {
    assert s == s[..p] + [s[p]] + s[p + 1..q] + [s[q]] + s[q + 1..];
    s[..p] + [s[q]] + s[p + 1..q] + [s[p]] + s[q + 1..]
  }

  /** Exchanging two files that compare alike exchanges their names in the list. */
  lemma ExchangeShows(entries: seq<Record>, prefix: Bytes, p: nat, q: nat)
    requires p < q < |entries| && Selected(entries[p].0, prefix) && Selected(entries[q].0, prefix)
    requires Components(entries[p].0[|prefix|..]) == Components(entries[q].0[|prefix|..])
    requires entries[p].0 != entries[q].0
    ensures Listed(Exchanged(entries, p, q), prefix) != Listed(entries, prefix)
  {
    hide NamesOf, Sort, Components, Run, ByName;
    var other := Exchanged(entries, p, q);
    var key := Components(entries[p].0[|prefix|..]);
    assert entries[p].0 == prefix + entries[p].0[|prefix|..] && entries[q].0 == prefix + entries[q].0[|prefix|..];
    RunAt(entries, prefix, p);
    RunAt(other, prefix, p);
    assert other[..p] == entries[..p];
    SortRun(key, NamesOf(entries, prefix));
    SortRun(key, NamesOf(other, prefix));
    var s, t := Sort(NamesOf(entries, prefix)), Sort(NamesOf(other, prefix));
    assert s != t;
    if Listed(other, prefix) == Listed(entries, prefix) {
      assert |s| == |Listed(entries, prefix)| == |t|;
      forall k | 0 <= k < |s|
        ensures s[k] == t[k]
      {
        assert Listed(entries, prefix)[k].0 == s[k].1 && Listed(other, prefix)[k].0 == t[k].1;
        SortedKey(entries, prefix, k);
        SortedKey(other, prefix, k);
      }
      assert false;
    }
  }

  lemma SortedKey(entries: seq<Record>, prefix: Bytes, k: nat)
    requires k < |Sort(NamesOf(entries, prefix))|
    ensures Sort(NamesOf(entries, prefix))[k].0 == Components(Sort(NamesOf(entries, prefix))[k].1)
  {
    hide NamesOf, Sort, Components;
    var s := Sort(NamesOf(entries, prefix));
    SortKeeps(NamesOf(entries, prefix));
    assert s[k] in multiset(NamesOf(entries, prefix));
    var i := NameFrom(entries, prefix, s[k]);
  }

  /** Where entry `p` stands among the files that compare like it. */
  lemma RunAt(entries: seq<Record>, prefix: Bytes, p: nat)
    requires p < |entries| && Selected(entries[p].0, prefix)
    ensures var relative := entries[p].0[|prefix|..];
            var key := Components(relative);
            var before, run := Run(key, NamesOf(entries[..p], prefix)), Run(key, NamesOf(entries, prefix));
            |before| < |run| && run[|before|] == (key, relative)
  {
    hide NamesOf, Components, Run;
    var key := Components(entries[p].0[|prefix|..]);
    NamesAround(entries, p, prefix);
    OneName(entries[p], prefix);
    var a, b, c := NamesOf(entries[..p], prefix), NamesOf([entries[p]], prefix), NamesOf(entries[p + 1..], prefix);
    RunAppend(key, a + b, c);
    RunAppend(key, a, b);
    RunOfOne(key, b[0]);
  }

  /** The order in which an archive lists its files is without influence exactly when no two of them
      compare alike. */
  lemma OrderMattersExactly(entries: seq<Record>, prefix: Bytes)
    requires Accepted(entries, prefix)
    ensures (forall other :: multiset(other) == multiset(entries) ==> Listed(other, prefix) == Listed(entries, prefix))
       <==> DistinctPaths(NamesOf(entries, prefix))
  {
    hide NamesOf, Sort, Components, Selected, Ordered, PathBelow, ByName, AllValid, Listed;
    if DistinctPaths(NamesOf(entries, prefix)) {
      forall other | multiset(other) == multiset(entries)
        ensures Listed(other, prefix) == Listed(entries, prefix)
      {
        OrderDoesNotMatter(entries, other, prefix);
      }
    } else {
      var s := Sort(NamesOf(entries, prefix));
      SortKeeps(NamesOf(entries, prefix));
      if DistinctPaths(s) {
        DistinctSame(s, NamesOf(entries, prefix));
      }
      if forall i :: 0 <= i < |s| - 1 ==> s[i].0 != s[i + 1].0 {
        NeighboursSuffice(s);
      }
      var k :| 0 <= k < |s| - 1 && s[k].0 == s[k + 1].0;
      assert s[k] in multiset(NamesOf(entries, prefix)) && s[k + 1] in multiset(NamesOf(entries, prefix));
      assert s[k].1 != s[k + 1].1;
      var p := NameFrom(entries, prefix, s[k]);
      var q := NameFrom(entries, prefix, s[k + 1]);
      assert entries[p].0[|prefix|..] == s[k].1 && entries[q].0[|prefix|..] == s[k + 1].1;
      if p < q {
        ExchangeShows(entries, prefix, p, q);
      } else {
        ExchangeShows(entries, prefix, q, p);
      }
    }
  }

  /** Two such files: `a/b` and `a//b`. */
  lemma DoubledSlash(x: Bytes, y: Bytes)
    ensures var entries: seq<Record> := [([0x61, SLASH, 0x62], x), ([0x61, SLASH, SLASH, 0x62], y)];
            Accepted(entries, []) && !DistinctPaths(NamesOf(entries, []))
  {
    hide NamesOf, Sort, Components, Selected, ValidRelative, Split;
    var a, b: Bytes := [0x61, SLASH, 0x62], [0x61, SLASH, SLASH, 0x62];
    var key: Path := [[0x61], [0x62]];
    SmallParts();
    SmallValid();
    var first, second: (Path, Bytes) := (key, a), (key, b);
    var prefix: Bytes := [];
    assert a[|prefix|..] == a && b[|prefix|..] == b;
    TwoNames((a, x), (b, y), prefix);
    TwoAlike(first, second);
    assert [first, second][0].0 == [first, second][1].0;
    assert |a| != |b|;
  }

  lemma TwoNames(r: Record, t: Record, prefix: Bytes)
    requires Selected(r.0, prefix) && Selected(t.0, prefix)
    ensures NamesOf([r, t], prefix)
         == [(Components(r.0[|prefix|..]), r.0[|prefix|..]), (Components(t.0[|prefix|..]), t.0[|prefix|..])]
  {
    hide NamesOf, Components;
    assert [r, t] == [r] + [t];
    NamesAppend([r], [t], prefix);
    OneName(r, prefix);
    OneName(t, prefix);
  }

  lemma TwoAlike<T>(x: (Path, T), y: (Path, T))
    requires x.0 == y.0
    ensures Sort([x, y]) == [x, y]
  {
    hide PathBelow;
    PathOrder(x.0, x.0, x.0);
    assert [x, y][..1] == [x] && [x][..0] == [] && [x][1..] == [];
    assert Sort([x]) == Insert(x, []) == [x];
    assert Insert(y, [x]) == [x] + Insert(y, []);
  }

  lemma SmallValid()
    ensures var a, b: Bytes := [0x61, SLASH, 0x62], [0x61, SLASH, SLASH, 0x62];
            Selected(a, []) && Selected(b, []) && ValidRelative(a) && ValidRelative(b)
  {
    hide Split, Components;
    var a, b: Bytes := [0x61, SLASH, 0x62], [0x61, SLASH, SLASH, 0x62];
    SmallParts();
    assert a[..0] == [] && b[..0] == [];
    assert [DOT, DOT] !in Split(a) && [DOT, DOT] !in Split(b) by {
      assert forall p :: p in Split(a) || p in Split(b) ==> |p| < 2;
    }
  }

  lemma SmallParts()
    ensures Split([0x61, SLASH, 0x62]) == [[0x61], [0x62]] && Components([0x61, SLASH, 0x62]) == [[0x61], [0x62]]
    ensures Split([0x61, SLASH, SLASH, 0x62]) == [[0x61], [], [0x62]]
    ensures Components([0x61, SLASH, SLASH, 0x62]) == [[0x61], [0x62]]
  {
    var a, b: Bytes := [0x61, SLASH, 0x62], [0x61, SLASH, SLASH, 0x62];
    SplitPlain([0x61]);
    SplitPlain([0x62]);
    SplitPlain([]);
    SplitPart([0x61], [0x62]);
    SplitPart([], [0x62]);
    SplitPart([0x61], [SLASH] + [0x62]);
    var none: Bytes := [];
    assert none + ([SLASH] + [0x62]) == [SLASH] + [0x62];
    assert [0x61] + ([SLASH] + [0x62]) == a && [0x61] + ([SLASH] + ([SLASH] + [0x62])) == b;
    assert Split(a) == [[0x61], [0x62]] && Split(b) == [[0x61], [], [0x62]];
    var one: Path := [[0x62]];
    var two: Path := [[], [0x62]];
    assert one[1..] == [] && two[1..] == one && Split(a)[1..] == one && Split(b)[1..] == two;
    assert Split(a)[0] == [0x61] && [0x61][0] != DOT && [0x62][0] != DOT;
    assert Named(one) == one && Named(two) == one;
    assert Named(Split(a)) == [[0x61]] + one && Named(Split(b)) == [[0x61]] + one;
  }
}
