/** Reading a tree of files from a directory. */
module TreeWalk {
  import opened TreeHash
  import opened Wrappers

  // ---- sorting by path ----

  /** In order: nothing comes before something it should follow. */
  predicate Ordered<T>(s: seq<(Path, T)>) {
    forall i, j :: 0 <= i < j < |s| ==> !PathBelow(s[j].0, s[i].0)
  }

  predicate DistinctPaths<T>(s: seq<(Path, T)>) {
    forall i, j :: 0 <= i < j < |s| ==> s[i].0 != s[j].0
  }

  function Insert<T>(x: (Path, T), s: seq<(Path, T)>): seq<(Path, T)> {
    if |s| == 0 then [x] else if PathBelow(x.0, s[0].0) then [x] + s else [s[0]] + Insert(x, s[1..])
  }

  function Sort<T>(s: seq<(Path, T)>): seq<(Path, T)> {
    if |s| == 0 then [] else Insert(s[|s| - 1], Sort(s[..|s| - 1]))
  }

  /** Everything in `s` comes no earlier than `p`. */
  predicate From<T>(p: Path, s: seq<(Path, T)>) {
    forall i :: 0 <= i < |s| ==> !PathBelow(s[i].0, p)
  }

  lemma {:induction false} InsertFrom<T>(p: Path, x: (Path, T), s: seq<(Path, T)>)
    requires From(p, s) && !PathBelow(x.0, p)
    ensures From(p, Insert(x, s))
  {
    if |s| > 0 && !PathBelow(x.0, s[0].0) {
      InsertFrom(p, x, s[1..]);
    }
  }

  lemma FromLater<T>(p: Path, q: Path, s: seq<(Path, T)>)
    requires From(q, s) && PathBelow(p, q)
    ensures From(p, s)
  {
    forall i | 0 <= i < |s|
      ensures !PathBelow(s[i].0, p)
    {
      PathOrder(s[i].0, p, q);
    }
  }

  lemma OrderedCons<T>(x: (Path, T), s: seq<(Path, T)>)
    ensures Ordered([x] + s) <==> Ordered(s) && From(x.0, s)
  {
    var t := [x] + s;
    assert forall i :: 0 <= i < |s| ==> t[i + 1] == s[i];
    if Ordered(t) {
      forall i, j | 0 <= i < j < |s|
        ensures !PathBelow(s[j].0, s[i].0)
      {
        assert !PathBelow(t[j + 1].0, t[i + 1].0);
      }
      forall i | 0 <= i < |s|
        ensures !PathBelow(s[i].0, x.0)
      {
        assert !PathBelow(t[i + 1].0, t[0].0);
      }
    }
  }

  lemma {:induction false} InsertKeeps<T>(x: (Path, T), s: seq<(Path, T)>)
    requires Ordered(s)
    ensures Ordered(Insert(x, s)) && multiset(Insert(x, s)) == multiset(s) + multiset{x}
  {
    hide Ordered, From, PathBelow;
    if |s| > 0 {
      assert s == [s[0]] + s[1..];
      OrderedCons(s[0], s[1..]);
      if PathBelow(x.0, s[0].0) {
        FromLater(x.0, s[0].0, s[1..]);
        FromCons(x.0, s[0], s[1..]);
        OrderedCons(x, s);
      } else {
        InsertKeeps(x, s[1..]);
        InsertFrom(s[0].0, x, s[1..]);
        OrderedCons(s[0], Insert(x, s[1..]));
      }
    } else {
      OrderedCons(x, s);
      FromNothing<T>(x.0);
      assert [x] + s == [x];
    }
  }

  lemma FromCons<T>(p: Path, x: (Path, T), s: seq<(Path, T)>)
    requires From(p, s) && PathBelow(p, x.0)
    ensures From(p, [x] + s)
  {
    PathOrder(p, x.0, p);
  }

  lemma FromNothing<T>(p: Path)
    ensures From<T>(p, [])
  {
  }

  lemma {:induction false} SortKeeps<T>(s: seq<(Path, T)>)
    ensures Ordered(Sort(s)) && multiset(Sort(s)) == multiset(s)
  {
    if |s| > 0 {
      var n := |s| - 1;
      SortKeeps(s[..n]);
      InsertKeeps(s[n], Sort(s[..n]));
      assert s == s[..n] + [s[n]];
    }
  }

  /** What compares alike is the same. */
  predicate KeyDetermines<T(==)>(s: seq<(Path, T)>) {
    forall i, j :: 0 <= i < j < |s| && s[i].0 == s[j].0 ==> s[i] == s[j]
  }

  lemma DistinctDetermines<T>(s: seq<(Path, T)>)
    requires DistinctPaths(s)
    ensures KeyDetermines(s)
  {
  }

  lemma TailCount<T>(s: seq<T>)
    requires |s| > 0
    ensures s == [s[0]] + s[1..] && multiset(s[1..]) == multiset(s) - multiset{s[0]}
  {
    assert s == [s[0]] + s[1..];
  }

  /** There is one way to put a list in order in which no two different things compare alike. */
  lemma {:induction false} OrderedSame<T>(a: seq<(Path, T)>, b: seq<(Path, T)>)
    requires Ordered(a) && Ordered(b) && KeyDetermines(a) && multiset(a) == multiset(b)
    ensures a == b
  {
    SameLength(a, b);
    if |a| > 0 {
      FirstSame(a, b);
      TailCount(a);
      TailCount(b);
      OrderedSame(a[1..], b[1..]);
    }
  }

  lemma FirstSame<T>(a: seq<(Path, T)>, b: seq<(Path, T)>)
    requires Ordered(a) && Ordered(b) && KeyDetermines(a) && multiset(a) == multiset(b) && |a| > 0 && |b| > 0
    ensures a[0] == b[0]
  {
    hide PathBelow;
    assert a[0] in multiset(b) && b[0] in multiset(a);
    var i :| 0 <= i < |a| && a[i] == b[0];
    var j :| 0 <= j < |b| && b[j] == a[0];
    assert i > 0 ==> !PathBelow(a[i].0, a[0].0);
    assert j > 0 ==> !PathBelow(b[j].0, b[0].0);
    PathOrder(a[0].0, b[0].0, b[0].0);
  }

  lemma SameLength<T>(a: seq<T>, b: seq<T>)
    requires multiset(a) == multiset(b)
    ensures |a| == |b|
  {
    assert |multiset(a)| == |multiset(b)|;
  }

  // ---- directories ----

  datatype Node = File(content: Bytes) | Dir(entries: seq<Entry>)
  datatype Entry = Entry(name: Bytes, node: Node)

  /** Everything below a directory, files and directories, with its path. */
  function All(d: Path, n: Node): seq<(Path, Node)>
    decreases n, 1, 0
  {
    if n.File? then [] else AllFrom(d, n, 0)
  }

  function AllFrom(d: Path, n: Node, k: nat): seq<(Path, Node)>
    requires n.Dir? && k <= |n.entries|
    decreases n, 0, |n.entries| - k
  {
    if k == |n.entries| then []
    else
      var e := n.entries[k];
      [(d + [e.name], e.node)] + All(d + [e.name], e.node) + AllFrom(d, n, k + 1)
  }

  function AllOf(pending: seq<(Path, Node)>): seq<(Path, Node)> {
    if |pending| == 0 then []
    else
      var last := pending[|pending| - 1];
      AllOf(pending[..|pending| - 1]) + All(last.0, last.1)
  }

  /** What there is at a root: nothing, one file, or a directory with everything below it. */
  function Contents(root: Option<Node>): seq<(Path, Node)> {
    match root
    case None => []
    case Some(n) => if n.File? then [([], n)] else All([], n)
  }

  // ---- what is in it ----

  /** Descending from a node by the names of a path leads to `m`. */
  predicate At(n: Node, path: Path, m: Node)
    decreases |path|, 1
  {
    if |path| == 0 then n == m else n.Dir? && AtFrom(n, 0, path, m)
  }

  /** The first step goes to an entry from the k-th on. */
  predicate AtFrom(n: Node, k: nat, path: Path, m: Node)
    requires n.Dir? && |path| > 0
    decreases |path|, 0
  {
    exists i :: k <= i < |n.entries| && n.entries[i].name == path[0] && At(n.entries[i].node, path[1..], m)
  }

  predicate Under(d: Path, p: Path) {
    |d| < |p| && p[..|d|] == d
  }

  /** What is listed below a directory is what descending by names leads to. */
  lemma {:induction false} AllIsAt(d: Path, n: Node, p: Path, m: Node)
    ensures (p, m) in All(d, n) <==> Under(d, p) && At(n, p[|d|..], m)
    decreases n, 1, 0
  {
    hide AllFrom, AtFrom;
    if n.Dir? {
      AllFromIsAt(d, n, 0, p, m);
    }
  }

  lemma {:induction false} AllFromIsAt(d: Path, n: Node, k: nat, p: Path, m: Node)
    requires n.Dir? && k <= |n.entries|
    ensures (p, m) in AllFrom(d, n, k) <==> Under(d, p) && AtFrom(n, k, p[|d|..], m)
    decreases n, 0, |n.entries| - k
  {
    hide All, AllFrom;
    AllIs(d, n);
    if k < |n.entries| {
      var e := n.entries[k];
      AllFromStep(d, n, k);
      AllIsAt(d + [e.name], e.node, p, m);
      AllFromIsAt(d, n, k + 1, p, m);
      if Under(d, p) {
        var q := p[|d|..];
        assert p[..|d| + 1] == d + [q[0]] && p[|d| + 1..] == q[1..];
        assert p == d + q;
        assert q[1..] == [] ==> q == [q[0]];
      } else {
        assert !Under(d + [e.name], p) by {
          assert (d + [e.name])[..|d|] == d;
          assert |p| > |d| + 1 ==> p[..|d| + 1][..|d|] == p[..|d|];
        }
      }
    }
  }

  /** Exactly what a root holds: itself if it is a file, and otherwise whatever lies deeper in it. */
  lemma ContentsAre(root: Option<Node>, p: Path, m: Node)
    ensures (p, m) in Contents(root)
       <==> root.Some? && At(root.value, p, m) && (root.value.File? || p != [])
  {
    hide AtFrom, All;
    if root.Some? {
      AllIsAt([], root.value, p, m);
      assert p[0..] == p;
    }
  }

  /** No directory holds a name twice. */
  predicate DistinctNames(n: Node)
    decreases n
  {
    n.Dir? ==>
      && (forall i, j :: 0 <= i < j < |n.entries| ==> n.entries[i].name != n.entries[j].name)
      && (forall i :: 0 <= i < |n.entries| ==> DistinctNames(n.entries[i].node))
  }

  lemma {:induction false} AllDistinct(d: Path, n: Node)
    requires DistinctNames(n)
    ensures DistinctPaths(All(d, n))
    decreases n, 1, 0
  {
    hide AllFrom, DistinctPaths;
    if n.Dir? {
      AllFromDistinct(d, n, 0);
    } else {
      NothingDistinct<Node>();
    }
  }

  lemma NothingDistinct<T>()
    ensures DistinctPaths<T>([])
  {
  }

  lemma {:induction false} AllFromDistinct(d: Path, n: Node, k: nat)
    requires n.Dir? && k <= |n.entries| && DistinctNames(n)
    ensures DistinctPaths(AllFrom(d, n, k))
    decreases n, 0, |n.entries| - k
  {
    hide All, AllFrom, At;
    AllIs(d, n);
    if k < |n.entries| {
      var e := n.entries[k];
      var path := d + [e.name];
      AllFromStep(d, n, k);
      AllDistinct(path, e.node);
      AllFromDistinct(d, n, k + 1);
      forall x | x in All(path, e.node)
        ensures Under(path, x.0)
      {
        AllIsAt(path, e.node, x.0, x.1);
      }
      forall x | x in AllFrom(d, n, k + 1)
        ensures Under(d, x.0) && x.0[|d|] != e.name
      {
        AllFromIsAt(d, n, k + 1, x.0, x.1);
        assert x.0[|d|..][0] == x.0[|d|];
      }
      DistinctParts(d, e.name, (path, e.node), All(path, e.node), AllFrom(d, n, k + 1));
    }
  }

  lemma DistinctParts<T>(d: Path, name: Bytes, x: (Path, T), inside: seq<(Path, T)>, later: seq<(Path, T)>)
    requires x.0 == d + [name] && DistinctPaths(inside) && DistinctPaths(later)
    requires forall y :: y in inside ==> Under(d + [name], y.0)
    requires forall y :: y in later ==> Under(d, y.0) && y.0[|d|] != name
    ensures DistinctPaths([x] + inside + later)
  {
    var all := [x] + inside + later;
    forall i, j | 0 <= i < j < |all|
      ensures all[i].0 != all[j].0
    {
      if j <= |inside| {
        assert all[j] == inside[j - 1];
        assert i > 0 ==> all[i] == inside[i - 1];
      } else {
        var k := j - 1 - |inside|;
        assert all[j] == later[k] && later[k] in later;
        if i > |inside| {
          assert all[i] == later[i - 1 - |inside|];
        } else if i > 0 {
          assert all[i] == inside[i - 1] && inside[i - 1] in inside;
          assert all[i].0[..|d| + 1][|d|] == name;
        }
      }
    }
  }

  /** Where no directory holds a name twice, nothing is listed twice. */
  lemma ContentsDistinct(root: Option<Node>)
    requires root.Some? ==> DistinctNames(root.value)
    ensures DistinctPaths(Contents(root))
  {
    hide All, DistinctNames;
    if root.Some? && root.value.Dir? {
      AllDistinct([], root.value);
    }
  }

  /** Collect all paths, with a stack of directories still to be read, and sort them. */
  method CollectPaths(root: Option<Node>) returns (paths: seq<(Path, Node)>)
    ensures Ordered(paths) && multiset(paths) == multiset(Contents(root))
  {
    paths := [];
    if root == None {
      return;
    }
    if root.value.File? {
      paths := [([], root.value)];
      return;
    }
    var pending: seq<(Path, Node)> := [([], root.value)];
    assert pending[..0] == [];
    while |pending| > 0
      invariant forall i :: 0 <= i < |pending| ==> pending[i].1.Dir?
      invariant multiset(paths) + multiset(AllOf(pending)) == multiset(Contents(root))
      decreases |AllOf(pending)| + |pending|
    {
      var directory := pending[|pending| - 1];
      pending := pending[..|pending| - 1];
      paths, pending := ReadDirectory(directory, paths, pending);
    }
    SortKeeps(paths);
    paths := Sort(paths);
  }

  method ReadDirectory(directory: (Path, Node), paths: seq<(Path, Node)>, pending: seq<(Path, Node)>)
    returns (paths': seq<(Path, Node)>, pending': seq<(Path, Node)>)
    requires directory.1.Dir? && forall i :: 0 <= i < |pending| ==> pending[i].1.Dir?
    ensures forall i :: 0 <= i < |pending'| ==> pending'[i].1.Dir?
    ensures multiset(paths') + multiset(AllOf(pending'))
         == multiset(paths) + multiset(AllOf(pending)) + multiset(All(directory.0, directory.1))
    ensures |AllOf(pending')| + |pending'| <= |AllOf(pending)| + |pending| + |All(directory.0, directory.1)|
  {
    hide All, AllFrom, AllOf;
    paths', pending' := paths, pending;
    var (d, n) := directory;
    var k := 0;
    AllIs(d, n);
    while k < |n.entries|
      invariant 0 <= k <= |n.entries|
      invariant forall i :: 0 <= i < |pending'| ==> pending'[i].1.Dir?
      invariant multiset(paths') + multiset(AllOf(pending')) + multiset(AllFrom(d, n, k))
             == multiset(paths) + multiset(AllOf(pending)) + multiset(All(d, n))
      invariant |AllOf(pending')| + |pending'| + |AllFrom(d, n, k)| <= |AllOf(pending)| + |pending| + |All(d, n)|
    {
      var entry := n.entries[k];
      var path := d + [entry.name];
      AllFromStep(d, n, k);
      if entry.node.Dir? {
        AllOfPush(pending', (path, entry.node));
        pending' := pending' + [(path, entry.node)];
      } else {
        AllIs(path, entry.node);
      }
      paths' := paths' + [(path, entry.node)];
      k := k + 1;
    }
  }

  lemma AllIs(d: Path, n: Node)
    ensures All(d, n) == if n.File? then [] else AllFrom(d, n, 0)
    ensures n.Dir? ==> AllFrom(d, n, |n.entries|) == []
  {
  }

  lemma AllFromStep(d: Path, n: Node, k: nat)
    requires n.Dir? && k < |n.entries|
    ensures var e := n.entries[k];
            AllFrom(d, n, k) == [(d + [e.name], e.node)] + All(d + [e.name], e.node) + AllFrom(d, n, k + 1)
  {
  }

  lemma AllOfPush(pending: seq<(Path, Node)>, x: (Path, Node))
    ensures AllOf(pending + [x]) == AllOf(pending) + All(x.0, x.1)
  {
    assert (pending + [x])[..|pending|] == pending;
  }

  // ---- hashing a directory ----

  /** A file: its path and its content. */
  type PlainFile = (Path, Bytes)

  function FilesOf(paths: seq<(Path, Node)>): seq<PlainFile> {
    if |paths| == 0 then []
    else
      var last := paths[|paths| - 1];
      FilesOf(paths[..|paths| - 1]) + (if last.1.File? then [(last.0, last.1.content)] else [])
  }

  function Records(files: seq<PlainFile>): (r: seq<Record>)
    ensures |r| == |files|
  {
    seq(|files|, i requires 0 <= i < |files| => (Join(files[i].0), files[i].1))
  }

  lemma RecordsAppend(files: seq<PlainFile>, f: PlainFile)
    ensures Records(files + [f]) == Records(files) + [(Join(f.0), f.1)]
  {
  }

  /** How often a file occurs depends only on how often its path and node occur. */
  lemma {:induction false} FileCount(paths: seq<(Path, Node)>, f: PlainFile)
    ensures multiset(FilesOf(paths))[f] == multiset(paths)[(f.0, File(f.1))]
  {
    if |paths| > 0 {
      var head, last := paths[..|paths| - 1], paths[|paths| - 1];
      FileCount(head, f);
      CountLast(paths, (f.0, File(f.1)));
      FilesOfLast(paths);
      hide FilesOf;
      if last.1.File? {
        CountAppend(FilesOf(head), (last.0, last.1.content), f);
      }
    }
  }

  lemma FilesOfLast(paths: seq<(Path, Node)>)
    requires |paths| > 0
    ensures var head, last := paths[..|paths| - 1], paths[|paths| - 1];
            FilesOf(paths) == if last.1.File? then FilesOf(head) + [(last.0, last.1.content)] else FilesOf(head)
  {
  }

  lemma CountLast<T>(s: seq<T>, y: T)
    requires |s| > 0
    ensures multiset(s)[y] == multiset(s[..|s| - 1])[y] + (if s[|s| - 1] == y then 1 else 0)
  {
    CountAppend(s[..|s| - 1], s[|s| - 1], y);
    assert s == s[..|s| - 1] + [s[|s| - 1]];
  }

  lemma CountAppend<T>(s: seq<T>, x: T, y: T)
    ensures multiset(s + [x])[y] == multiset(s)[y] + (if x == y then 1 else 0)
  {
  }

  lemma FileIsThere(paths: seq<(Path, Node)>, f: PlainFile)
    ensures f in FilesOf(paths) <==> (f.0, File(f.1)) in paths
  {
    FileCount(paths, f);
    assert f in FilesOf(paths) <==> multiset(FilesOf(paths))[f] > 0;
    assert (f.0, File(f.1)) in paths <==> (f.0, File(f.1)) in multiset(paths);
  }

  /** A file is found exactly where descending by the names of its path leads to it. */
  lemma FilesAre(root: Option<Node>, f: PlainFile)
    ensures f in FilesOf(Contents(root)) <==> root.Some? && At(root.value, f.0, File(f.1))
  {
    hide Contents, AtFrom;
    FileIsThere(Contents(root), f);
    ContentsAre(root, f.0, File(f.1));
  }

  lemma FilesThere(root: Option<Node>, paths: seq<(Path, Node)>)
    requires multiset(paths) == multiset(Contents(root))
    ensures forall f :: f in FilesOf(paths) <==> root.Some? && At(root.value, f.0, File(f.1))
  {
    hide Contents, At, FilesOf;
    forall f: PlainFile
      ensures f in FilesOf(paths) <==> root.Some? && At(root.value, f.0, File(f.1))
    {
      FilesAre(root, f);
      FileIsThere(paths, f);
      FileIsThere(Contents(root), f);
      var x := (f.0, File(f.1));
      assert x in paths <==> x in multiset(paths);
      assert x in Contents(root) <==> x in multiset(Contents(root));
    }
  }

  lemma {:induction false} FilesDistinct(paths: seq<(Path, Node)>)
    requires DistinctPaths(paths)
    ensures DistinctPaths(FilesOf(paths))
  {
    if |paths| > 0 {
      var n := |paths| - 1;
      var fs := FilesOf(paths[..n]);
      FilesDistinct(paths[..n]);
      if paths[n].1.File? {
        forall i | 0 <= i < |fs|
          ensures fs[i].0 != paths[n].0
        {
          FileIsThere(paths[..n], fs[i]);
          var k :| 0 <= k < n && paths[..n][k] == (fs[i].0, File(fs[i].1));
          assert paths[k].0 == fs[i].0;
        }
      }
    }
  }

  /** Leaving out the directories keeps the order. */
  lemma {:induction false} FilesOrdered(paths: seq<(Path, Node)>)
    requires Ordered(paths)
    ensures Ordered(FilesOf(paths))
  {
    if |paths| > 0 {
      var n := |paths| - 1;
      var fs := FilesOf(paths[..n]);
      FilesOrdered(paths[..n]);
      if paths[n].1.File? {
        forall i | 0 <= i < |fs|
          ensures !PathBelow(paths[n].0, fs[i].0)
        {
          FileIsThere(paths[..n], fs[i]);
          var k :| 0 <= k < n && paths[..n][k] == (fs[i].0, File(fs[i].1));
          assert paths[k].0 == fs[i].0;
        }
      }
    }
  }

  lemma SameFiles(a: seq<(Path, Node)>, b: seq<(Path, Node)>)
    requires multiset(a) == multiset(b)
    ensures multiset(FilesOf(a)) == multiset(FilesOf(b))
  {
    forall f: PlainFile
      ensures multiset(FilesOf(a))[f] == multiset(FilesOf(b))[f]
    {
      FileCount(a, f);
      FileCount(b, f);
    }
  }

  /** What is hashed so far. */
  class Hasher {
    var input: Bytes

    constructor ()
      ensures input == []
    {
      input := [];
    }

    method Update(data: Bytes)
      modifies this
      ensures input == old(input) + data
    {
      input := input + data;
    }

    /** Path and size, each length as eight bytes. */
    method UpdateTreeEntryHeader(path: Bytes, size: nat)
      modifies this
      ensures input == old(input) + BigEndian(|path|, 8) + path + BigEndian(size, 8)
    {
      Update(BigEndian(|path|, 8));
      Update(path);
      Update(BigEndian(size, 8));
    }
  }

  /** Hash one file after others. */
  method HashFile(hasher: Hasher, relative: Bytes, content: Bytes, ghost before: seq<Record>)
    requires hasher.input == Stream(before)
    modifies hasher
    ensures hasher.input == Stream(before + [(relative, content)])
  {
    hide Framed, Stream, BigEndian;
    StreamAppend(before, (relative, content));
    FramedIs(relative, content, hasher.input);
    hasher.UpdateTreeEntryHeader(relative, |content|);
    hasher.Update(content);
  }

  /** Hash a directory: exactly its files, in path order, in whatever order directories are read. */
  method HashDirectory(root: Option<Node>, hasher: Hasher) returns (ghost files: seq<PlainFile>)
    requires hasher.input == []
    modifies hasher
    ensures hasher.input == Stream(Records(files))
    ensures Ordered(files) && multiset(files) == multiset(FilesOf(Contents(root)))
    ensures forall f :: f in files <==> root.Some? && At(root.value, f.0, File(f.1))
  {
    hide Ordered, Framed, Stream, Records, Contents, At;
    var paths := CollectPaths(root);
    FilesOrdered(paths);
    SameFiles(paths, Contents(root));
    FilesThere(root, paths);
    EmptyStream();
    var k := 0;
    files := [];
    assert paths[..0] == [];
    while k < |paths|
      invariant 0 <= k <= |paths|
      invariant files == FilesOf(paths[..k]) && hasher.input == Stream(Records(files))
    {
      assert paths[..k + 1][..k] == paths[..k];
      if paths[k].1.File? {
        RecordsAppend(files, (paths[k].0, paths[k].1.content));
        HashFile(hasher, Join(paths[k].0), paths[k].1.content, Records(files));
        files := files + [(paths[k].0, paths[k].1.content)];
      }
      k := k + 1;
    }
    assert paths[..k] == paths;
  }

  lemma EmptyStream()
    ensures Stream([]) == [] && Records([]) == []
  {
  }

  lemma FramedIs(path: Bytes, content: Bytes, before: Bytes)
    ensures before + BigEndian(|path|, 8) + path + BigEndian(|content|, 8) + content == before + Framed((path, content))
  {
  }

  /** Conversely, one stream means the same files: paths and contents, provided that path parts have no
      slashes and lengths fit in eight bytes. */
  lemma SameStreamSameFiles(a: seq<PlainFile>, b: seq<PlainFile>)
    requires forall i :: 0 <= i < |a| ==> Fits((Join(a[i].0), a[i].1)) && Split(Join(a[i].0)) == a[i].0
    requires forall i :: 0 <= i < |b| ==> Fits((Join(b[i].0), b[i].1)) && Split(Join(b[i].0)) == b[i].0
    requires Stream(Records(a)) == Stream(Records(b))
    ensures a == b
  {
    StreamIsInjective(Records(a), Records(b));
    forall i | 0 <= i < |a|
      ensures a[i] == b[i]
    {
      assert Records(a)[i] == Records(b)[i];
    }
  }

  /** The parts of a path come back from its join if it has some and none holds a slash. */
  lemma {:induction false} SplitJoin(p: Path)
    requires |p| > 0 && forall i :: 0 <= i < |p| ==> SLASH !in p[i]
    ensures Split(Join(p)) == p
  {
    if |p| == 1 {
      SplitPlain(p[0]);
    } else {
      SplitJoin(p[1..]);
      SplitPart(p[0], Join(p[1..]));
      assert p[0] + [SLASH] + Join(p[1..]) == p[0] + ([SLASH] + Join(p[1..]));
    }
  }

  lemma {:induction false} SplitPlain(a: Bytes)
    requires SLASH !in a
    ensures Split(a) == [a]
  {
    if |a| > 0 {
      SplitPlain(a[1..]);
      assert a == [a[0]] + a[1..];
    }
  }

  lemma {:induction false} SplitPart(a: Bytes, rest: Bytes)
    requires SLASH !in a
    ensures Split(a + ([SLASH] + rest)) == [a] + Split(rest)
  {
    var s := a + ([SLASH] + rest);
    if |a| > 0 {
      assert s[1..] == a[1..] + ([SLASH] + rest);
      SplitPart(a[1..], rest);
      assert a == [a[0]] + a[1..];
    } else {
      assert s[1..] == rest;
    }
  }
}
