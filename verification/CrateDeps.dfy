/** The closure of OS crates that an app needs: a worklist over the dependency graph. */
module CrateDeps {
  import opened Wrappers

  type Name = string

  /** A dependency: its name, and whether its path lies under the OS or the API directory. */
  datatype Dep = Dep(name: Name, inOs: bool, inApi: bool)

  /** The dependencies of every package of the workspace. */
  type Graph = map<Name, seq<Dep>>

  // ---- server crate names ----

  predicate EndsWith(s: string, suffix: string) {
    |suffix| <= |s| && s[|s| - |suffix|..] == suffix
  }

  /** Strip every `-api` and `-server` at the end. */
  function Base(name: Name): (b: Name)
    ensures !EndsWith(b, "-api") && !EndsWith(b, "-server")
    decreases |name|
  {
    if EndsWith(name, "-api") then Base(name[..|name| - 4])
    else if EndsWith(name, "-server") then Base(name[..|name| - 7])
    else name
  }

  function ServerName(name: Name): Name {
    Base(name) + "-server"
  }

  /** Nothing but copies of the two suffixes. */
  predicate OnlySuffixes(t: string)
    decreases |t|
  {
    || t == ""
    || (EndsWith(t, "-api") && OnlySuffixes(t[..|t| - 4]))
    || (EndsWith(t, "-server") && OnlySuffixes(t[..|t| - 7]))
  }

  /** The server of a crate: the name without the suffixes at its end, and `-server`. */
  ghost predicate IsServerOf(server: Name, name: Name) {
    exists b, t :: Splits(name, b, t) && server == b + "-server"
  }

  /** `name` is `b` followed by suffixes, and `b` ends in none. */
  predicate Splits(name: Name, b: Name, t: string) {
    name == b + t && OnlySuffixes(t) && !EndsWith(b, "-api") && !EndsWith(b, "-server")
  }

  lemma ApiAppended(t: string)
    requires OnlySuffixes(t)
    ensures OnlySuffixes(t + "-api")
  {
    assert (t + "-api")[..|t|] == t && (t + "-api")[|t|..] == "-api";
  }

  lemma ServerAppended(t: string)
    requires OnlySuffixes(t)
    ensures OnlySuffixes(t + "-server")
  {
    assert (t + "-server")[..|t|] == t && (t + "-server")[|t|..] == "-server";
  }

  lemma Ending(s: string, suffix: string)
    requires EndsWith(s, suffix)
    ensures s == s[..|s| - |suffix|] + suffix
  {
  }

  lemma BaseOfLonger(name: Name)
    ensures Base(name + "-api") == Base(name) && Base(name + "-server") == Base(name)
  {
    var api, server := name + "-api", name + "-server";
    assert api[..|api| - 4] == name && EndsWith(api, "-api");
    assert server[|server| - 4..] == "rver" && server[..|server| - 7] == name && EndsWith(server, "-server");
  }

  /** Stripping leaves a base and takes away suffixes only. */
  lemma {:induction false} BaseSplits(name: Name) returns (t: string)
    ensures Splits(name, Base(name), t)
    decreases |name|
  {
    hide OnlySuffixes;
    if EndsWith(name, "-api") {
      var t' := BaseSplits(name[..|name| - 4]);
      t := t' + "-api";
      Ending(name, "-api");
      ApiAppended(t');
      assert name == (Base(name) + t') + "-api" == Base(name) + t;
    } else if EndsWith(name, "-server") {
      var t' := BaseSplits(name[..|name| - 7]);
      t := t' + "-server";
      Ending(name, "-server");
      ServerAppended(t');
      assert name == (Base(name) + t') + "-server" == Base(name) + t;
    } else {
      t := "";
      assert name == name + "" && OnlySuffixes("") by { NoSuffixes(); }
    }
  }

  lemma NoSuffixes()
    ensures OnlySuffixes("")
  {
  }

  /** A name splits in one way only. */
  lemma {:induction false} SplitIsBase(name: Name, b: Name, t: string)
    requires Splits(name, b, t)
    ensures b == Base(name)
    decreases |t|
  {
    hide EndsWith, Base;
    if t == "" {
      assert name == b;
      BaseOfBase(b);
    } else {
      var suffix := LastSuffix(t);
      var t' := t[..|t| - |suffix|];
      Ending(t, suffix);
      assert name == (b + t') + suffix;
      SplitIsBase(b + t', b, t');
      BaseOfLonger(b + t');
    }
  }

  lemma BaseOfBase(b: Name)
    requires !EndsWith(b, "-api") && !EndsWith(b, "-server")
    ensures Base(b) == b
  {
  }

  lemma LastSuffix(t: string) returns (suffix: string)
    requires OnlySuffixes(t) && t != ""
    ensures (suffix == "-api" || suffix == "-server") && EndsWith(t, suffix) && OnlySuffixes(t[..|t| - |suffix|])
  {
    suffix := if EndsWith(t, "-api") && OnlySuffixes(t[..|t| - 4]) then "-api" else "-server";
  }

  lemma ServerIs(server: Name, name: Name)
    ensures IsServerOf(server, name) <==> server == ServerName(name)
  {
    hide OnlySuffixes, EndsWith, Base;
    if IsServerOf(server, name) {
      var b, t :| Splits(name, b, t) && server == b + "-server";
      SplitIsBase(name, b, t);
    }
    var t := BaseSplits(name);
  }

  method ServerCrate(name: Name) returns (r: Name)
    ensures r == ServerName(name) && IsServerOf(r, name)
  {
    var base := name;
    while true
      invariant Base(base) == Base(name)
      decreases |base|
    {
      if EndsWith(base, "-api") {
        base := base[..|base| - 4];
      } else if EndsWith(base, "-server") {
        base := base[..|base| - 7];
      } else {
        break;
      }
    }
    r := base + "-server";
    ServerIs(r, name);
  }

  /** However often the name of a crate ends in `-api` or `-server`, it leads to the same server, and a name
      that ends in neither leads to itself with `-server`. */
  lemma ServerNameIsStable(name: Name)
    ensures !EndsWith(name, "-api") && !EndsWith(name, "-server") ==> ServerName(name) == name + "-server"
    ensures ServerName(name + "-api") == ServerName(name) && ServerName(name + "-server") == ServerName(name)
    ensures ServerName(ServerName(name)) == ServerName(name)
  {
    BaseOfLonger(name);
    var s := ServerName(name);
    assert s[|s| - 4..] == "rver" && s[..|s| - 7] == Base(name) && EndsWith(s, "-server");
    assert Base(s) == Base(Base(name)) == Base(name);
  }

  // ---- what is reachable ----

  /** What one dependency adds to the worklist. */
  ghost predicate Leads(d: Dep, to: Name) {
    (d.inOs && d.name == to) || (d.inApi && IsServerOf(to, d.name))
  }

  /** What one dependency adds to the result. */
  ghost predicate Reports(d: Dep, binary: set<Name>, n: Name) {
    (d.inOs && d.name == n && n in binary) || (d.inApi && IsServerOf(n, d.name))
  }

  ghost predicate Edge(g: Graph, c: Name, to: Name) {
    c in g && exists d :: d in g[c] && Leads(d, to)
  }

  /** A path of the graph from the start to a crate. */
  ghost predicate IsPath(g: Graph, p: seq<Name>, start: Name, c: Name) {
    |p| > 0 && p[0] == start && p[|p| - 1] == c && forall i :: 0 <= i < |p| - 1 ==> Edge(g, p[i], p[i + 1])
  }

  ghost predicate Reachable(g: Graph, start: Name, c: Name) {
    exists p :: IsPath(g, p, start, c)
  }

  /** The crates to be returned: binary OS crates and API servers that a reachable crate depends on. */
  ghost predicate Wanted(g: Graph, binary: set<Name>, start: Name, n: Name) {
    exists c, d :: Reachable(g, start, c) && c in g && d in g[c] && Reports(d, binary, n)
  }

  lemma ReachableStart(g: Graph, start: Name)
    ensures Reachable(g, start, start)
  {
    assert IsPath(g, [start], start, start);
  }

  lemma ReachableNext(g: Graph, start: Name, c: Name, to: Name)
    requires Reachable(g, start, c) && Edge(g, c, to)
    ensures Reachable(g, start, to)
  {
    var p :| IsPath(g, p, start, c);
    var q := p + [to];
    forall i | 0 <= i < |q| - 1
      ensures Edge(g, q[i], q[i + 1])
    {
      if i < |p| - 1 {
        assert Edge(g, p[i], p[i + 1]);
      }
    }
    assert IsPath(g, q, start, to);
  }

  /** A set that holds the start and is closed under edges holds everything reachable. */
  lemma {:induction false} ClosedHoldsPath(g: Graph, s: set<Name>, p: seq<Name>, start: Name, c: Name)
    requires start in s && (forall x, y :: x in s && Edge(g, x, y) ==> y in s)
    requires IsPath(g, p, start, c)
    ensures c in s
    decreases |p|
  {
    if |p| > 1 {
      var n := |p| - 1;
      var q := p[..n];
      assert Edge(g, p[n - 1], p[n]);
      forall i | 0 <= i < |q| - 1
        ensures Edge(g, q[i], q[i + 1])
      {
        assert Edge(g, p[i], p[i + 1]);
      }
      ClosedHoldsPath(g, s, q, start, p[n - 1]);
    }
  }

  // ---- the worklist ----

  function DepNames(g: Graph): set<Name> {
    set c, d | c in g && d in g[c] :: d.name
  }

  /** Every name that can get onto the worklist. */
  function Names(g: Graph): set<Name> {
    DepNames(g) + (set n | n in DepNames(g) :: ServerName(n))
  }

  function Elements(s: seq<Name>): set<Name> {
    set n | n in s
  }

  predicate NoDuplicates(s: seq<Name>) {
    forall i, j :: 0 <= i < j < |s| ==> s[i] != s[j]
  }

  /** What is on the worklist or in the bookkeeping is reachable, and what is reported is wanted. */
  ghost predicate Sound(g: Graph, binary: set<Name>, start: Name, todo: seq<Name>, result: seq<Name>,
                        libraries: set<Name>) {
    && NoDuplicates(result) && libraries !! binary
    && (forall n :: n in result ==> Reachable(g, start, n) && Wanted(g, binary, start, n) && n in Names(g))
    && (forall n :: n in libraries ==> Reachable(g, start, n) && n in Names(g))
    && (forall n :: n in todo ==> n == start || n in result || n in libraries)
  }

  /** Whatever was seen is finished or still to do. */
  ghost predicate Covered(start: Name, done: set<Name>, todo: seq<Name>, result: seq<Name>, libraries: set<Name>) {
    && (start in done || start in todo)
    && (forall n :: n in result ==> n in done || n in todo)
    && (forall n :: n in libraries ==> n in done || n in todo)
  }

  /** A dependency has been dealt with. */
  predicate Handled(d: Dep, binary: set<Name>, result: seq<Name>, libraries: set<Name>) {
    && (d.inOs ==> d.name in result || (d.name in libraries && d.name !in binary))
    && (d.inApi ==> ServerName(d.name) in result)
  }

  ghost predicate Finished(g: Graph, binary: set<Name>, done: set<Name>, result: seq<Name>, libraries: set<Name>) {
    forall c :: c in done ==> c in g && forall d :: d in g[c] ==> Handled(d, binary, result, libraries)
  }

  /** How much there is left to find. */
  function Left(g: Graph, result: seq<Name>, libraries: set<Name>): nat {
    |Names(g) - Elements(result)| + |Names(g) - libraries|
  }

  /** Finding a new crate for the result. */
  lemma Found(g: Graph, binary: set<Name>, start: Name, done: set<Name>, todo: seq<Name>, result: seq<Name>,
              libraries: set<Name>, n: Name)
    requires Sound(g, binary, start, todo, result, libraries) && Covered(start, done, todo, result, libraries)
    requires n !in result && Reachable(g, start, n) && n in Names(g) && Wanted(g, binary, start, n)
    ensures Sound(g, binary, start, todo + [n], result + [n], libraries)
              && Covered(start, done, todo + [n], result + [n], libraries)
    ensures Left(g, result + [n], libraries) < Left(g, result, libraries)
  {
    hide Reachable, Wanted, Names, Left;
    LessLeft(g, result, libraries, n);
  }

  lemma LessLeft(g: Graph, result: seq<Name>, libraries: set<Name>, n: Name)
    requires n !in result && n in Names(g)
    ensures Left(g, result + [n], libraries) < Left(g, result, libraries)
  {
    hide Names;
    assert Elements(result + [n]) == Elements(result) + {n};
    Shrinks(Names(g), Elements(result), n);
  }

  /** Finding a new library crate. */
  lemma FoundLibrary(g: Graph, binary: set<Name>, start: Name, done: set<Name>, todo: seq<Name>, result: seq<Name>,
                     libraries: set<Name>, n: Name)
    requires Sound(g, binary, start, todo, result, libraries) && Covered(start, done, todo, result, libraries)
    requires n !in libraries && Reachable(g, start, n) && n in Names(g) && n !in binary
    ensures Sound(g, binary, start, todo + [n], result, libraries + {n})
              && Covered(start, done, todo + [n], result, libraries + {n})
    ensures Left(g, result, libraries + {n}) < Left(g, result, libraries)
  {
    hide Reachable, Wanted, Names;
    Shrinks(Names(g), libraries, n);
  }

  lemma Shrinks(u: set<Name>, s: set<Name>, n: Name)
    requires n in u && n !in s
    ensures |u - (s + {n})| < |u - s|
  {
    assert u - s == (u - (s + {n})) + {n};
  }

  /** Deal with one dependency of a reachable crate. */
  method Handle(g: Graph, binary: set<Name>, ghost start: Name, ghost done: set<Name>, ghost c: Name, dep: Dep,
                todo: seq<Name>, result: seq<Name>, libraries: set<Name>)
    returns (todo': seq<Name>, result': seq<Name>, libraries': set<Name>)
    requires c in g && dep in g[c] && Reachable(g, start, c)
    requires Sound(g, binary, start, todo, result, libraries) && Covered(start, done, todo, result, libraries)
    ensures Sound(g, binary, start, todo', result', libraries') && Covered(start, done, todo', result', libraries')
    ensures Handled(dep, binary, result', libraries')
    ensures (forall n :: n in result ==> n in result') && libraries <= libraries'
    ensures (todo' == todo && result' == result && libraries' == libraries)
              || Left(g, result', libraries') < Left(g, result, libraries)
  {
    hide Sound, Covered, Left, Names, Reachable, Wanted;
    todo', result', libraries' := todo, result, libraries;
    Apart(g, binary, start, todo, result, libraries);
    if dep.inOs && dep.name !in result' && dep.name !in libraries' {
      OneStep(g, binary, start, c, dep, dep.name);
      if dep.name in binary {
        Found(g, binary, start, done, todo', result', libraries', dep.name);
        result' := result' + [dep.name];
      } else {
        FoundLibrary(g, binary, start, done, todo', result', libraries', dep.name);
        libraries' := libraries' + {dep.name};
      }
      todo' := todo' + [dep.name];
    }
    var server := ServerCrate(dep.name);
    if dep.inApi && server !in result' {
      OneStep(g, binary, start, c, dep, server);
      Found(g, binary, start, done, todo', result', libraries', server);
      result' := result' + [server];
      todo' := todo' + [server];
    }
  }

  lemma Apart(g: Graph, binary: set<Name>, start: Name, todo: seq<Name>, result: seq<Name>, libraries: set<Name>)
    requires Sound(g, binary, start, todo, result, libraries)
    ensures libraries !! binary
  {
  }

  lemma OneStep(g: Graph, binary: set<Name>, start: Name, c: Name, d: Dep, n: Name)
    requires c in g && d in g[c] && Reachable(g, start, c) && Leads(d, n)
    ensures Reachable(g, start, n) && n in Names(g) && (Reports(d, binary, n) ==> Wanted(g, binary, start, n))
  {
    hide Reachable, IsServerOf, ServerName;
    ServerIs(n, d.name);
    assert Edge(g, c, n);
    ReachableNext(g, start, c, n);
  }

  /** All dependencies of one crate. */
  method HandleAll(g: Graph, binary: set<Name>, ghost start: Name, ghost done: set<Name>, c: Name,
                   todo: seq<Name>, result: seq<Name>, libraries: set<Name>)
    returns (todo': seq<Name>, result': seq<Name>, libraries': set<Name>)
    requires c in g && Reachable(g, start, c)
    requires Sound(g, binary, start, todo, result, libraries) && Covered(start, done, todo, result, libraries)
    ensures Sound(g, binary, start, todo', result', libraries') && Covered(start, done, todo', result', libraries')
    ensures forall d :: d in g[c] ==> Handled(d, binary, result', libraries')
    ensures (forall n :: n in result ==> n in result') && libraries <= libraries'
    ensures (todo' == todo && result' == result && libraries' == libraries)
              || Left(g, result', libraries') < Left(g, result, libraries)
  {
    hide Sound, Covered, Left, Names, Reachable, Wanted;
    todo', result', libraries' := todo, result, libraries;
    var k := 0;
    while k < |g[c]|
      invariant 0 <= k <= |g[c]|
      invariant Sound(g, binary, start, todo', result', libraries') && Covered(start, done, todo', result', libraries')
      invariant forall j :: 0 <= j < k ==> Handled(g[c][j], binary, result', libraries')
      invariant (forall n :: n in result ==> n in result') && libraries <= libraries'
      invariant (todo' == todo && result' == result && libraries' == libraries)
                  || Left(g, result', libraries') < Left(g, result, libraries)
    {
      todo', result', libraries' := Handle(g, binary, start, done, c, g[c][k], todo', result', libraries');
      k := k + 1;
    }
  }

  /** The OS crates that a crate needs. It ends on every graph, cycles included, and fails only on a name
      that is no package; otherwise the result has, without duplicates, exactly the binary OS crates and
      the API servers that something reachable depends on. */
  method GetCrateOsDeps(g: Graph, binary: set<Name>, crateName: Name) returns (r: Option<seq<Name>>)
    ensures r.Some? ==> NoDuplicates(r.value) && forall n :: n in r.value <==> Wanted(g, binary, crateName, n)
    ensures r.None? <==> exists n :: Reachable(g, crateName, n) && n !in g
  {
    hide Sound, Covered, Left, Names, Reachable, Wanted, Finished;
    var result: seq<Name>, libraries: set<Name>, todo := [], {}, [crateName];
    ghost var done: set<Name> := {};
    Begin(g, binary, crateName);
    while |todo| > 0
      invariant Sound(g, binary, crateName, todo, result, libraries)
                  && Covered(crateName, done, todo, result, libraries)
      invariant Finished(g, binary, done, result, libraries)
      decreases Left(g, result, libraries), |todo|
    {
      var c := todo[|todo| - 1];
      Popped(g, binary, crateName, done, todo, result, libraries);
      if c !in g {
        return None;
      }
      ghost var result0, libraries0 := result, libraries;
      todo, result, libraries := HandleAll(g, binary, crateName, done + {c}, c, todo[..|todo| - 1], result, libraries);
      FinishedMore(g, binary, done, c, result0, libraries0, result, libraries);
      done := done + {c};
    }
    Complete(g, binary, crateName, done, result, libraries);
    return Some(result);
  }

  lemma Begin(g: Graph, binary: set<Name>, start: Name)
    ensures Sound(g, binary, start, [start], [], {}) && Covered(start, {}, [start], [], {})
              && Finished(g, binary, {}, [], {})
  {
  }

  /** Taking the last crate off the worklist. */
  lemma Popped(g: Graph, binary: set<Name>, start: Name, done: set<Name>, todo: seq<Name>, result: seq<Name>,
               libraries: set<Name>)
    requires |todo| > 0 && Sound(g, binary, start, todo, result, libraries)
               && Covered(start, done, todo, result, libraries)
    ensures var c, rest := todo[|todo| - 1], todo[..|todo| - 1];
            && Reachable(g, start, c) && Sound(g, binary, start, rest, result, libraries)
            && Covered(start, done + {c}, rest, result, libraries)
  {
    hide Reachable, Wanted;
    var c, rest := todo[|todo| - 1], todo[..|todo| - 1];
    assert todo == rest + [c];
    ReachableStart(g, start);
  }

  lemma FinishedMore(g: Graph, binary: set<Name>, done: set<Name>, c: Name, result: seq<Name>, libraries: set<Name>,
                     result': seq<Name>, libraries': set<Name>)
    requires Finished(g, binary, done, result, libraries) && c in g && forall d :: d in g[c] ==>
               Handled(d, binary, result', libraries')
    requires (forall n :: n in result ==> n in result') && libraries <= libraries'
    ensures Finished(g, binary, done + {c}, result', libraries')
  {
  }

  /** With nothing left to do, everything reachable is done. */
  lemma Complete(g: Graph, binary: set<Name>, start: Name, done: set<Name>, result: seq<Name>, libraries: set<Name>)
    requires Sound(g, binary, start, [], result, libraries) && Covered(start, done, [], result, libraries)
    requires Finished(g, binary, done, result, libraries)
    ensures NoDuplicates(result) && forall n :: n in result <==> Wanted(g, binary, start, n)
    ensures forall n :: Reachable(g, start, n) ==> n in g
  {
    forall x, y | x in done && Edge(g, x, y)
      ensures y in done
    {
      var d :| d in g[x] && Leads(d, y);
      ServerIs(y, d.name);
      assert Handled(d, binary, result, libraries);
    }
    forall n | Reachable(g, start, n)
      ensures n in done
    {
      var p :| IsPath(g, p, start, n);
      ClosedHoldsPath(g, done, p, start, n);
    }
    forall n | Wanted(g, binary, start, n)
      ensures n in result
    {
      var c, d :| Reachable(g, start, c) && c in g && d in g[c] && Reports(d, binary, n);
      ServerIs(n, d.name);
      assert Handled(d, binary, result, libraries);
    }
  }
}
