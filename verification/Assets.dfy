/** The assets of a release, plans of renames over them, and the remote service that holds them. */
module Assets {
  import opened Wrappers

  type Id = nat
  type Name = string

  /** Current name of every asset of the release. */
  type Names = map<Id, Name>

  datatype AssetRename = AssetRename(id: Id, from: Name, to: Name)

  /** Another asset has the name. */
  predicate Taken(a: Names, id: Id, name: Name) {
    exists i :: i in a && i != id && a[i] == name
  }

  predicate Unused(a: Names, name: Name) {
    forall i :: i in a ==> a[i] != name
  }

  /** No two assets have the same name. */
  predicate Unique(a: Names) {
    forall i, j :: i in a && j in a && i != j ==> a[i] != a[j]
  }

  /** Asset ids by name, as a listing gives them. */
  function ById(a: Names): (r: map<Name, Id>)
    requires Unique(a)
    ensures forall n, i :: (n in r && r[n] == i) <==> (i in a && a[i] == n)
  {
    map i | i in a :: a[i] := i
  }

  /** What a rename request may do: it takes effect, reported or not, or it does not and is reported
      as failed. A name that another asset has is refused. */
  predicate RenameOutcome(a: Names, a': Names, id: Id, name: Name, ok: bool) {
    && (a' == a || (id in a && !Taken(a, id, name) && a' == a[id := name]))
    && (ok ==> id in a && !Taken(a, id, name) && a' == a[id := name])
  }

  // ---- plans ----

  /** The names after the first renames of a plan took effect. */
  function Renamed(a: Names, plan: seq<AssetRename>): Names {
    if |plan| == 0 then a
    else
      var last := plan[|plan| - 1];
      Renamed(a, plan[..|plan| - 1])[last.id := last.to]
  }

  /** Each rename starts from the name its asset has, and finds its target free when its turn comes. */
  ghost predicate Planned(a: Names, plan: seq<AssetRename>) {
    && Unique(a)
    && (forall k :: 0 <= k < |plan| ==> plan[k].id in a && a[plan[k].id] == plan[k].from)
    && (forall j, k :: 0 <= j < k < |plan| ==> plan[j].id != plan[k].id)
    && (forall k :: 0 <= k < |plan| ==> Unused(Renamed(a, plan[..k]), plan[k].to))
  }

  lemma {:induction false} PlannedPrefix(a: Names, plan: seq<AssetRename>, n: nat)
    requires Planned(a, plan) && n <= |plan|
    ensures Planned(a, plan[..n])
  {
    forall k | 0 <= k < n
      ensures plan[..n][..k] == plan[..k]
    {
    }
  }

  /** A further rename whose target is free keeps a plan a plan. */
  lemma PlanExtended(a: Names, plan: seq<AssetRename>, op: AssetRename)
    requires Planned(a, plan) && op.id in a && a[op.id] == op.from && Unused(Renamed(a, plan), op.to)
    requires forall k :: 0 <= k < |plan| ==> plan[k].id != op.id
    ensures Planned(a, plan + [op]) && Renamed(a, plan + [op]) == Renamed(a, plan)[op.id := op.to]
  {
    hide Unused, Unique;
    var plan' := plan + [op];
    RenamedLast(a, plan, op);
    hide Renamed;
    forall k | 0 <= k < |plan'|
      ensures Unused(Renamed(a, plan'[..k]), plan'[k].to)
    {
      if k == |plan| {
        assert plan'[..k] == plan;
      } else {
        assert plan'[..k] == plan[..k];
      }
    }
  }

  lemma RenamedLast(a: Names, plan: seq<AssetRename>, op: AssetRename)
    ensures Renamed(a, plan + [op]) == Renamed(a, plan)[op.id := op.to]
  {
    assert (plan + [op])[..|plan|] == plan;
  }

  lemma {:induction false} RenamedKeys(a: Names, plan: seq<AssetRename>)
    requires forall k :: 0 <= k < |plan| ==> plan[k].id in a
    ensures Renamed(a, plan).Keys == a.Keys
  {
    if |plan| > 0 {
      RenamedKeys(a, plan[..|plan| - 1]);
    }
  }

  /** An asset that no rename of the plan is about keeps its name. */
  lemma {:induction false} RenamedElsewhere(a: Names, plan: seq<AssetRename>, i: Id)
    requires i in a && forall k :: 0 <= k < |plan| ==> plan[k].id != i
    ensures i in Renamed(a, plan) && Renamed(a, plan)[i] == a[i]
  {
    if |plan| > 0 {
      RenamedElsewhere(a, plan[..|plan| - 1], i);
    }
  }

  lemma {:induction false} RenamedAt(a: Names, plan: seq<AssetRename>, k: nat)
    requires k < |plan| && forall i, j :: 0 <= i < j < |plan| ==> plan[i].id != plan[j].id
    ensures plan[k].id in Renamed(a, plan) && Renamed(a, plan)[plan[k].id] == plan[k].to
  {
    var n := |plan| - 1;
    if k < n {
      RenamedAt(a, plan[..n], k);
    }
  }

  /** While a plan is carried out names stay unique and assets come and go nowhere. */
  lemma {:induction false} PlanKeeps(a: Names, plan: seq<AssetRename>)
    requires Planned(a, plan)
    ensures Renamed(a, plan).Keys == a.Keys && Unique(Renamed(a, plan))
    decreases |plan|
  {
    RenamedKeys(a, plan);
    if |plan| > 0 {
      var n := |plan| - 1;
      PlannedPrefix(a, plan, n);
      PlanKeeps(a, plan[..n]);
      UniqueAfter(Renamed(a, plan[..n]), plan[n].id, plan[n].to);
    }
  }

  lemma UniqueAfter(a: Names, id: Id, name: Name)
    requires Unique(a) && Unused(a, name)
    ensures Unique(a[id := name])
  {
  }

  /** A rename of the plan is free to go forward, and to go back from where it leads. */
  lemma PlanStep(a: Names, plan: seq<AssetRename>, k: nat)
    requires Planned(a, plan) && k < |plan|
    ensures var before, after, op := Renamed(a, plan[..k]), Renamed(a, plan[..k + 1]), plan[k];
            && op.id in before && !Taken(before, op.id, op.to) && before[op.id := op.to] == after
            && op.id in after && !Taken(after, op.id, op.from) && after[op.id := op.from] == before
            && !Taken(before, op.id, op.from) && before[op.id := op.from] == before
  {
    var before, op := Renamed(a, plan[..k]), plan[k];
    PlannedPrefix(a, plan, k);
    PlanKeeps(a, plan[..k]);
    RenamedElsewhere(a, plan[..k], op.id);
    assert plan[..k + 1][..k] == plan[..k];
    assert Unused(before, op.to);
    assert before[op.id] == op.from;
    assert before[op.id := op.to][op.id := op.from] == before[op.id := op.from] == before;
  }

  /** Names while a plan is carried out or undone: its assets have their old or their new name, all
      others their old one. */
  ghost predicate Between(a: Names, plan: seq<AssetRename>, now: Names) {
    && now.Keys == a.Keys && Unique(now)
    && (forall i :: i in a && (forall k :: 0 <= k < |plan| ==> plan[k].id != i) ==> now[i] == a[i])
    && (forall k :: 0 <= k < |plan| && plan[k].id in now ==>
        now[plan[k].id] == plan[k].from || now[plan[k].id] == plan[k].to)
  }

  lemma StagesAreBetween(a: Names, plan: seq<AssetRename>, n: nat)
    requires Planned(a, plan) && n <= |plan|
    ensures Between(a, plan, Renamed(a, plan[..n]))
  {
    hide Planned, Renamed, Unique;
    var now := Renamed(a, plan[..n]);
    PlannedPrefix(a, plan, n);
    PlanKeeps(a, plan[..n]);
    forall i | i in a && forall k :: 0 <= k < |plan| ==> plan[k].id != i
      ensures i in now && now[i] == a[i]
    {
      RenamedElsewhere(a, plan[..n], i);
    }
    forall k | 0 <= k < |plan|
      ensures plan[k].id in now && (now[plan[k].id] == plan[k].from || now[plan[k].id] == plan[k].to)
    {
      StageOf(a, plan, n, k);
    }
  }

  lemma StageOf(a: Names, plan: seq<AssetRename>, n: nat, k: nat)
    requires Planned(a, plan) && n <= |plan| && k < |plan|
    ensures plan[k].id in a && plan[k].id in Renamed(a, plan[..n])
    ensures Renamed(a, plan[..n])[plan[k].id] == if k < n then plan[k].to else plan[k].from
  {
    hide Renamed, Unique, Unused;
    if k < n {
      RenamedAt(a, plan[..n], k);
    } else {
      RenamedElsewhere(a, plan[..n], plan[k].id);
    }
  }

  /** A request that was answered either way keeps the names between old and new. */
  lemma OutcomeBetween(a: Names, plan: seq<AssetRename>, now: Names, now': Names, k: nat, name: Name, ok: bool)
    requires Planned(a, plan) && Between(a, plan, now) && k < |plan| && (name == plan[k].from || name == plan[k].to)
    requires RenameOutcome(now, now', plan[k].id, name, ok)
    ensures Between(a, plan, now')
  {
    if now' != now {
      assert forall i :: i in now && i != plan[k].id ==> now[i] != name;
    }
  }

  /** Exactly when a back-rename is refused: an earlier back-rename left an asset under the very name
      that is to be restored. */
  lemma BackRenameRefused(a: Names, plan: seq<AssetRename>, now: Names, j: nat)
    requires Planned(a, plan) && Between(a, plan, now) && j < |plan|
    ensures Taken(now, plan[j].id, plan[j].from)
       <==> exists k :: 0 <= k < |plan| && k != j && plan[k].to == plan[j].from && now[plan[k].id] == plan[k].to
  {
    var op := plan[j];
    if Taken(now, op.id, op.from) {
      var i :| i in now && i != op.id && now[i] == op.from;
      assert a[op.id] == op.from;
      assert a[i] != op.from;
      var k :| 0 <= k < |plan| && plan[k].id == i;
      assert now[plan[k].id] == plan[k].to;
    }
    if k :| 0 <= k < |plan| && k != j && plan[k].to == op.from && now[plan[k].id] == plan[k].to {
      assert plan[k].id != op.id;
    }
  }

  // ---- the remote service ----

  /** What a delete saw: the asset, and the names just before it was gone. */
  datatype Deletion = Deletion(id: Id, before: Names)

  /** A request that could have been carried out and was answered as failed. */
  datatype Fault = Listing | Uploading | Renaming | Deleting

  /** Between two moments a request of one of these kinds failed. */
  ghost predicate FaultSince(log: seq<Fault>, log': seq<Fault>, kinds: set<Fault>) {
    log <= log' && exists k :: |log| <= k < |log'| && log'[k] in kinds
  }

  lemma FaultNow(log: seq<Fault>, fault: Fault, kinds: set<Fault>)
    requires fault in kinds
    ensures FaultSince(log, log + [fault], kinds)
  {
    assert (log + [fault])[|log|] == fault;
  }

  lemma FaultWithin(log: seq<Fault>, from: seq<Fault>, to: seq<Fault>, log': seq<Fault>, kinds: set<Fault>,
                    more: set<Fault>)
    requires log <= from && FaultSince(from, to, kinds) && to <= log' && kinds <= more
    ensures FaultSince(log, log', more)
  {
    var k :| |from| <= k < |to| && to[k] in kinds;
    assert log'[k] == to[k];
  }

  /** A failure now or before is a failure since the beginning. */
  lemma FaultSoFar(log: seq<Fault>, from: seq<Fault>, to: seq<Fault>, ok: bool, done: bool, kinds: set<Fault>)
    requires log <= from <= to
    requires (!ok ==> FaultSince(log, from, kinds)) && (ok && !done ==> FaultSince(from, to, kinds))
    ensures !(ok && done) ==> FaultSince(log, to, kinds)
  {
    if !ok {
      FaultWithin(log, log, from, to, kinds, kinds);
    } else if !done {
      FaultWithin(log, from, to, to, kinds, kinds);
    }
  }

  /** A release on the remote. Every request may succeed, fail without effect, or take effect and be
      reported as failed; a listing fails or is true. */
  class Release {
    var assets: Names
    var nextId: Id
    /** The release has a tag; an untagged draft is addressed by id only. */
    const tagged: bool

    /** Deletions that took effect, renames that were refused because the name was taken, and faults. */
    ghost var deletions: seq<Deletion>
    ghost var refused: seq<(Id, Name)>
    ghost var faults: seq<Fault>

    constructor (assets: Names, nextId: Id, tagged: bool)
      requires Unique(assets) && forall i :: i in assets ==> i < nextId
      ensures Valid() && this.assets == assets && this.tagged == tagged
      ensures deletions == [] && refused == [] && faults == []
    {
      this.assets, this.nextId, this.tagged := assets, nextId, tagged;
      deletions, refused, faults := [], [], [];
    }

    ghost predicate Valid()
      reads this
    {
      Unique(assets) && forall i :: i in assets ==> i < nextId
    }

    method List() returns (r: Option<map<Name, Id>>)
      requires Valid()
      modifies this`faults
      ensures r.Some? ==> r.value == ById(assets) && faults == old(faults)
      ensures r.None? ==> faults == old(faults) + [Listing]
    {
      if * {
        faults := faults + [Listing];
        return None;
      }
      return Some(ById(assets));
    }

    method Rename(id: Id, name: Name) returns (ok: bool)
      requires Valid()
      modifies this`assets, this`refused, this`faults
      ensures Valid() && RenameOutcome(old(assets), assets, id, name, ok)
      ensures refused == if Taken(old(assets), id, name) then old(refused) + [(id, name)] else old(refused)
      ensures faults == if ok || id !in old(assets) || Taken(old(assets), id, name) then old(faults)
                        else old(faults) + [Renaming]
    {
      ok := false;
      if Taken(assets, id, name) {
        refused := refused + [(id, name)];
      } else if id in assets {
        if * {
          assets := assets[id := name];
          ok := *;
        }
        if !ok {
          faults := faults + [Renaming];
        }
      }
    }

    /** A new asset; `None` when the request is reported as failed. */
    method Upload(name: Name) returns (r: Option<Id>, ghost id: Id)
      requires Valid()
      modifies this`assets, this`nextId, this`faults
      ensures Valid() && id == old(nextId) <= nextId
      ensures assets == old(assets) || (Unused(old(assets), name) && assets == old(assets)[id := name])
      ensures r.Some? ==> r.value == id && assets == old(assets)[id := name]
      ensures faults == if r.Some? || !Unused(old(assets), name) then old(faults) else old(faults) + [Uploading]
    {
      r, id := None, nextId;
      if forall i :: i in assets ==> assets[i] != name {
        if * {
          assets, nextId := assets[nextId := name], nextId + 1;
          if * {
            r := Some(nextId - 1);
            return;
          }
        }
        faults := faults + [Uploading];
      }
    }

    method Delete(id: Id) returns (ok: bool)
      requires Valid()
      modifies this`assets, this`deletions, this`faults
      ensures Valid()
      ensures (assets == old(assets) && deletions == old(deletions))
              || (id in old(assets) && assets == old(assets) - {id}
                  && deletions == old(deletions) + [Deletion(id, old(assets))])
      ensures ok ==> id in old(assets) && id !in assets
      ensures faults == if ok || id !in old(assets) then old(faults) else old(faults) + [Deleting]
    {
      ok := false;
      if id in assets {
        if * {
          deletions := deletions + [Deletion(id, assets)];
          assets := assets - {id};
          ok := *;
        }
        if !ok {
          faults := faults + [Deleting];
        }
      }
    }

    /** A request to delete a name that no asset has: not finding it is no failure. */
    method DeleteAbsent() returns (ok: bool)
      modifies this`faults
      ensures faults == if ok then old(faults) else old(faults) + [Deleting]
    {
      ok := *;
      if !ok {
        faults := faults + [Deleting];
      }
    }
  }
}
