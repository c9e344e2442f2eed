/** Replacing the pair of published documentation files of a release without ever being left with
    neither pair, although every request to the remote may fail or have its answer lost. */
module DocsPublish {
  import opened Assets
  import opened Wrappers

  const DRAFT_ASSET_LOOKUP_ATTEMPTS := 3

  // ---- renames and their rollback ----

  /** A rename that failed counts as done if a listing shows that it took effect after all. */
  method RenameChecked(release: Release, id: Id, name: Name) returns (ok: bool)
    requires release.Valid()
    modifies release`assets, release`refused, release`faults
    ensures release.Valid() && RenameOutcome(old(release.assets), release.assets, id, name, ok)
    ensures release.refused == if Taken(old(release.assets), id, name) then old(release.refused)
              + [(id, name)] else old(release.refused)
    ensures old(release.faults) <= release.faults
    ensures !ok && id in old(release.assets) && !Taken(old(release.assets), id, name) ==>
              FaultSince(old(release.faults), release.faults, {Renaming})
  {
    ok := release.Rename(id, name);
    if !ok {
      FaultNow(old(release.faults), Renaming, {Renaming});
      ghost var log := release.faults;
      var listing := release.List();
      if FaultSince(old(release.faults), log, {Renaming}) {
        FaultWithin(old(release.faults), old(release.faults), log, release.faults, {Renaming}, {Renaming});
      }
      ok := listing.Some? && name in listing.value && listing.value[name] == id;
      if ok {
        assert id in release.assets && release.assets[id] == name;
        if release.assets == old(release.assets) {
          assert old(release.assets)[id := name] == old(release.assets);
        }
      }
    }
  }

  datatype RenameResult = Applied | RolledBack | Stuck

  /** A refused back-rename of the plan, later in the rollback than the one at `stuck`. */
  predicate RefusedBehind(plan: seq<AssetRename>, stuck: int, r: (Id, Name)) {
    exists j :: 0 <= j < |plan| && j < stuck && r == (plan[j].id, plan[j].from)
  }

  /** The names lead to these assets. */
  predicate LeadTo(a: Names, finals: seq<(Name, Id)>) {
    forall f :: f in finals ==> f.1 in a && a[f.1] == f.0
  }

  /** Carry out the plan and check the final names; on any failure undo what was attempted, newest
      first. `stuck` is the first rename whose undoing took no effect, or -1. */
  method ApplyRenames(release: Release, plan: seq<AssetRename>, finals: seq<(Name, Id)>)
    returns (r: RenameResult, ghost stuck: int)
    requires release.Valid() && Planned(release.assets, plan)
    modifies release`assets, release`refused, release`faults
    ensures release.Valid() && Between(old(release.assets), plan, release.assets)
    ensures r.Applied? ==> release.assets == Renamed(old(release.assets), plan)
    ensures r.Applied? ==> LeadTo(release.assets, finals)
    ensures old(release.faults) <= release.faults
    ensures !r.Applied? && LeadTo(Renamed(old(release.assets), plan), finals) ==>
              FaultSince(old(release.faults), release.faults, {Renaming, Listing})
    ensures r.Stuck? && LeadTo(Renamed(old(release.assets), plan), finals) ==>
              |release.faults| >= |old(release.faults)| + 2
    ensures r.RolledBack? ==> release.assets == old(release.assets)
    ensures !r.Stuck? ==> stuck == -1
    ensures stuck == -1 ==> release.refused == old(release.refused)
    ensures old(release.refused) <= release.refused
    ensures forall k :: |old(release.refused)| <= k < |release.refused| ==>
              RefusedBehind(plan, stuck, release.refused[k])
  {
    hide Planned, Renamed, Between, LeadTo, FaultSince;
    ghost var a := release.assets;
    stuck := -1;
    var ok, attempted := CarryOut(release, plan);
    ghost var before := release.faults;
    if ok {
      assert plan[..|plan|] == plan;
      ok := Verified(release, finals);
      if ok {
        StagesAreBetween(a, plan, |plan|);
        return Applied, -1;
      }
    }
    ghost var log := release.faults;
    r, stuck := RollBack(release, a, plan, attempted);
    if LeadTo(Renamed(a, plan), finals) {
      ApplyFault(old(release.faults), before, log, release.faults);
    }
  }

  /** Carry out the renames one by one, up to the first that fails. */
  method CarryOut(release: Release, plan: seq<AssetRename>) returns (ok: bool, attempted: seq<AssetRename>)
    requires release.Valid() && Planned(release.assets, plan)
    modifies release`assets, release`refused, release`faults
    ensures release.Valid() && release.refused == old(release.refused) && attempted <= plan
    ensures ok ==> attempted == plan && release.assets == Renamed(old(release.assets), plan)
    ensures !ok ==>
              |attempted| > 0
              && (release.assets == Renamed(old(release.assets), attempted)
                  || release.assets == Renamed(old(release.assets), attempted[..|attempted| - 1]))
    ensures old(release.faults) <= release.faults
    ensures !ok ==> FaultSince(old(release.faults), release.faults, {Renaming})
  {
    hide Planned, Renamed, Taken, FaultSince;
    ghost var a := release.assets;
    EmptyPlan(a);
    attempted := [];
    ok := true;
    while |attempted| < |plan| && ok
      invariant |attempted| <= |plan| && attempted == plan[..|attempted|]
      invariant release.Valid() && release.refused == old(release.refused)
      invariant ok ==> release.assets == Renamed(a, attempted)
      invariant old(release.faults) <= release.faults
      invariant !ok ==>
                  |attempted| > 0
                  && (release.assets == Renamed(a, attempted)
                      || release.assets == Renamed(a, attempted[..|attempted| - 1]))
      invariant !ok ==> FaultSince(old(release.faults), release.faults, {Renaming})
      decreases |plan| - |attempted|, ok
    {
      ghost var k, log := |attempted|, release.faults;
      var operation := plan[|attempted|];
      PlanStep(a, plan, k);
      attempted := attempted + [operation];
      assert attempted == plan[..k + 1] && attempted[..k] == plan[..k];
      ok := RenameChecked(release, operation.id, operation.to);
      if !ok {
        FaultWithin(old(release.faults), log, release.faults, release.faults, {Renaming}, {Renaming});
      }
    }
  }

  /** Either a rename failed or the check of the final names. */
  lemma ApplyFault(old': seq<Fault>, before: seq<Fault>, log: seq<Fault>, log': seq<Fault>)
    requires old' <= before <= log <= log'
    requires FaultSince(old', before, {Renaming}) || FaultSince(before, log, {Listing})
    ensures FaultSince(old', log', {Renaming, Listing}) && |log| > |old'|
  {
    if FaultSince(old', before, {Renaming}) {
      FaultWithin(old', old', before, log', {Renaming}, {Renaming, Listing});
    } else {
      FaultWithin(old', before, log, log', {Listing}, {Renaming, Listing});
    }
  }

  /** Both final names lead to the new assets. */
  method Verified(release: Release, finals: seq<(Name, Id)>) returns (ok: bool)
    requires release.Valid()
    modifies release`faults
    ensures ok ==> LeadTo(release.assets, finals)
    ensures old(release.faults) <= release.faults
    ensures !ok && LeadTo(release.assets, finals) ==> FaultSince(old(release.faults), release.faults, {Listing})
  {
    FaultNow(old(release.faults), Listing, {Listing});
    var listing := release.List();
    ok := listing.Some? && forall f :: f in finals ==> f.0 in listing.value && listing.value[f.0] == f.1;
  }

  /** Undo the attempted renames, newest first, going on after a failure. */
  method RollBack(release: Release, ghost a: Names, ghost plan: seq<AssetRename>, attempted: seq<AssetRename>)
    returns (r: RenameResult, ghost stuck: int)
    requires release.Valid() && Planned(a, plan) && attempted <= plan
    requires release.assets == Renamed(a, attempted)
             || (|attempted| > 0 && release.assets == Renamed(a, attempted[..|attempted| - 1]))
    modifies release`assets, release`refused, release`faults
    ensures release.Valid() && Between(a, plan, release.assets)
    ensures r.RolledBack? || r.Stuck?
    ensures r.RolledBack? ==> release.assets == a && stuck == -1
    ensures old(release.faults) <= release.faults && (r.Stuck? ==> |release.faults| > |old(release.faults)|)
    ensures stuck == -1 ==> release.refused == old(release.refused)
    ensures old(release.refused) <= release.refused
    ensures forall k :: |old(release.refused)| <= k < |release.refused| ==>
              RefusedBehind(plan, stuck, release.refused[k])
  {
    hide Planned, Between, Renamed;
    stuck := -1;
    var errors: seq<Id> := [];
    var j := |attempted|;
    assert attempted == plan[..j];
    assert j > 0 ==> attempted[..j - 1] == plan[..j - 1];
    StagesAreBetween(a, plan, j);
    if j > 0 {
      StagesAreBetween(a, plan, j - 1);
    }
    while j > 0
      invariant 0 <= j <= |attempted|
      invariant release.Valid() && Between(a, plan, release.assets)
      invariant stuck == -1 ==>
                  release.assets == Renamed(a, plan[..j])
                  || (j > 0 && release.assets == Renamed(a, plan[..j - 1]))
      invariant stuck == -1 ==> release.refused == old(release.refused)
      invariant errors == [] ==> stuck == -1
      invariant old(release.faults) <= release.faults
      invariant errors != [] ==> |release.faults| > |old(release.faults)|
      invariant stuck == -1 || j <= stuck
      invariant old(release.refused) <= release.refused
      invariant forall k :: |old(release.refused)| <= k < |release.refused| ==>
                  RefusedBehind(plan, stuck, release.refused[k])
    {
      j := j - 1;
      var ok;
      ok, stuck := UndoOne(release, a, plan, attempted[j], j, stuck);
      if !ok {
        errors := errors + [attempted[j].id];
      }
    }
    assert plan[..0] == [];
    EmptyPlan(a);
    r := if errors == [] then RolledBack else Stuck;
  }

  lemma EmptyPlan(a: Names)
    ensures Renamed(a, []) == a
  {
  }

  /** Undo one rename. As long as every undoing so far took effect none is refused. */
  method UndoOne(release: Release, ghost a: Names, ghost plan: seq<AssetRename>, operation: AssetRename, ghost j: nat,
                 ghost was: int)
    returns (ok: bool, ghost stuck: int)
    requires release.Valid() && Planned(a, plan) && Between(a, plan, release.assets)
    requires j < |plan| && operation == plan[j] && (was == -1 || j < was)
    requires was == -1 ==> release.assets == Renamed(a, plan[..j + 1]) || release.assets == Renamed(a, plan[..j])
    modifies release`assets, release`refused, release`faults
    ensures release.Valid() && Between(a, plan, release.assets)
    ensures if was == -1 then stuck == -1 || (stuck == j && !ok) else stuck == was
    ensures stuck == -1 ==> release.assets == Renamed(a, plan[..j])
    ensures was == -1 ==> release.refused == old(release.refused)
    ensures old(release.faults) <= release.faults
    ensures was == -1 && !ok ==> |release.faults| > |old(release.faults)|
    ensures release.refused == old(release.refused)
              || release.refused == old(release.refused) + [(operation.id, operation.from)]
  {
    PlanStep(a, plan, j);
    ok := RenameChecked(release, operation.id, operation.from);
    OutcomeBetween(a, plan, old(release.assets), release.assets, j, operation.from, ok);
    stuck := if was == -1 && release.assets != Renamed(a, plan[..j]) then j else was;
  }

  /** The rollback goes on after a back-rename that took no effect, so the next one can ask for a name
      that is taken: here the new asset 2 keeps the final name that the old asset 1 should get back. */
  lemma RollbackCanBeRefused()
    ensures var a := map[1 := "docs.zip", 2 := "docs.zip.pending"];
            var plan := [AssetRename(1, "docs.zip", "docs.zip.previous"),
                         AssetRename(2, "docs.zip.pending", "docs.zip")];
            var renamed := map[1 := "docs.zip.previous", 2 := "docs.zip"];
            && Planned(a, plan) && Renamed(a, plan) == renamed
            && RenameOutcome(renamed, renamed, 2, "docs.zip.pending", false)
            && Taken(renamed, 1, "docs.zip")
  {
    var a := map[1 := "docs.zip", 2 := "docs.zip.pending"];
    var plan := [AssetRename(1, "docs.zip", "docs.zip.previous"), AssetRename(2, "docs.zip.pending", "docs.zip")];
    var renamed := map[1 := "docs.zip.previous", 2 := "docs.zip"];
    var one := map[1 := "docs.zip.previous", 2 := "docs.zip.pending"];
    assert plan[..0] == [] && Renamed(a, []) == a;
    assert plan[..1] == [plan[0]] && [plan[0]][..0] == [];
    assert Renamed(a, plan[..1]) == one;
    assert Renamed(a, plan) == renamed;
    assert renamed[2] == "docs.zip";
    assert |"docs.zip"| == 8 && |"docs.zip.previous"| == 17 && |"docs.zip.pending"| == 16;
  }
}
