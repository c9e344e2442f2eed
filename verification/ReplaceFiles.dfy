/** The whole replacement: stage both files, swap names, and delete the old pair last. */
module ReplaceFiles {
  import opened Assets
  import opened DocsPublish
  import opened Wrappers

  function Pending(name: Name, nonce: string): Name {
    name + ".pending-" + nonce
  }

  function Previous(name: Name, nonce: string): Name {
    name + ".previous-" + nonce
  }

  // ---- looking up and deleting ----

  /** Ask for a name up to so many times; the outer `None` is an error, the inner one an absent name. */
  method RetryAssetLookup(release: Release, name: Name, attempts: nat) returns (r: Option<Option<Id>>)
    requires release.Valid() && attempts > 0
    modifies release`faults
    ensures old(release.faults) <= release.faults
    ensures r.None? ==> FaultSince(old(release.faults), release.faults, {Listing})
    ensures r.None? && !Unused(release.assets, name) ==> |release.faults| == |old(release.faults)| + attempts
    ensures r.Some? && r.value.Some? ==> r.value.value in release.assets && release.assets[r.value.value] == name
    ensures r.Some? && r.value.None? ==> Unused(release.assets, name)
  {
    var attempt := 0;
    while attempt < attempts
      invariant attempt < attempts
      invariant old(release.faults) <= release.faults
      invariant !Unused(release.assets, name) ==> |release.faults| == |old(release.faults)| + attempt
    {
      ghost var log := release.faults;
      var listing := release.List();
      if listing.Some? {
        if name in listing.value {
          return Some(Some(listing.value[name]));
        }
        assert forall i :: i in release.assets ==> release.assets[i] in listing.value;
        if attempt + 1 == attempts {
          return Some(None);
        }
      } else if attempt + 1 == attempts {
        FaultNow(log, Listing, {Listing});
        FaultWithin(old(release.faults), log, release.faults, release.faults, {Listing}, {Listing});
        return None;
      }
      attempt := attempt + 1;
    }
    assert false;
  }

  /** Names and deletions after removing nothing but assets with one of these names. */
  ghost predicate Removed(a: Names, a': Names, names: set<Name>) {
    && (forall i :: i in a' ==> i in a && a'[i] == a[i])
    && (forall i :: i in a && i !in a' ==> a[i] in names)
  }

  ghost predicate DeletedOnly(log: seq<Deletion>, log': seq<Deletion>, a: Names, names: set<Name>) {
    && log <= log'
    && forall k :: |log| <= k < |log'| ==> log'[k].id in a && a[log'[k].id] in names
  }

  /** A tagged release deletes by name in one request, where an absent name is no failure; a draft looks
      the name up first. */
  method DeleteByName(release: Release, name: Name) returns (ok: bool)
    requires release.Valid()
    modifies release`assets, release`deletions, release`faults
    ensures release.Valid() && Removed(old(release.assets), release.assets, {name})
    ensures DeletedOnly(old(release.deletions), release.deletions, old(release.assets), {name})
    ensures old(release.faults) <= release.faults
    ensures !ok ==> FaultSince(old(release.faults), release.faults, {Listing, Deleting})
    ensures ok ==> Unused(release.assets, name)
  {
    FaultNow(release.faults, Deleting, {Listing, Deleting});
    if release.tagged {
      if i :| i in release.assets && release.assets[i] == name {
        ok := release.Delete(i);
      } else {
        ok := release.DeleteAbsent();
      }
    } else {
      var found := RetryAssetLookup(release, name, DRAFT_ASSET_LOOKUP_ATTEMPTS);
      ghost var log := release.faults;
      if found == None {
        ok := false;
        FaultWithin(old(release.faults), old(release.faults), log, log, {Listing}, {Listing, Deleting});
      } else if found.value == None {
        ok := true;
      } else {
        ok := release.Delete(found.value.value);
        if !ok {
          FaultNow(log, Deleting, {Listing, Deleting});
          FaultWithin(old(release.faults), log, release.faults, release.faults, {Listing, Deleting},
                      {Listing, Deleting});
        }
      }
    }
  }

  lemma RemovedMore(a: Names, b: Names, c: Names, names: set<Name>, more: set<Name>)
    requires Removed(a, b, names) && Removed(b, c, more)
    ensures Removed(a, c, names + more)
  {
  }

  lemma DeletedMore(l: seq<Deletion>, l': seq<Deletion>, l'': seq<Deletion>, a: Names, b: Names, names: set<Name>,
                    more: set<Name>)
    requires Removed(a, b, names) && DeletedOnly(l, l', a, names) && DeletedOnly(l', l'', b, more)
    ensures DeletedOnly(l, l'', a, names + more)
  {
  }

  predicate Distinct(names: seq<Name>) {
    forall j, k :: 0 <= j < k < |names| ==> names[j] != names[k]
  }

  function Elements(names: seq<Name>): set<Name> {
    set n | n in names
  }

  /** Delete the staged assets: by id those that a listing shows under a staged name, the others by name. */
  method CleanupStagedAssets(release: Release, names: seq<Name>) returns (ok: bool)
    requires release.Valid()
    modifies release`assets, release`deletions, release`faults
    ensures release.Valid() && Removed(old(release.assets), release.assets, Elements(names))
    ensures DeletedOnly(old(release.deletions), release.deletions, old(release.assets), Elements(names))
    ensures ok ==> forall n :: n in names ==> Unused(release.assets, n)
    ensures old(release.faults) <= release.faults
    ensures !ok && Distinct(names) ==> FaultSince(old(release.faults), release.faults, {Listing, Deleting})
  {
    hide Removed, DeletedOnly, FaultSince;
    var listing := release.List();
    ghost var a, log := release.assets, release.deletions;
    var k := 0;
    ok := true;
    Nothing(a, log);
    assert Elements(names[..0]) == {};
    while k < |names|
      invariant 0 <= k <= |names| && release.Valid()
      invariant Removed(a, release.assets, Elements(names[..k]))
      invariant DeletedOnly(log, release.deletions, a, Elements(names[..k]))
      invariant ok ==> forall j :: 0 <= j < k ==> Unused(release.assets, names[j])
      invariant old(release.faults) <= release.faults
      invariant !ok && Distinct(names) ==> FaultSince(old(release.faults), release.faults, {Listing, Deleting})
    {
      ghost var faults := release.faults;
      ghost var b, log' := release.assets, release.deletions;
      var name := names[k];
      var done := CleanupOne(release, listing, name, a, Elements(names[..k]));
      RemovedMore(a, b, release.assets, Elements(names[..k]), {name});
      DeletedMore(log, log', release.deletions, a, b, Elements(names[..k]), {name});
      assert Elements(names[..k + 1]) == Elements(names[..k]) + {name};
      forall j | 0 <= j < k && ok
        ensures Unused(release.assets, names[j])
      {
        StaysUnused(b, release.assets, {name}, names[j]);
      }
      if Distinct(names) {
        NotYet(names, k);
        FaultSoFar(old(release.faults), faults, release.faults, ok, done, {Listing, Deleting});
      }
      ok := ok && done;
      k := k + 1;
    }
    assert names[..k] == names;
  }

  lemma NotYet(names: seq<Name>, k: nat)
    requires Distinct(names) && k < |names|
    ensures names[k] !in Elements(names[..k])
  {
  }

  /** One staged name: by id if the listing has it, by name otherwise. */
  method CleanupOne(release: Release, listing: Option<map<Name, Id>>, name: Name, ghost a: Names, ghost gone: set<Name>)
    returns (ok: bool)
    requires release.Valid() && Unique(a) && (listing.Some? ==> listing.value == ById(a))
    requires Removed(a, release.assets, gone)
    modifies release`assets, release`deletions, release`faults
    ensures release.Valid() && Removed(old(release.assets), release.assets, {name})
    ensures DeletedOnly(old(release.deletions), release.deletions, old(release.assets), {name})
    ensures ok ==> Unused(release.assets, name)
    ensures old(release.faults) <= release.faults
    ensures !ok && name !in gone ==> FaultSince(old(release.faults), release.faults, {Listing, Deleting})
  {
    hide Removed, DeletedOnly, FaultSince;
    if listing.Some? && name in listing.value {
      assert listing.value[name] in a && a[listing.value[name]] == name;
      ok := DeleteListed(release, listing.value[name], a, gone, name);
    } else {
      ok := DeleteByName(release, name);
    }
  }

  lemma Nothing(a: Names, log: seq<Deletion>)
    ensures Removed(a, a, {}) && DeletedOnly(log, log, a, {})
  {
  }

  lemma StaysUnused(a: Names, a': Names, names: set<Name>, n: Name)
    requires Removed(a, a', names) && Unused(a, n)
    ensures Unused(a', n)
  {
  }

  /** Delete an asset by the id it was listed under. */
  method DeleteListed(release: Release, id: Id, ghost a: Names, ghost gone: set<Name>, ghost name: Name)
    returns (ok: bool)
    requires release.Valid() && id in a && a[id] == name && Unique(a) && Removed(a, release.assets, gone)
    modifies release`assets, release`deletions, release`faults
    ensures release.Valid() && Removed(old(release.assets), release.assets, {name})
    ensures DeletedOnly(old(release.deletions), release.deletions, old(release.assets), {name})
    ensures ok ==> Unused(release.assets, name)
    ensures old(release.faults) <= release.faults
    ensures !ok && name !in gone ==> FaultSince(old(release.faults), release.faults, {Listing, Deleting})
  {
    assert forall i :: i in release.assets ==> i in a && release.assets[i] == a[i];
    FaultNow(release.faults, Deleting, {Listing, Deleting});
    ok := release.Delete(id);
  }

  // ---- uploading ----

  /** Names after nothing but new assets with one of these names appeared; ids from `limit` on are new. */
  ghost predicate Added(a: Names, a': Names, limit: Id, names: set<Name>) {
    && (forall i :: i in a ==> i in a' && a'[i] == a[i])
    && (forall i :: i in a' && i !in a ==> i >= limit && a'[i] in names)
  }

  ghost predicate AllNew(log: seq<Deletion>, log': seq<Deletion>, a: Names) {
    && log <= log'
    && forall k :: |log| <= k < |log'| ==> log'[k].id !in a
  }

  ghost predicate HasNew(a: Names, now: Names, name: Name) {
    exists i :: i in now && i !in a && now[i] == name
  }

  lemma NewKept(a: Names, b: Names, c: Names, name: Name)
    requires HasNew(a, b, name) && forall i :: i in b ==> i in c && c[i] == b[i]
    ensures HasNew(a, c, name)
  {
    var i :| i in b && i !in a && b[i] == name;
    assert i in c;
  }

  /** Old assets are there, and new ones have one of these names. */
  ghost predicate NewNamed(a: Names, b: Names, names: seq<Name>) {
    (forall i :: i in a ==> i in b && b[i] == a[i]) && forall i :: i in b && i !in a ==> b[i] in names
  }

  lemma TaggedUploaded(a: Names, b: Names, c: Names, limit: Id, names: seq<Name>, k: nat, at: Id)
    requires k < |names| && Added(a, b, limit, Elements(names)) && NewNamed(a, b, names[..k])
    requires at >= limit && at !in b && (c == b || c == b[at := names[k]])
    ensures Added(a, c, limit, Elements(names)) && NewNamed(a, c, names[..k + 1])
  {
    assert names[..k + 1] == names[..k] + [names[k]];
  }

  lemma AllNewKept(a: Names, b: Names, c: Names, names: seq<Name>, k: nat, at: Id)
    requires k < |names| && at !in b && c == b[at := names[k]] && (forall i :: i in a ==> i in b)
    requires forall j :: 0 <= j < k ==> HasNew(a, b, names[j])
    ensures forall j :: 0 <= j < k + 1 ==> HasNew(a, c, names[j])
  {
    forall j | 0 <= j < k
      ensures HasNew(a, c, names[j])
    {
      NewKept(a, b, c, names[j]);
    }
    assert at in c && at !in a;
  }

  /** One request uploads all files to a tagged release and returns no ids. */
  method UploadTagged(release: Release, names: seq<Name>) returns (ok: bool)
    requires release.Valid()
    modifies release`assets, release`nextId, release`faults
    ensures release.Valid() && release.nextId >= old(release.nextId)
    ensures Added(old(release.assets), release.assets, old(release.nextId), Elements(names))
    ensures old(release.faults) <= release.faults
    ensures !ok && Distinct(names) && (forall n :: n in names ==> Unused(old(release.assets), n)) ==>
              FaultSince(old(release.faults), release.faults, {Uploading})
    ensures ok ==> forall k :: 0 <= k < |names| ==> HasNew(old(release.assets), release.assets, names[k])
  {
    hide FaultSince, HasNew, Added;
    ok := true;
    ghost var a, limit := release.assets, release.nextId;
    ghost var free := Distinct(names) && forall n :: n in names ==> Unused(release.assets, n);
    NothingAdded(a, limit, Elements(names));
    var k := 0;
    while k < |names|
      invariant 0 <= k <= |names| && release.Valid() && release.nextId >= limit
      invariant Added(a, release.assets, limit, Elements(names))
      invariant ok ==> forall j :: 0 <= j < k ==> HasNew(a, release.assets, names[j])
      invariant NewNamed(a, release.assets, names[..k])
      invariant old(release.faults) <= release.faults
      invariant !ok && free ==> FaultSince(old(release.faults), release.faults, {Uploading})
    {
      ghost var b, faults := release.assets, release.faults;
      var id, at := release.Upload(names[k]);
      TaggedUploaded(a, b, release.assets, limit, names, k, at);
      if ok && id.Some? {
        AllNewKept(a, b, release.assets, names, k, at);
      }
      if free {
        StillFree(a, b, names, k);
        FaultNow(faults, Uploading, {Uploading});
        FaultSoFar(old(release.faults), faults, release.faults, ok, id.Some?, {Uploading});
      }
      ok := ok && id.Some?;
      k := k + 1;
    }
  }

  /** The next of several fresh names is still free. */
  lemma StillFree(a: Names, b: Names, names: seq<Name>, k: nat)
    requires k < |names| && Distinct(names) && Unused(a, names[k])
    requires NewNamed(a, b, names[..k])
    ensures Unused(b, names[k])
  {
  }

  /** The confirmed uploads are new assets under their names. */
  ghost predicate Confirmed(a: Names, now: Names, uploaded: seq<(Name, Id)>, names: seq<Name>) {
    forall k :: 0 <= k < |uploaded| ==>
      uploaded[k].1 in now && uploaded[k].1 !in a && now[uploaded[k].1] == uploaded[k].0 && uploaded[k].0 in names
  }

  /** Whatever is new has one of these names. */
  ghost predicate LeftOver(a: Names, now: Names, fallback: seq<Name>) {
    forall i :: i in now && i !in a ==> now[i] in fallback
  }

  /** The confirmed uploads are the first of the attempted ones. */
  predicate NamedBy(uploaded: seq<(Name, Id)>, attempted: seq<Name>) {
    Distinct(attempted) && |uploaded| <= |attempted|
    && forall k :: 0 <= k < |uploaded| ==> uploaded[k].0 == attempted[k]
  }

  /** Still there from the k-th on. */
  ghost predicate Remaining(now: Names, uploaded: seq<(Name, Id)>, k: nat) {
    forall j :: k <= j < |uploaded| ==> uploaded[j].1 in now
  }

  /** One confirmed upload is deleted by its id, or not. */
  lemma OneDeleted(a: Names, b: Names, c: Names, d: Names, uploaded: seq<(Name, Id)>, k: nat, fallback: seq<Name>)
    requires Unique(b) && k < |uploaded| && uploaded[k].1 in b && b[uploaded[k].1] == uploaded[k].0
    requires (forall i :: i in c ==> i in b && c[i] == b[i]) && LeftOver(a, c, fallback)
    requires d == c || d == c - {uploaded[k].1}
    ensures LeftOver(a, d, fallback)
    ensures uploaded[k].1 !in d ==> LeftOver(a, d, Without(fallback, uploaded[k].0))
  {
  }

  lemma StillRemaining(a: Names, b: Names, c: Names, d: Names, uploaded: seq<(Name, Id)>, k: nat, attempted: seq<Name>)
    requires Confirmed(a, b, uploaded, attempted) && NamedBy(uploaded, attempted) && k < |uploaded|
    requires Remaining(c, uploaded, k) && (d == c || d == c - {uploaded[k].1})
    ensures Remaining(d, uploaded, k + 1)
  {
  }

  lemma NothingLeft(a: Names, now: Names, limit: Id, names: set<Name>, fallback: seq<Name>)
    requires Added(a, now, limit, names) && LeftOver(a, now, fallback)
    requires forall n :: n in fallback ==> Unused(now, n)
    ensures now == a
  {
  }

  lemma {:induction false} WithoutDistinct(names: seq<Name>, name: Name)
    requires Distinct(names)
    ensures Distinct(Without(names, name))
  {
    if names != [] {
      var rest := Without(names[1..], name);
      WithoutDistinct(names[1..], name);
      forall i | 0 <= i < |rest|
        ensures rest[i] != names[0]
      {
        assert rest[i] in names[1..];
      }
    }
  }

  /** After a failed draft upload: delete the confirmed uploads by id, the other attempted names by a
      fresh lookup. A reported success leaves nothing of the upload, and only a fault prevents it. */
  method CleanupPartialUpload(release: Release, uploaded: seq<(Name, Id)>, attempted: seq<Name>, ghost a: Names,
                              ghost limit: Id)
    returns (ok: bool)
    requires release.Valid() && Confirmed(a, release.assets, uploaded, attempted)
    requires Added(a, release.assets, limit, Elements(attempted)) && forall n :: n in attempted ==> Unused(a, n)
    modifies release`assets, release`deletions, release`faults
    ensures release.Valid() && Added(a, release.assets, limit, Elements(attempted))
    ensures AllNew(old(release.deletions), release.deletions, a)
    ensures ok ==> release.assets == a
    ensures old(release.faults) <= release.faults
    ensures !ok && NamedBy(uploaded, attempted) ==>
              FaultSince(old(release.faults), release.faults, {Listing, Deleting})
  {
    hide FaultSince, LeftOver, NamedBy, Remaining, Added, AllNew, Confirmed, Elements, Unused, Distinct;
    ghost var log, start, before := release.deletions, release.assets, release.faults;
    var fallback := attempted;
    ok := true;
    var k := 0;
    AllLeft(a, start, limit, uploaded, attempted, log);
    while k < |uploaded|
      invariant 0 <= k <= |uploaded| && release.Valid()
      invariant Added(a, release.assets, limit, Elements(attempted)) && AllNew(log, release.deletions, a)
      invariant forall n :: n in fallback ==> n in attempted
      invariant forall i :: i in release.assets ==> i in start && release.assets[i] == start[i]
      invariant LeftOver(a, release.assets, fallback) && before <= release.faults
      invariant NamedBy(uploaded, attempted) ==> Remaining(release.assets, uploaded, k) && Distinct(fallback)
      invariant !ok && NamedBy(uploaded, attempted) ==> FaultSince(before, release.faults, {Listing, Deleting})
    {
      ghost var c, log', faults := release.assets, release.deletions, release.faults;
      var done := release.Delete(uploaded[k].1);
      IsConfirmed(a, start, uploaded, attempted, k);
      OneDeleted(a, start, c, release.assets, uploaded, k, fallback);
      NewDeleted(a, c, release.assets, limit, Elements(attempted), uploaded[k].1, log, log', release.deletions);
      if NamedBy(uploaded, attempted) {
        StillRemaining(a, start, c, release.assets, uploaded, k, attempted);
        WithoutDistinct(fallback, uploaded[k].0);
        IsRemaining(c, uploaded, k);
        FaultNow(faults, Deleting, {Listing, Deleting});
        FaultSoFar(before, faults, release.faults, ok, done, {Listing, Deleting});
      }
      if done {
        fallback := Without(fallback, uploaded[k].0);
      }
      ok := ok && done;
      k := k + 1;
    }
    ghost var b, log', faults := release.assets, release.deletions, release.faults;
    var done := true;
    if fallback != [] {
      done := CleanupStagedAssets(release, fallback);
      AttemptedUnused(a, fallback, attempted);
      NewRemoved(a, b, release.assets, limit, Elements(attempted), Elements(fallback), log, log', release.deletions);
      FewerLeft(a, b, release.assets, Elements(fallback), fallback);
    }
    if NamedBy(uploaded, attempted) {
      FaultSoFar(before, faults, release.faults, ok, done, {Listing, Deleting});
    }
    if ok && done {
      NothingLeft(a, release.assets, limit, Elements(attempted), fallback);
    }
    ok := ok && done;
  }

  lemma AllLeft(a: Names, start: Names, limit: Id, uploaded: seq<(Name, Id)>, attempted: seq<Name>, log: seq<Deletion>)
    requires Confirmed(a, start, uploaded, attempted) && Added(a, start, limit, Elements(attempted))
    ensures LeftOver(a, start, attempted) && Remaining(start, uploaded, 0) && AllNew(log, log, a)
    ensures NamedBy(uploaded, attempted) ==> Distinct(attempted)
  {
  }

  lemma IsConfirmed(a: Names, start: Names, uploaded: seq<(Name, Id)>, attempted: seq<Name>, k: nat)
    requires Confirmed(a, start, uploaded, attempted) && k < |uploaded|
    ensures uploaded[k].1 in start && uploaded[k].1 !in a && start[uploaded[k].1] == uploaded[k].0
  {
  }

  lemma IsRemaining(now: Names, uploaded: seq<(Name, Id)>, k: nat)
    requires Remaining(now, uploaded, k) && k < |uploaded|
    ensures uploaded[k].1 in now
  {
  }

  lemma AttemptedUnused(a: Names, fallback: seq<Name>, attempted: seq<Name>)
    requires (forall n :: n in attempted ==> Unused(a, n)) && forall n :: n in fallback ==> n in attempted
    ensures forall n :: n in Elements(fallback) ==> Unused(a, n)
  {
  }

  /** Deleting a new asset. */
  lemma NewDeleted(a: Names, c: Names, d: Names, limit: Id, names: set<Name>, id: Id, log: seq<Deletion>,
                   log': seq<Deletion>, log'': seq<Deletion>)
    requires Added(a, c, limit, names) && AllNew(log, log', a) && id !in a
    requires (d == c && log'' == log') || (d == c - {id} && log'' == log' + [Deletion(id, c)])
    ensures Added(a, d, limit, names) && AllNew(log, log'', a)
  {
  }

  lemma FewerLeft(a: Names, b: Names, c: Names, gone: set<Name>, fallback: seq<Name>)
    requires LeftOver(a, b, fallback) && Removed(b, c, gone)
    ensures LeftOver(a, c, fallback)
  {
  }

  function Without(names: seq<Name>, name: Name): (r: seq<Name>)
    ensures forall n :: n in r <==> n in names && n != name
  {
    if names == [] then []
    else if names[0] == name then Without(names[1..], name)
    else [names[0]] + Without(names[1..], name)
  }

  /** Removing assets by names that no old asset has removes new assets only. */
  lemma NewRemoved(a: Names, b: Names, c: Names, limit: Id, names: set<Name>, gone: set<Name>,
                   log: seq<Deletion>, log': seq<Deletion>, log'': seq<Deletion>)
    requires Added(a, b, limit, names) && Removed(b, c, gone) && forall n :: n in gone ==> Unused(a, n)
    requires AllNew(log, log', a) && DeletedOnly(log', log'', b, gone)
    ensures Added(a, c, limit, names) && AllNew(log, log'', a)
  {
  }

  /** Upload to an untagged draft, one file after the other. */
  method UploadToDraft(release: Release, names: seq<Name>) returns (r: Option<seq<(Name, Id)>>)
    requires release.Valid() && forall n :: n in names ==> Unused(release.assets, n)
    modifies release`assets, release`nextId, release`deletions, release`faults
    ensures release.Valid() && release.nextId >= old(release.nextId)
    ensures Added(old(release.assets), release.assets, old(release.nextId), Elements(names))
    ensures AllNew(old(release.deletions), release.deletions, old(release.assets))
    ensures old(release.faults) <= release.faults
    ensures r.None? && Distinct(names) ==> FaultSince(old(release.faults), release.faults, {Uploading})
    ensures r.None? && Distinct(names) && |release.faults| == |old(release.faults)| + 1 ==>
              release.assets == old(release.assets)
    ensures r.Some? ==> Confirmed(old(release.assets), release.assets, r.value, names) && |r.value| == |names|
    ensures r.Some? ==> forall k :: 0 <= k < |names| ==> r.value[k].0 == names[k]
  {
    hide Added, Confirmed, Elements, Unused, AllNew, FaultSince;
    ghost var a, limit, log := release.assets, release.nextId, release.deletions;
    var uploaded: seq<(Name, Id)> := [];
    NothingUploaded(a, limit, log, names);
    while |uploaded| < |names|
      invariant |uploaded| <= |names| && release.Valid() && release.nextId >= limit && release.deletions == log
      invariant Added(a, release.assets, limit, Elements(names[..|uploaded|]))
      invariant Confirmed(a, release.assets, uploaded, names[..|uploaded|])
      invariant forall k :: 0 <= k < |uploaded| ==> uploaded[k].0 == names[k]
      invariant old(release.faults) <= release.faults
      decreases |names| - |uploaded|
    {
      var k := |uploaded|;
      ghost var b, faults := release.assets, release.faults;
      var id, at := release.Upload(names[k]);
      OneUploaded(a, b, release.assets, limit, uploaded, names, k, at);
      if id == None {
        ghost var failed := release.faults;
        if Distinct(names) {
          FreeInDraft(a, b, limit, names, k);
          FaultNow(faults, Uploading, {Uploading});
        }
        var cleaned := CleanupPartialUpload(release, uploaded, names[..k + 1], a, limit);
        PrefixElements(names, k + 1);
        AddedMore(a, release.assets, limit, Elements(names[..k + 1]), Elements(names));
        if Distinct(names) {
          FaultWithin(old(release.faults), faults, failed, release.faults, {Uploading}, {Uploading});
          assert NamedBy(uploaded, names[..k + 1]);
          if !cleaned {
            MoreFaults(old(release.faults), failed, release.faults);
          }
        }
        return None;
      }
      uploaded := uploaded + [(names[k], id.value)];
    }
    assert names[..|uploaded|] == names;
    return Some(uploaded);
  }

  lemma MoreFaults(log: seq<Fault>, failed: seq<Fault>, log': seq<Fault>)
    requires |failed| > |log| && FaultSince(failed, log', {Listing, Deleting})
    ensures |log'| > |log| + 1
  {
  }

  lemma FreeInDraft(a: Names, b: Names, limit: Id, names: seq<Name>, k: nat)
    requires k < |names| && Distinct(names) && Unused(a, names[k]) && Added(a, b, limit, Elements(names[..k]))
    ensures Unused(b, names[k])
  {
  }

  lemma NothingUploaded(a: Names, limit: Id, log: seq<Deletion>, names: seq<Name>)
    ensures Added(a, a, limit, Elements(names[..0])) && Confirmed(a, a, [], names[..0]) && AllNew(log, log, a)
  {
  }

  /** One more upload request, with or without effect. */
  lemma OneUploaded(a: Names, b: Names, c: Names, limit: Id, uploaded: seq<(Name, Id)>, names: seq<Name>, k: nat,
                    at: Id)
    requires k < |names| && Added(a, b, limit, Elements(names[..k])) && Confirmed(a, b, uploaded, names[..k])
    requires at >= limit && at !in b && (c == b || c == b[at := names[k]])
    ensures Added(a, c, limit, Elements(names[..k + 1])) && Confirmed(a, c, uploaded, names[..k + 1])
    ensures c == b[at := names[k]] ==> Confirmed(a, c, uploaded + [(names[k], at)], names[..k + 1])
  {
    assert names[..k + 1] == names[..k] + [names[k]];
    assert Elements(names[..k + 1]) == Elements(names[..k]) + {names[k]};
  }

  lemma PrefixElements(names: seq<Name>, k: nat)
    requires k <= |names|
    ensures Elements(names[..k]) <= Elements(names)
  {
  }

  lemma AddedMore(a: Names, b: Names, limit: Id, names: set<Name>, more: set<Name>)
    requires Added(a, b, limit, names) && names <= more
    ensures Added(a, b, limit, more)
  {
  }

  // ---- staging ----

  /** The id of an uploaded file, from the upload's answer or from a listing. */
  method UploadedAssetId(release: Release, uploaded: seq<(Name, Id)>, name: Name, ghost a: Names)
    returns (r: Option<Id>)
    requires release.Valid() && Unused(a, name)
    requires forall k :: 0 <= k < |uploaded| ==>
               uploaded[k].1 in release.assets && release.assets[uploaded[k].1] == uploaded[k].0
    requires forall i :: i in a ==> i in release.assets && release.assets[i] == a[i]
    modifies release`faults
    ensures old(release.faults) <= release.faults
    ensures r.None? && !Unused(release.assets, name) ==>
              FaultSince(old(release.faults), release.faults, {Listing})
    ensures r.Some? ==> r.value in release.assets && r.value !in a && release.assets[r.value] == name
  {
    var k := 0;
    while k < |uploaded|
      invariant 0 <= k <= |uploaded|
    {
      if uploaded[k].0 == name {
        return Some(uploaded[k].1);
      }
      k := k + 1;
    }
    var found := RetryAssetLookup(release, name, DRAFT_ASSET_LOOKUP_ATTEMPTS);
    r := if found.Some? then found.value else None;
  }

  /** Upload both files under their staged names and find out their ids. */
  method Stage(release: Release, first: Name, second: Name) returns (r: Option<(Id, Id)>)
    requires release.Valid() && Unused(release.assets, first) && Unused(release.assets, second)
    modifies release`assets, release`nextId, release`deletions, release`faults
    ensures release.Valid() && Added(old(release.assets), release.assets, old(release.nextId), {first, second})
    ensures AllNew(old(release.deletions), release.deletions, old(release.assets))
    ensures old(release.faults) <= release.faults
    ensures r.None? && first != second ==> FaultSince(old(release.faults), release.faults, {Listing, Uploading})
    ensures r.Some? ==>
              r.value.0 in release.assets && r.value.0 !in old(release.assets)
              && release.assets[r.value.0] == first
    ensures r.Some? ==>
              r.value.1 in release.assets && r.value.1 !in old(release.assets)
              && release.assets[r.value.1] == second
  {
    hide Unused, FaultSince, Added, AllNew;
    ghost var a, log := release.assets, release.faults;
    var uploaded := UploadPair(release, first, second);
    ghost var from := release.faults;
    if uploaded == None {
      if first != second {
        FaultWithin(log, log, from, from, {Uploading}, {Listing, Uploading});
      }
      return None;
    }
    OldThere(a, release.assets, old(release.nextId), {first, second});
    var one := UploadedAssetId(release, uploaded.value, first, a);
    if one == None {
      FaultWithin(log, from, release.faults, release.faults, {Listing}, {Listing, Uploading});
      return None;
    }
    ghost var to := release.faults;
    var two := UploadedAssetId(release, uploaded.value, second, a);
    if two == None {
      FaultWithin(log, to, release.faults, release.faults, {Listing}, {Listing, Uploading});
      return None;
    }
    return Some((one.value, two.value));
  }

  lemma OldThere(a: Names, b: Names, limit: Id, names: set<Name>)
    requires Added(a, b, limit, names)
    ensures forall i :: i in a ==> i in b && b[i] == a[i]
  {
  }

  /** Upload both files, in one request to a tagged release and one by one to a draft. */
  method UploadPair(release: Release, first: Name, second: Name) returns (r: Option<seq<(Name, Id)>>)
    requires release.Valid() && Unused(release.assets, first) && Unused(release.assets, second)
    modifies release`assets, release`nextId, release`deletions, release`faults
    ensures release.Valid() && Added(old(release.assets), release.assets, old(release.nextId), {first, second})
    ensures AllNew(old(release.deletions), release.deletions, old(release.assets))
    ensures old(release.faults) <= release.faults
    ensures r.None? && first != second ==> FaultSince(old(release.faults), release.faults, {Uploading})
    ensures r.Some? ==> !Unused(release.assets, first) && !Unused(release.assets, second)
    ensures r.Some? ==> forall k :: 0 <= k < |r.value| ==>
              r.value[k].1 in release.assets && r.value[k].1 !in old(release.assets)
              && release.assets[r.value[k].1] == r.value[k].0
  {
    hide FaultSince;
    ghost var a, names := release.assets, [first, second];
    assert Elements(names) == {first, second} && names[0] == first && names[1] == second;
    if release.tagged {
      var ok := UploadTagged(release, [first, second]);
      r := if ok then Some([]) else None;
    } else {
      r := UploadToDraft(release, [first, second]);
      if r.Some? {
        assert r.value[0].0 == first && r.value[1].0 == second;
      }
    }
  }

  // ---- the plan ----

  /** The nonce makes staged and previous names that no asset has and that are not final names. */
  ghost predicate FreshNonce(a: Names, finals: seq<Name>, nonce: string) {
    forall k :: 0 <= k < |finals| ==>
      && Unused(a, Pending(finals[k], nonce)) && Unused(a, Previous(finals[k], nonce))
      && Pending(finals[k], nonce) !in finals && Previous(finals[k], nonce) !in finals
  }

  lemma NamesDiffer(n: Name, m: Name, nonce: string)
    ensures Pending(n, nonce) != Previous(m, nonce)
    ensures n != m ==> Pending(n, nonce) != Pending(m, nonce) && Previous(n, nonce) != Previous(m, nonce)
  {
    var p, q := Pending(n, nonce), Previous(m, nonce);
    assert p[|p| - |nonce| - 2] == 'g' && q[|q| - |nonce| - 2] == 's';
    assert Pending(n, nonce)[..|n|] == n && Previous(n, nonce)[..|n|] == n;
    assert |Pending(n, nonce)| == |Pending(m, nonce)| ==> |n| == |m|;
    assert Pending(m, nonce)[..|m|] == m && Previous(m, nonce)[..|m|] == m;
  }

  /** The names once every asset with one of these names has its previous name. */
  function MovedAway(a: Names, names: set<Name>, nonce: string): Names {
    map i | i in a :: if a[i] in names then Previous(a[i], nonce) else a[i]
  }

  /** The first renames move old assets away. */
  ghost predicate MovesAway(a: Names, plan: seq<AssetRename>, names: set<Name>, nonce: string) {
    && Planned(a, plan) && Renamed(a, plan) == MovedAway(a, names, nonce)
    && (forall k :: 0 <= k < |plan| ==> plan[k].from in names && plan[k].to == Previous(plan[k].from, nonce))
  }

  lemma MoveOne(a: Names, plan: seq<AssetRename>, names: set<Name>, nonce: string, id: Id)
    requires MovesAway(a, plan, names, nonce) && id in a && a[id] !in names
    requires Unused(a, Previous(a[id], nonce))
    ensures MovesAway(a, plan + [AssetRename(id, a[id], Previous(a[id], nonce))], names + {a[id]}, nonce)
  {
    hide Planned, MovedAway, Renamed, Unused, Previous;
    var name := a[id];
    var op := AssetRename(id, name, Previous(name, nonce));
    PlanIsUnique(a, plan);
    NotPlannedYet(a, plan, names, nonce, id);
    MovedFree(a, names, nonce, name);
    MovedOneMore(a, names, nonce, id);
    PlanExtended(a, plan, op);
  }

  lemma PlanIsUnique(a: Names, plan: seq<AssetRename>)
    requires Planned(a, plan)
    ensures Unique(a)
  {
  }

  lemma NotPlannedYet(a: Names, plan: seq<AssetRename>, names: set<Name>, nonce: string, id: Id)
    requires MovesAway(a, plan, names, nonce) && id in a && a[id] !in names
    ensures forall k :: 0 <= k < |plan| ==> plan[k].id != id
  {
    hide MovedAway, Renamed, Unused, Previous;
  }

  lemma MovedFree(a: Names, names: set<Name>, nonce: string, name: Name)
    requires name !in names && Unused(a, Previous(name, nonce))
    ensures Unused(MovedAway(a, names, nonce), Previous(name, nonce))
  {
    hide Previous;
    forall i | i in a
      ensures MovedAway(a, names, nonce)[i] != Previous(name, nonce)
    {
      NamesDiffer(a[i], name, nonce);
    }
  }

  lemma MovedOneMore(a: Names, names: set<Name>, nonce: string, id: Id)
    requires Unique(a) && id in a
    ensures MovedAway(a, names + {a[id]}, nonce) == MovedAway(a, names, nonce)[id := Previous(a[id], nonce)]
  {
    hide Previous;
  }

  lemma MoveNone(a: Names, plan: seq<AssetRename>, names: set<Name>, nonce: string, name: Name)
    requires MovesAway(a, plan, names, nonce) && Unused(a, name)
    ensures MovesAway(a, plan, names + {name}, nonce)
  {
    assert MovedAway(a, names + {name}, nonce) == MovedAway(a, names, nonce);
  }

  /** The renames that move the listed old assets away, and their ids. */
  method MoveOld(listing: map<Name, Id>, finals: seq<Name>, nonce: string, ghost a: Names)
    returns (plan: seq<AssetRename>, previous: seq<Id>)
    requires Unique(a) && forall j, k :: 0 <= j < k < |finals| ==> finals[j] != finals[k]
    requires forall k :: 0 <= k < |finals| ==> Unused(a, Previous(finals[k], nonce))
    requires forall k, i :: 0 <= k < |finals| ==>
               ((finals[k] in listing && listing[finals[k]] == i) <==> (i in a && a[i] == finals[k]))
    ensures MovesAway(a, plan, Elements(finals), nonce)
    ensures forall i :: i in previous <==> i in a && a[i] in finals
    ensures forall j, k :: 0 <= j < k < |previous| ==> previous[j] != previous[k]
  {
    hide MovesAway, MovedAway, Previous;
    plan, previous := [], [];
    var k := 0;
    assert Elements(finals[..0]) == {};
    MoveNothing(a, nonce);
    while k < |finals|
      invariant 0 <= k <= |finals|
      invariant MovesAway(a, plan, Elements(finals[..k]), nonce)
      invariant forall i :: i in previous <==> i in a && a[i] in finals[..k]
      invariant forall j, h :: 0 <= j < h < |previous| ==> previous[j] != previous[h]
    {
      assert Elements(finals[..k + 1]) == Elements(finals[..k]) + {finals[k]};
      var name := finals[k];
      if name in listing {
        MoveOne(a, plan, Elements(finals[..k]), nonce, listing[name]);
        plan := plan + [AssetRename(listing[name], name, Previous(name, nonce))];
        previous := previous + [listing[name]];
      } else {
        MoveNone(a, plan, Elements(finals[..k]), nonce, name);
      }
      k := k + 1;
    }
    assert finals[..k] == finals;
  }

  lemma MoveNothing(a: Names, nonce: string)
    requires Unique(a)
    ensures MovesAway(a, [], {}, nonce)
  {
    assert MovedAway(a, {}, nonce) == a;
  }

  /** The names once the new pair is in place. */
  function Swapped(a: Names, finals: seq<Name>, nonce: string, ids: (Id, Id)): Names
    requires |finals| == 2
  {
    MovedAway(a, Elements(finals), nonce)[ids.0 := finals[0]][ids.1 := finals[1]]
  }

  /** Old assets out of the way, then the staged pair under the final names. */
  lemma SwapIsPlanned(a: Names, plan: seq<AssetRename>, finals: seq<Name>, nonce: string, ids: (Id, Id))
    requires |finals| == 2 && finals[0] != finals[1] && MovesAway(a, plan, Elements(finals), nonce)
    requires forall k :: 0 <= k < 2 ==> Previous(finals[k], nonce) !in finals && Pending(finals[k], nonce) !in finals
    requires ids.0 in a && a[ids.0] == Pending(finals[0], nonce) && ids.1 in a && a[ids.1] == Pending(finals[1], nonce)
    ensures var plan' := plan + [AssetRename(ids.0, a[ids.0], finals[0])] + [AssetRename(ids.1, a[ids.1], finals[1])];
            Planned(a, plan') && Renamed(a, plan') == Swapped(a, finals, nonce, ids)
  {
    NamesDiffer(finals[0], finals[1], nonce);
    assert ids.0 != ids.1;
    var op0, op1 := AssetRename(ids.0, a[ids.0], finals[0]), AssetRename(ids.1, a[ids.1], finals[1]);
    assert finals[0] in finals && finals[1] in finals;
    PlanExtended(a, plan, op0);
    PlanExtended(a, plan + [op0], op1);
  }

  // ---- the replacement ----

  /** How a replacement ends, as its error says: nothing staged, renames undone, renames not all undone,
      or old assets left over. `cleaned` says that no staged asset is left. */
  datatype ReplaceResult =
    | Replaced
    | NotStaged(cleaned: bool)
    | Undone(cleaned: bool)
    | HalfDone(cleaned: bool)
    | NotDeleted

  /** How many requests must have failed for a replacement to end like that. */
  function LeastFaults(r: ReplaceResult): nat {
    match r
    case Replaced => 0
    case NotStaged(cleaned) => if cleaned then 1 else 2
    case Undone(cleaned) => if cleaned then 1 else 2
    case HalfDone(cleaned) => if cleaned then 2 else 3
    case NotDeleted => 1
  }

  /** The new assets have the final names. */
  predicate Published(now: Names, finals: seq<Name>, ids: (Id, Id))
    requires |finals| == 2
  {
    ids.0 in now && now[ids.0] == finals[0] && ids.1 in now && now[ids.1] == finals[1]
  }

  ghost predicate OldKept(a: Names, now: Names) {
    forall i :: i in a ==> i in now && now[i] == a[i]
  }

  /** Assets without a final name are untouched; an old asset with one has it, or has its previous name,
      or is gone, and gone only while the new pair is published. */
  ghost predicate OldSafe(a: Names, now: Names, finals: seq<Name>, nonce: string, ids: (Id, Id))
    requires |finals| == 2
  {
    && (forall i :: i in a && a[i] !in finals ==> i in now && now[i] == a[i])
    && (forall i :: i in a && i in now ==> now[i] == a[i] || now[i] == Previous(a[i], nonce))
    && (forall i :: i in a && i !in now ==> Published(now, finals, ids))
  }

  /** An old asset is deleted only while both new ones have the final names. */
  ghost predicate DeletedSafely(log: seq<Deletion>, log': seq<Deletion>, a: Names, finals: seq<Name>, ids: (Id, Id))
    requires |finals| == 2
  {
    && log <= log'
    && forall k :: |log| <= k < |log'| && log'[k].id in a ==>
        a[log'[k].id] in finals && Published(log'[k].before, finals, ids)
  }

  /** Cleaning up staged assets leaves the old ones, and only them once all are gone. */
  lemma CleanupRestores(a: Names, b: Names, c: Names, limit: Id, staged: set<Name>)
    requires Added(a, b, limit, staged) && Removed(b, c, staged) && forall n :: n in staged ==> Unused(a, n)
    ensures OldKept(a, c)
    ensures (forall n :: n in staged ==> Unused(c, n)) ==> c == a
  {
    if forall n :: n in staged ==> Unused(c, n) {
      forall i | i in c
        ensures i in a
      {
      }
    }
  }

  /** An interrupted plan leaves old assets their own or their previous names, and cleaning up staged
      assets does not touch them. */
  lemma InterruptedKeepsOld(a: Names, b: Names, limit: Id, plan: seq<AssetRename>, now: Names, c: Names,
                            log: seq<Deletion>, log': seq<Deletion>,
                            finals: seq<Name>, nonce: string, ids: (Id, Id))
    requires |finals| == 2 && FreshNonce(a, finals, nonce) && Added(a, b, limit, StagedNames(finals, nonce))
    requires Between(b, plan, now) && MovesOld(a, plan, finals, nonce)
    requires Removed(now, c, StagedNames(finals, nonce)) && DeletedOnly(log, log', now, StagedNames(finals, nonce))
    ensures OldSafe(a, c, finals, nonce, ids) && (forall i :: i in a ==> i in c)
    ensures DeletedSafely(log, log', a, finals, ids)
  {
    hide Previous, Pending;
    hide MovesOld, Between, Added;
    var staged := StagedNames(finals, nonce);
    forall i | i in a
      ensures i in now && now[i] !in staged && (now[i] == a[i] || (a[i] in finals && now[i] == Previous(a[i], nonce)))
    {
      OldDuringPlan(a, b, limit, staged, plan, now, finals, nonce, i);
      NamesDiffer(finals[0], a[i], nonce);
      NamesDiffer(finals[1], a[i], nonce);
      assert a[i] !in staged;
    }
  }

  lemma OldDuringPlan(a: Names, b: Names, limit: Id, staged: set<Name>, plan: seq<AssetRename>, now: Names,
                      finals: seq<Name>, nonce: string, i: Id)
    requires Added(a, b, limit, staged) && Between(b, plan, now) && MovesOld(a, plan, finals, nonce) && i in a
    ensures i in now && (now[i] == a[i] || (a[i] in finals && now[i] == Previous(a[i], nonce)))
  {
    hide Previous;
    assert i in b && b[i] == a[i];
    if k :| 0 <= k < |plan| && plan[k].id == i {
      assert now[plan[k].id] == plan[k].from || now[plan[k].id] == plan[k].to;
    } else {
      assert now[i] == b[i];
    }
  }

  /** Delete the replaced assets, stopping at the first failure. */
  method DeletePrevious(release: Release, previous: seq<Id>, ghost finals: seq<Name>, ghost ids: (Id, Id))
    returns (ok: bool)
    requires release.Valid() && |finals| == 2 && Published(release.assets, finals, ids)
    requires ids.0 !in previous && ids.1 !in previous
    modifies release`assets, release`deletions, release`faults
    ensures release.Valid() && Published(release.assets, finals, ids)
    ensures old(release.deletions) <= release.deletions
    ensures forall k :: |old(release.deletions)| <= k < |release.deletions| ==>
              release.deletions[k].id in previous && Published(release.deletions[k].before, finals, ids)
    ensures forall i :: i in old(release.assets) && i !in previous ==> i in release.assets
    ensures forall i :: i in release.assets ==> i in old(release.assets) && release.assets[i] == old(release.assets)[i]
    ensures old(release.faults) <= release.faults
    ensures !ok && (forall i :: i in previous ==> i in old(release.assets))
              && (forall j, k :: 0 <= j < k < |previous| ==> previous[j] != previous[k]) ==>
            FaultSince(old(release.faults), release.faults, {Deleting})
    ensures ok ==> forall i :: i in previous ==> i !in release.assets
  {
    hide FaultSince, Published, LeftAfter;
    ghost var a, log := release.assets, release.deletions;
    var k := 0;
    AllThere(a, previous);
    while k < |previous|
      invariant 0 <= k <= |previous|
      invariant release.Valid() && Published(release.assets, finals, ids)
      invariant log <= release.deletions
      invariant forall j :: |log| <= j < |release.deletions| ==>
                  release.deletions[j].id in previous && Published(release.deletions[j].before, finals, ids)
      invariant LeftAfter(a, release.assets, previous, k) && old(release.faults) <= release.faults
    {
      ghost var faults, b := release.faults, release.assets;
      var done := release.Delete(previous[k]);
      StillPublished(b, release.assets, previous[k], finals, ids);
      OneLeft(a, b, release.assets, previous, k);
      if !done {
        FaultNow(faults, Deleting, {Deleting});
        if previous[k] in b {
          FaultWithin(old(release.faults), faults, release.faults, release.faults, {Deleting}, {Deleting});
        }
        return false;
      }
      k := k + 1;
    }
    NoneLeft(a, release.assets, previous);
    return true;
  }

  /** The first `k` of some assets are gone, and no others. */
  ghost predicate LeftAfter(a: Names, now: Names, previous: seq<Id>, k: nat)
    requires k <= |previous|
  {
    && (forall i :: i in now ==> i in a && now[i] == a[i])
    && (forall i :: i in a && i !in now ==> i in previous[..k])
    && (forall j :: 0 <= j < k ==> previous[j] !in now)
  }

  lemma AllThere(a: Names, previous: seq<Id>)
    ensures LeftAfter(a, a, previous, 0)
  {
  }

  lemma StillPublished(b: Names, c: Names, id: Id, finals: seq<Name>, ids: (Id, Id))
    requires |finals| == 2 && Published(b, finals, ids) && id != ids.0 && id != ids.1 && (c == b || c == b - {id})
    ensures Published(c, finals, ids)
  {
  }

  /** One more request, with or without effect. */
  lemma OneLeft(a: Names, b: Names, c: Names, previous: seq<Id>, k: nat)
    requires k < |previous| && LeftAfter(a, b, previous, k) && (c == b || c == b - {previous[k]})
    ensures previous[k] !in c ==> LeftAfter(a, c, previous, k + 1)
    ensures forall i :: i in a && i !in previous ==> i in c
    ensures forall i :: i in c ==> i in a && c[i] == a[i]
    ensures previous[k] in a && (forall j, h :: 0 <= j < h < |previous| ==> previous[j] != previous[h]) ==>
              previous[k] in b
  {
    assert previous[..k + 1] == previous[..k] + [previous[k]];
  }

  lemma NoneLeft(a: Names, now: Names, previous: seq<Id>)
    requires LeftAfter(a, now, previous, |previous|)
    ensures forall i :: i in a && i !in previous ==> i in now
    ensures forall i :: i in now ==> i in a && now[i] == a[i]
    ensures forall i :: i in previous ==> i !in now
  {
  }

  /** Clean up what was staged when nothing was renamed, or every rename was undone. */
  method Abandon(release: Release, finals: seq<Name>, nonce: string, ghost a: Names, ghost limit: Id)
    returns (cleaned: bool)
    requires release.Valid() && |finals| == 2 && FreshNonce(a, finals, nonce)
    requires Added(a, release.assets, limit, StagedNames(finals, nonce))
    modifies release`assets, release`deletions, release`faults
    ensures release.Valid() && OldKept(a, release.assets) && AllNew(old(release.deletions), release.deletions, a)
    ensures cleaned ==> release.assets == a
    ensures old(release.faults) <= release.faults
    ensures !cleaned && finals[0] != finals[1] ==> FaultSince(old(release.faults), release.faults, {Listing, Deleting})
  {
    hide Added, Removed, Pending, Previous, FaultSince;
    ghost var b, log := release.assets, release.deletions;
    cleaned := CleanUp(release, finals, nonce);
    ghost var staged := StagedNames(finals, nonce);
    CleanupRestores(a, b, release.assets, limit, staged);
    NothingNew(a, log);
    NewRemoved(a, b, release.assets, limit, staged, staged, log, log, release.deletions);
  }

  method CleanUp(release: Release, finals: seq<Name>, nonce: string) returns (cleaned: bool)
    requires release.Valid() && |finals| == 2
    modifies release`assets, release`deletions, release`faults
    ensures release.Valid() && Removed(old(release.assets), release.assets, StagedNames(finals, nonce))
    ensures DeletedOnly(old(release.deletions), release.deletions, old(release.assets), StagedNames(finals, nonce))
    ensures old(release.faults) <= release.faults
    ensures !cleaned && finals[0] != finals[1] ==> FaultSince(old(release.faults), release.faults, {Listing, Deleting})
    ensures cleaned ==> forall n :: n in StagedNames(finals, nonce) ==> Unused(release.assets, n)
  {
    hide Pending, FaultSince, Removed, DeletedOnly;
    var staged := [Pending(finals[0], nonce), Pending(finals[1], nonce)];
    assert Elements(staged) == StagedNames(finals, nonce);
    NamesDiffer(finals[0], finals[1], nonce);
    cleaned := CleanupStagedAssets(release, staged);
  }

  lemma NothingNew(a: Names, log: seq<Deletion>)
    ensures AllNew(log, log, a)
  {
  }

  function StagedNames(finals: seq<Name>, nonce: string): set<Name>
    requires |finals| == 2
  {
    {Pending(finals[0], nonce), Pending(finals[1], nonce)}
  }

  /** Replace the published pair `finals`. In every run, whatever requests fail or lose their answers:
      no old asset is deleted until both new ones have the final names, no other asset is touched, an
      undone replacement has restored every name, and no rename asks for a taken name unless a
      back-rename before it took no effect. */
  method ReplaceFiles(release: Release, finals: seq<Name>, nonce: string)
    returns (r: ReplaceResult, ghost ids: (Id, Id))
    requires release.Valid() && |finals| == 2 && finals[0] != finals[1] && FreshNonce(release.assets, finals, nonce)
    modifies release
    ensures release.Valid()
    ensures OldSafe(old(release.assets), release.assets, finals, nonce, ids)
    ensures DeletedSafely(old(release.deletions), release.deletions, old(release.assets), finals, ids)
    ensures r.Replaced? || r.NotDeleted? ==> Published(release.assets, finals, ids)
    ensures r.Replaced? || r.NotDeleted? ==> ids.0 !in old(release.assets) && ids.1 !in old(release.assets)
    ensures r.Replaced? ==> forall i :: i in old(release.assets) && old(release.assets)[i] in finals ==>
              i !in release.assets
    ensures r.Replaced? ==> forall i :: i in release.assets ==> i in old(release.assets) || i == ids.0 || i == ids.1
    ensures r.NotStaged? || r.Undone? ==> OldKept(old(release.assets), release.assets)
    ensures r.HalfDone? ==> forall i :: i in old(release.assets) ==> i in release.assets
    ensures (r.NotStaged? || r.Undone?) && r.cleaned ==> release.assets == old(release.assets)
    ensures !r.HalfDone? ==> release.refused == old(release.refused)
    ensures old(release.faults) <= release.faults && |release.faults| >= |old(release.faults)| + LeastFaults(r)
    ensures r.NotStaged? ==> FaultSince(old(release.faults), release.faults, {Listing, Uploading})
    ensures r.Undone? || r.HalfDone? ==> FaultSince(old(release.faults), release.faults, {Renaming, Listing})
    ensures r.NotDeleted? ==> FaultSince(old(release.faults), release.faults, {Deleting})
    ensures release.faults == old(release.faults) ==> r.Replaced?
  {
    hide FaultSince, OldSafe, DeletedSafely, AllNew, OldKept, Published, Added, Pending, Previous;
    ghost var a, limit, log, gone := release.assets, release.nextId, release.faults, release.deletions;
    ids := (0, 0);
    NothingNew(a, gone);
    NothingAdded(a, limit, StagedNames(finals, nonce));
    NamesDiffer(finals[0], finals[1], nonce);
    var listing := release.List();
    if listing == None {
      FaultNow(log, Listing, {Listing, Uploading});
      r := GiveUp(release, finals, nonce, a, limit, ids, log, gone);
      return;
    }
    var staged := Stage(release, Pending(finals[0], nonce), Pending(finals[1], nonce));
    if staged == None {
      r := GiveUp(release, finals, nonce, a, limit, ids, log, gone);
      return;
    }
    ids := staged.value;
    ghost var from, gone', b := release.faults, release.deletions, release.assets;
    r := Promote(release, listing.value, finals, nonce, staged.value, a, limit);
    SafeSince(a, gone, gone', release.deletions, finals, ids);
    OnlyThePair(a, b, limit, finals, nonce, ids);
    if r.NotDeleted? {
      FaultWithin(log, from, release.faults, release.faults, {Deleting}, {Deleting});
    } else if !r.Replaced? {
      FaultWithin(log, from, release.faults, release.faults, {Renaming, Listing}, {Renaming, Listing});
    }
  }

  /** End a replacement of which nothing, or not everything, was staged. */
  method GiveUp(release: Release, finals: seq<Name>, nonce: string, ghost a: Names, ghost limit: Id,
                ghost ids: (Id, Id), ghost log: seq<Fault>, ghost gone: seq<Deletion>)
    returns (r: ReplaceResult)
    requires release.Valid() && |finals| == 2 && finals[0] != finals[1] && FreshNonce(a, finals, nonce)
    requires Added(a, release.assets, limit, StagedNames(finals, nonce))
    requires FaultSince(log, release.faults, {Listing, Uploading}) && AllNew(gone, release.deletions, a)
    modifies release`assets, release`deletions, release`faults
    ensures release.Valid() && r.NotStaged? && OldKept(a, release.assets) && (r.cleaned ==> release.assets == a)
    ensures OldSafe(a, release.assets, finals, nonce, ids)
    ensures DeletedSafely(gone, release.deletions, a, finals, ids)
    ensures old(release.faults) <= release.faults
    ensures FaultSince(log, release.faults, {Listing, Uploading}) && |release.faults| >= |log| + LeastFaults(r)
  {
    hide FaultSince;
    ghost var from := release.faults;
    OneFault(log, from, {Listing, Uploading});
    var cleaned := Abandon(release, finals, nonce, a, limit);
    FaultWithin(log, log, from, release.faults, {Listing, Uploading}, {Listing, Uploading});
    if !cleaned {
      OneFault(from, release.faults, {Listing, Deleting});
    }
    r := NotStaged(cleaned);
    NewIsSafe(a, release.assets, gone, release.deletions, finals, nonce, ids);
  }

  lemma NothingAdded(a: Names, limit: Id, names: set<Name>)
    ensures Added(a, a, limit, names)
  {
  }

  /** Staging deleted new assets at most. */
  lemma SafeSince(a: Names, gone: seq<Deletion>, gone': seq<Deletion>, gone'': seq<Deletion>, finals: seq<Name>,
                  ids: (Id, Id))
    requires |finals| == 2 && AllNew(gone, gone', a) && DeletedSafely(gone', gone'', a, finals, ids)
    ensures DeletedSafely(gone, gone'', a, finals, ids)
  {
  }

  /** Beside the old assets there is the staged pair only. */
  lemma OnlyThePair(a: Names, b: Names, limit: Id, finals: seq<Name>, nonce: string, ids: (Id, Id))
    requires |finals| == 2 && Unique(b) && Added(a, b, limit, StagedNames(finals, nonce))
    requires StagedAs(a, b, finals, nonce, ids)
    ensures forall i :: i in b ==> i in a || i == ids.0 || i == ids.1
  {
    hide Pending;
  }

  /** The plan of a swap, from the listing made before staging, and the ids of the old pair. */
  method MakePlan(listing: map<Name, Id>, finals: seq<Name>, nonce: string, ids: (Id, Id), ghost a: Names,
                  ghost b: Names, ghost limit: Id)
    returns (plan: seq<AssetRename>, previous: seq<Id>)
    requires |finals| == 2 && finals[0] != finals[1] && FreshNonce(a, finals, nonce) && Unique(a) && Unique(b)
    requires listing == ById(a) && Added(a, b, limit, StagedNames(finals, nonce)) && StagedAs(a, b, finals, nonce, ids)
    ensures Planned(b, plan) && Renamed(b, plan) == Swapped(b, finals, nonce, ids)
    ensures MovesOld(a, plan, finals, nonce)
    ensures forall i :: i in previous <==> i in a && a[i] in finals
    ensures forall j, k :: 0 <= j < k < |previous| ==> previous[j] != previous[k]
  {
    hide Pending, Previous, ById, Planned, Renamed, MovedAway, Swapped, FreshNonce, Unused, Added, Unique;
    ListedOld(a, b, limit, finals, nonce);
    plan, previous := MoveOld(listing, finals, nonce, b);
    SwapIsPlanned(b, plan, finals, nonce, ids);
    FinalsAreOld(a, b, limit, finals, nonce);
    MovesThenSwaps(a, b, limit, plan, finals, nonce, ids);
    plan := plan + [AssetRename(ids.0, Pending(finals[0], nonce), finals[0])]
        + [AssetRename(ids.1, Pending(finals[1], nonce), finals[1])];
  }

  lemma FinalsAreOld(a: Names, b: Names, limit: Id, finals: seq<Name>, nonce: string)
    requires |finals| == 2 && FreshNonce(a, finals, nonce) && Added(a, b, limit, StagedNames(finals, nonce))
    ensures forall i :: i in b && b[i] in finals <==> i in a && a[i] in finals
  {
    hide Pending, Previous;
  }

  lemma MovesThenSwaps(a: Names, b: Names, limit: Id, plan: seq<AssetRename>, finals: seq<Name>, nonce: string,
                       ids: (Id, Id))
    requires |finals| == 2 && MovesAway(b, plan, Elements(finals), nonce) && StagedAs(a, b, finals, nonce, ids)
    requires Added(a, b, limit, StagedNames(finals, nonce))
    ensures MovesOld(a, plan + [AssetRename(ids.0, b[ids.0], finals[0])] + [AssetRename(ids.1, b[ids.1], finals[1])],
              finals, nonce)
  {
    hide Pending, Previous, MovedAway, Renamed;
  }

  /** The renames of a plan that are about old assets move them to their previous names. */
  ghost predicate MovesOld(a: Names, plan: seq<AssetRename>, finals: seq<Name>, nonce: string) {
    forall k :: 0 <= k < |plan| && plan[k].id in a ==>
      plan[k].from == a[plan[k].id] && plan[k].from in finals && plan[k].to == Previous(plan[k].from, nonce)
  }

  /** The staged pair: new assets under the staged names. */
  predicate StagedAs(a: Names, b: Names, finals: seq<Name>, nonce: string, ids: (Id, Id))
    requires |finals| == 2
  {
    && ids.0 in b && ids.0 !in a && b[ids.0] == Pending(finals[0], nonce)
    && ids.1 in b && ids.1 !in a && b[ids.1] == Pending(finals[1], nonce)
  }

  /** A listing from before staging still tells who has the final names. */
  lemma ListedOld(a: Names, b: Names, limit: Id, finals: seq<Name>, nonce: string)
    requires |finals| == 2 && FreshNonce(a, finals, nonce) && Unique(a)
               && Added(a, b, limit, StagedNames(finals, nonce))
    ensures forall k, i :: 0 <= k < |finals| ==>
              ((finals[k] in ById(a) && ById(a)[finals[k]] == i) <==> (i in b && b[i] == finals[k]))
    ensures forall k :: 0 <= k < |finals| ==> Unused(b, Previous(finals[k], nonce))
    ensures forall k :: 0 <= k < 2 ==> Previous(finals[k], nonce) !in finals && Pending(finals[k], nonce) !in finals
  {
    forall k | 0 <= k < |finals|
      ensures Unused(b, Previous(finals[k], nonce))
    {
      NamesDiffer(finals[0], finals[k], nonce);
      NamesDiffer(finals[1], finals[k], nonce);
    }
  }

  /** Swap the staged pair with the old one and delete the old one. */
  method Promote(release: Release, listing: map<Name, Id>, finals: seq<Name>, nonce: string, ids: (Id, Id),
                 ghost a: Names, ghost limit: Id)
    returns (r: ReplaceResult)
    requires release.Valid() && |finals| == 2 && finals[0] != finals[1] && FreshNonce(a, finals, nonce)
    requires Unique(a) && listing == ById(a) && Added(a, release.assets, limit, StagedNames(finals, nonce))
    requires StagedAs(a, release.assets, finals, nonce, ids)
    modifies release`assets, release`deletions, release`refused, release`faults
    ensures release.Valid()
    ensures !r.NotStaged?
    ensures OldSafe(a, release.assets, finals, nonce, ids)
    ensures DeletedSafely(old(release.deletions), release.deletions, a, finals, ids)
    ensures r.Replaced? || r.NotDeleted? ==> Published(release.assets, finals, ids)
    ensures r.Replaced? ==> forall i :: i in a && a[i] in finals ==> i !in release.assets
    ensures r.Replaced? ==> forall i :: i in release.assets ==> i in old(release.assets)
    ensures old(release.faults) <= release.faults
    ensures r.NotDeleted? ==> FaultSince(old(release.faults), release.faults, {Deleting})
    ensures r.Undone? || r.HalfDone? ==> FaultSince(old(release.faults), release.faults, {Renaming, Listing})
    ensures |release.faults| >= |old(release.faults)| + LeastFaults(r)
    ensures r.Undone? ==> OldKept(a, release.assets)
    ensures r.HalfDone? ==> forall i :: i in a ==> i in release.assets
    ensures r.Undone? && r.cleaned ==> release.assets == a
    ensures !r.HalfDone? ==> release.refused == old(release.refused)
  {
    hide Planned, Added, Removed, Pending, Previous, ById, FreshNonce, Between, Renamed, MovesOld, OldSafe,
         DeletedSafely, Swapped, FaultSince, LeadTo;
    ghost var b := release.assets;
    var plan, previous := MakePlan(listing, finals, nonce, ids, a, b, limit);
    var renames;
    ghost var stuck;
    NamesDiffer(finals[0], finals[1], nonce);
    SwapLeads(b, plan, finals, nonce, ids);
    ghost var log0 := release.faults;
    renames, stuck := ApplyRenames(release, plan, [(finals[0], ids.0), (finals[1], ids.1)]);
    ghost var log1 := release.faults;
    if renames.Applied? {
      r := DeleteOld(release, previous, finals, nonce, ids, a, b, limit);
      if r.NotDeleted? {
        FaultWithin(log0, log1, release.faults, release.faults, {Deleting}, {Deleting});
        OneFault(log0, release.faults, {Deleting});
      }
    } else if renames.RolledBack? {
      ghost var log := release.deletions;
      var cleaned := Abandon(release, finals, nonce, a, limit);
      NewIsSafe(a, release.assets, log, release.deletions, finals, nonce, ids);
      r := Undone(cleaned);
      FaultWithin(log0, log0, log1, release.faults, {Renaming, Listing}, {Renaming, Listing});
      OneFault(log0, log1, {Renaming, Listing});
      if !cleaned {
        OneFault(log1, release.faults, {Listing, Deleting});
      }
    } else {
      ghost var now, log := release.assets, release.deletions;
      var cleaned := CleanUp(release, finals, nonce);
      InterruptedKeepsOld(a, b, limit, plan, now, release.assets, log, release.deletions, finals, nonce, ids);
      r := HalfDone(cleaned);
      FaultWithin(log0, log0, log1, release.faults, {Renaming, Listing}, {Renaming, Listing});
      if !cleaned {
        OneFault(log1, release.faults, {Listing, Deleting});
      }
    }
  }

  lemma OneFault(log: seq<Fault>, log': seq<Fault>, kinds: set<Fault>)
    requires FaultSince(log, log', kinds)
    ensures |log'| > |log|
  {
  }

  /** The whole plan leads to the new pair under the final names. */
  lemma SwapLeads(b: Names, plan: seq<AssetRename>, finals: seq<Name>, nonce: string, ids: (Id, Id))
    requires |finals| == 2 && finals[0] != finals[1] && ids.0 != ids.1
    requires Renamed(b, plan) == Swapped(b, finals, nonce, ids)
    ensures LeadTo(Renamed(b, plan), [(finals[0], ids.0), (finals[1], ids.1)])
  {
    hide Renamed;
  }

  lemma NewIsSafe(a: Names, now: Names, log: seq<Deletion>, log': seq<Deletion>, finals: seq<Name>, nonce: string,
                  ids: (Id, Id))
    requires |finals| == 2 && OldKept(a, now) && AllNew(log, log', a)
    ensures OldSafe(a, now, finals, nonce, ids) && DeletedSafely(log, log', a, finals, ids)
  {
  }

  /** The last phase: the new pair is in place, and the old assets go one by one. */
  method DeleteOld(release: Release, previous: seq<Id>, finals: seq<Name>, nonce: string, ghost ids: (Id, Id),
                   ghost a: Names, ghost b: Names, ghost limit: Id)
    returns (r: ReplaceResult)
    requires release.Valid() && |finals| == 2 && finals[0] != finals[1]
               && release.assets == Swapped(b, finals, nonce, ids)
    requires Added(a, b, limit, StagedNames(finals, nonce)) && StagedAs(a, b, finals, nonce, ids)
    requires forall i :: i in previous <==> i in a && a[i] in finals
    requires forall j, k :: 0 <= j < k < |previous| ==> previous[j] != previous[k]
    modifies release`assets, release`deletions, release`faults
    ensures release.Valid() && (r.Replaced? || r.NotDeleted?) && Published(release.assets, finals, ids)
    ensures OldSafe(a, release.assets, finals, nonce, ids)
    ensures DeletedSafely(old(release.deletions), release.deletions, a, finals, ids)
    ensures old(release.faults) <= release.faults
    ensures r.NotDeleted? ==> FaultSince(old(release.faults), release.faults, {Deleting})
    ensures r.Replaced? ==> forall i :: i in a && a[i] in finals ==> i !in release.assets
    ensures r.Replaced? ==> forall i :: i in release.assets ==> i in b
  {
    hide Pending, Previous, Swapped, Added, Unique, OldSafe, FaultSince;
    ghost var swapped, log := release.assets, release.deletions;
    SwappedNames(a, b, limit, finals, nonce, ids);
    var ok := DeletePrevious(release, previous, finals, ids);
    OldSafeAtEnd(a, swapped, release.assets, previous, finals, nonce, ids);
    r := if ok then Replaced else NotDeleted;
  }

  lemma SwappedNames(a: Names, b: Names, limit: Id, finals: seq<Name>, nonce: string, ids: (Id, Id))
    requires |finals| == 2 && finals[0] != finals[1]
    requires Added(a, b, limit, StagedNames(finals, nonce)) && StagedAs(a, b, finals, nonce, ids)
    ensures var now := Swapped(b, finals, nonce, ids);
            && Published(now, finals, ids) && now.Keys == b.Keys
            && forall i :: i in a ==> i in now && now[i] == if a[i] in finals then Previous(a[i], nonce) else a[i]
  {
    NamesDiffer(finals[0], finals[1], nonce);
    hide Pending, Previous;
  }

  lemma OldSafeAtEnd(a: Names, swapped: Names, now: Names, previous: seq<Id>, finals: seq<Name>, nonce: string,
                     ids: (Id, Id))
    requires |finals| == 2 && Published(now, finals, ids)
    requires forall i :: i in a ==> i in swapped && swapped[i] == if a[i] in finals then Previous(a[i], nonce) else a[i]
    requires forall i :: i in previous <==> i in a && a[i] in finals
    requires forall i :: i in swapped && i !in previous ==> i in now
    requires forall i :: i in now ==> i in swapped && now[i] == swapped[i]
    ensures OldSafe(a, now, finals, nonce, ids)
  {
    hide Previous;
  }
}
