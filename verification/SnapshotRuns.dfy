/** Whole runs of security-group refreshes: what is stored is what was last healthy. */
module SnapshotRuns {
  import opened Prelude
  import opened Ordering
  import opened SecurityGroups

  datatype Refresh = Refresh(fetches: seq<RegionFetch>, readable: bool, cancelled: bool, written: bool)

  predicate Saved(r: Refresh) {
    !r.cancelled && !AllFailed(r.fetches) && r.written
  }

  /** The failed regions, sorted. */
  ghost predicate IsFailureList(fetches: seq<RegionFetch>, regions: seq<string>) {
    InOrder(regions, RegionOrder) && multiset(regions) == multiset(RegionsThatFailed(fetches))
  }

  /** One refresh, between the snapshots before and after it, as the collection method promises. */
  ghost predicate Step(before: Option<Payload>, r: Refresh, after: Option<Payload>) {
    if Saved(r) then
      && after.Some?
      && (forall g :: g in after.value.data <==> Contributes(Previous(before, r.readable), r.fetches, g))
      && (ProperFetch(r.fetches) ==> DistinctKeys(after.value.data))
      && InOrder(after.value.data, GroupOrder) && IsFailureList(r.fetches, after.value.failedRegions)
    else after == before
  }

  /** `CollectSecurityGroups` takes exactly such a step. */
  method RefreshOnce(store: SnapshotStore, r: Refresh) returns (ok: bool)
    modifies store
    ensures ok == Saved(r) && Step(old(store.snapshot), r, store.snapshot)
  {
    ok := store.CollectSecurityGroups(r.fetches, r.readable, r.cancelled, r.written);
  }

  ghost predicate IsRun(snapshots: seq<Option<Payload>>, refreshes: seq<Refresh>) {
    && |snapshots| == |refreshes| + 1
    && (forall i :: 0 <= i < |refreshes| ==> Step(snapshots[i], refreshes[i], snapshots[i + 1]))
  }

  /** The stored group under a key. */
  predicate Stored(snapshot: Option<Payload>, g: Group) {
    snapshot.Some? && g in snapshot.value.data
  }

  /** A saved list with distinct keys is what the next collection sees as the previous index. */
  lemma PreviousIsStored(snapshot: Option<Payload>, g: Group)
    requires snapshot.Some? ==> DistinctKeys(snapshot.value.data)
    ensures Stored(snapshot, g) <==> KeyOf(g) in Previous(snapshot, true) && Previous(snapshot, true)[KeyOf(g)] == g
  {
    if snapshot.Some? {
      IndexedInPlace(snapshot.value.data);
    }
  }

  /** What a refresh does to a region it could not read: nothing. */
  predicate Passes(r: Refresh, region: string) {
    Saved(r) ==> r.readable && ProperFetch(r.fetches) && Failed(r.fetches, region)
  }

  lemma {:induction false} UnhealthyRegionIsKept(snapshots: seq<Option<Payload>>, refreshes: seq<Refresh>,
      region: string, g: Group)
    requires IsRun(snapshots, refreshes) && g.region == region
    requires snapshots[0].Some? ==> DistinctKeys(snapshots[0].value.data)
    requires forall i :: 0 <= i < |refreshes| ==> Passes(refreshes[i], region)
    ensures Stored(snapshots[|refreshes|], g) <==> Stored(snapshots[0], g)
    decreases |refreshes|
  {
    if refreshes != [] {
      var r := refreshes[0];
      assert Step(snapshots[0], r, snapshots[1]) && Passes(r, region);
      PreviousIsStored(snapshots[0], g);
      if Saved(r) {
        assert !exists l :: Lists(r.fetches, region, l);
      }
      UnhealthyRegionIsKept(snapshots[1..], refreshes[1..], region, g);
    }
  }

  /**
   Last healthy wins: when refresh `m` of a run was saved with the region healthy, and the region
   failed in every later refresh that was saved, the groups stored for it at the end are exactly the
   ones refresh `m` listed, each with the rules it read or else those of the snapshot it started from.
   */
  lemma LastHealthyWins(snapshots: seq<Option<Payload>>, refreshes: seq<Refresh>, m: nat, region: string, g: Group)
    requires IsRun(snapshots, refreshes) && m < |refreshes| && g.region == region
    requires Saved(refreshes[m]) && ProperFetch(refreshes[m].fetches) && !Failed(refreshes[m].fetches, region)
    requires forall i :: m < i < |refreshes| ==> Passes(refreshes[i], region)
    ensures Stored(snapshots[|refreshes|], g) <==>
      exists l ::
        Lists(refreshes[m].fetches, region, l) && IsListed(Previous(snapshots[m], refreshes[m].readable), region, l, g)
  {
    forall l
      ensures g == Resolve(Previous(snapshots[m], refreshes[m].readable), region, l) <==>
        IsListed(Previous(snapshots[m], refreshes[m].readable), region, l, g)
    {
      ResolvedIff(Previous(snapshots[m], refreshes[m].readable), region, l, g);
    }
    assert Step(snapshots[m], refreshes[m], snapshots[m + 1]);
    UnhealthyRegionIsKept(snapshots[m + 1..], refreshes[m + 1..], region, g);
  }

  // ----- Rules -----

  /** The `j`-th group of the `i`-th region result is this one, and its rules could not be read. */
  predicate ListedWithoutRules(fetches: seq<RegionFetch>, key: GroupKey, i: int, j: int) {
    && 0 <= i < |fetches| && fetches[i].region == key.region && fetches[i].groups.Some?
    && 0 <= j < |fetches[i].groups.value|
    && fetches[i].groups.value[j].id == key.id && fetches[i].groups.value[j].rules.None?
  }

  /** What a refresh does to a group whose rules it could not read: it stays, with its rules. */
  ghost predicate KeepsRules(r: Refresh, key: GroupKey) {
    Saved(r) ==>
      && r.readable && ProperFetch(r.fetches)
      && (Failed(r.fetches, key.region) || exists i, j :: ListedWithoutRules(r.fetches, key, i, j))
  }

  /** A group with these rules is stored under the key. */
  predicate StoredRules(snapshot: Option<Payload>, key: GroupKey, rules: Rules, available: bool) {
    snapshot.Some? && exists g ::
      g in snapshot.value.data && KeyOf(g) == key && g.rules == rules && g.rulesAvailable == available
  }

  lemma StepKeepsRules(before: Option<Payload>, r: Refresh, after: Option<Payload>, key: GroupKey, rules: Rules,
      available: bool)
    requires Step(before, r, after) && KeepsRules(r, key)
    requires before.Some? ==> DistinctKeys(before.value.data)
    requires StoredRules(before, key, rules, available)
    ensures StoredRules(after, key, rules, available)
  {
    if Saved(r) {
      var g :| g in before.value.data && KeyOf(g) == key && g.rules == rules && g.rulesAvailable == available;
      var previous := Previous(before, true);
      PreviousIsStored(before, g);
      if Failed(r.fetches, key.region) {
        assert Contributes(previous, r.fetches, g);
        assert g in after.value.data;
      } else {
        var i, j :| ListedWithoutRules(r.fetches, key, i, j);
        var l := r.fetches[i].groups.value[j];
        var h := Resolve(previous, key.region, l);
        assert l in r.fetches[i].groups.value;
        assert Lists(r.fetches, key.region, l);
        assert Contributes(previous, r.fetches, h) && KeyOf(h) == key;
        assert h in after.value.data;
      }
    }
  }

  lemma {:induction false} RulesSurvive(snapshots: seq<Option<Payload>>, refreshes: seq<Refresh>, key: GroupKey,
      rules: Rules, available: bool)
    requires IsRun(snapshots, refreshes)
    requires snapshots[0].Some? ==> DistinctKeys(snapshots[0].value.data)
    requires forall i :: 0 <= i < |refreshes| ==> KeepsRules(refreshes[i], key)
    requires StoredRules(snapshots[0], key, rules, available)
    ensures StoredRules(snapshots[|refreshes|], key, rules, available)
    decreases |refreshes|
  {
    if refreshes != [] {
      assert Step(snapshots[0], refreshes[0], snapshots[1]) && KeepsRules(refreshes[0], key);
      StepKeepsRules(snapshots[0], refreshes[0], snapshots[1], key, rules, available);
      RulesSurvive(snapshots[1..], refreshes[1..], key, rules, available);
    }
  }

  /**
   A group's stored rules are those of the last successful read: when refresh `m` was saved and read
   them, and every later saved refresh either failed in the region or listed the group without
   getting its rules, the rules stored at the end are the ones refresh `m` read.
   */
  lemma LastRulesWin(snapshots: seq<Option<Payload>>, refreshes: seq<Refresh>, m: nat, key: GroupKey, l: Listing)
    requires IsRun(snapshots, refreshes) && m < |refreshes|
    requires Saved(refreshes[m]) && ProperFetch(refreshes[m].fetches)
    requires Lists(refreshes[m].fetches, key.region, l) && l.id == key.id && l.rules.Some?
    requires forall i :: m < i < |refreshes| ==> KeepsRules(refreshes[i], key)
    ensures StoredRules(snapshots[|refreshes|], key, l.rules.value, true)
  {
    var g := Resolve(Previous(snapshots[m], refreshes[m].readable), key.region, l);
    assert Step(snapshots[m], refreshes[m], snapshots[m + 1]);
    assert Contributes(Previous(snapshots[m], refreshes[m].readable), refreshes[m].fetches, g);
    assert g in snapshots[m + 1].value.data && KeyOf(g) == key;
    RulesSurvive(snapshots[m + 1..], refreshes[m + 1..], key, l.rules.value, true);
  }

  /** A group whose rules were never read since it appeared at refresh `m` has none, and says so. */
  lemma NeverReadRulesAreUnavailable(snapshots: seq<Option<Payload>>, refreshes: seq<Refresh>, m: nat, key: GroupKey,
      l: Listing)
    requires IsRun(snapshots, refreshes) && m < |refreshes|
    requires Saved(refreshes[m]) && ProperFetch(refreshes[m].fetches)
    requires Lists(refreshes[m].fetches, key.region, l) && l.id == key.id && l.rules.None?
    requires key !in Previous(snapshots[m], refreshes[m].readable)
    requires forall i :: m < i < |refreshes| ==> KeepsRules(refreshes[i], key)
    ensures StoredRules(snapshots[|refreshes|], key, [], false)
  {
    var g := Resolve(Previous(snapshots[m], refreshes[m].readable), key.region, l);
    assert Step(snapshots[m], refreshes[m], snapshots[m + 1]);
    assert Contributes(Previous(snapshots[m], refreshes[m].readable), refreshes[m].fetches, g);
    assert g in snapshots[m + 1].value.data && KeyOf(g) == key;
    RulesSurvive(snapshots[m + 1..], refreshes[m + 1..], key, [], false);
  }

  /** There is one stored group per key, so the rules above are the group's rules. */
  lemma StoredRulesAreUnique(snapshot: Option<Payload>, key: GroupKey, r1: Rules, a1: bool, r2: Rules, a2: bool)
    requires snapshot.Some? ==> DistinctKeys(snapshot.value.data)
    requires StoredRules(snapshot, key, r1, a1) && StoredRules(snapshot, key, r2, a2)
    ensures r1 == r2 && a1 == a2
  {
    var g :| g in snapshot.value.data && KeyOf(g) == key && g.rules == r1 && g.rulesAvailable == a1;
    var h :| h in snapshot.value.data && KeyOf(h) == key && h.rules == r2 && h.rulesAvailable == a2;
    PreviousIsStored(snapshot, g);
    PreviousIsStored(snapshot, h);
  }

  /**
   Where the guarantee stops. A failed region keeps its groups exactly when the previous snapshot
   can be read; otherwise, and when a region is no longer configured, a saved refresh stores nothing
   for it.
   */
  lemma WhenARegionIsForgotten(before: Option<Payload>, r: Refresh, after: Option<Payload>, region: string, g: Group)
    requires Step(before, r, after) && Saved(r) && ProperFetch(r.fetches) && g.region == region
    requires before.Some? && DistinctKeys(before.value.data) && Stored(before, g)
    requires !exists l :: Lists(r.fetches, region, l)
    ensures Stored(after, g) <==> r.readable && Failed(r.fetches, region)
  {
    PreviousIsStored(before, g);
  }

  // ----- The order of arrival -----

  lemma SameFetches(a: seq<RegionFetch>, b: seq<RegionFetch>, region: string, l: Listing)
    requires multiset(a) == multiset(b)
    ensures Failed(a, region) <==> Failed(b, region)
    ensures Lists(a, region, l) <==> Lists(b, region, l)
    ensures AllFailed(a) <==> AllFailed(b)
  {
    FetchesAmong(a, b, region, l);
    FetchesAmong(b, a, region, l);
  }

  lemma FetchesAmong(a: seq<RegionFetch>, b: seq<RegionFetch>, region: string, l: Listing)
    requires multiset(a) == multiset(b)
    ensures Failed(a, region) ==> Failed(b, region)
    ensures Lists(a, region, l) ==> Lists(b, region, l)
    ensures AllFailed(a) ==> AllFailed(b)
  {
    PermutedElements(a, b);
    assert |multiset(a)| == |a| && |multiset(b)| == |b|;
    if Failed(a, region) {
      var i :| 0 <= i < |a| && a[i].region == region && a[i].groups.None?;
      assert a[i] in b;
    }
    if Lists(a, region, l) {
      var i :| 0 <= i < |a| && a[i].region == region && a[i].groups.Some? && l in a[i].groups.value;
      assert a[i] in b;
    }
    forall i | 0 <= i < |b| && AllFailed(a) ensures b[i].groups.None? {
      assert b[i] in a;
    }
  }

  lemma {:induction false} FailuresAreDistinct(fetches: seq<RegionFetch>)
    requires ProperFetch(fetches)
    ensures Distinct(RegionsThatFailed(fetches))
  {
    if fetches != [] {
      var init, last := fetches[..|fetches| - 1], fetches[|fetches| - 1];
      FailuresAreDistinct(init);
      FailedRegionsListed(init);
      assert last.region !in RegionsThatFailed(init);
    }
  }

  lemma SameFailureLists(a: seq<RegionFetch>, b: seq<RegionFetch>, r1: seq<string>, r2: seq<string>)
    requires ProperFetch(a) && ProperFetch(b) && multiset(a) == multiset(b)
    requires IsFailureList(a, r1) && IsFailureList(b, r2)
    ensures r1 == r2
  {
    var f1, f2 := RegionsThatFailed(a), RegionsThatFailed(b);
    FailuresAreDistinct(a);
    FailuresAreDistinct(b);
    FailedRegionsListed(a);
    FailedRegionsListed(b);
    forall r ensures r in f1 <==> r in f2 {
      SameFetches(a, b, r, Listing("", "", "", None));
    }
    assert DistinctBy(f1, RegionOrder) && DistinctBy(f2, RegionOrder);
    SameElements(f1, f2, RegionOrder);
    SortedKeysAreUnique(r1, r2, RegionOrder);
    assert |r1| == |Keys(r1, RegionOrder)| == |r2|;
    forall i | 0 <= i < |r1| ensures r1[i] == r2[i] {
      assert Keys(r1, RegionOrder)[i] == Keys(r2, RegionOrder)[i];
    }
  }

  lemma ProperInAnyOrder(a: seq<RegionFetch>, b: seq<RegionFetch>)
    requires ProperFetch(a) && multiset(a) == multiset(b)
    ensures ProperFetch(b)
  {
    assert DistinctBy(a, (f: RegionFetch) => f.region);
    PermutedStaysDistinct(a, b, (f: RegionFetch) => f.region);
    PermutedElements(a, b);
    forall i | 0 <= i < |b| && b[i].groups.Some?
      ensures forall j, k :: 0 <= j < k < |b[i].groups.value| ==> b[i].groups.value[j].id != b[i].groups.value[k].id
    {
      assert b[i] in a;
    }
  }

  /** The same snapshot, but for the order of groups of one name in one region. */
  ghost predicate SameUpToTies(a: Option<Payload>, b: Option<Payload>) {
    || a == b
    || (&& a.Some? && b.Some? && a.value.failedRegions == b.value.failedRegions
        && multiset(a.value.data) == multiset(b.value.data)
        && Keys(a.value.data, GroupOrder) == Keys(b.value.data, GroupOrder))
  }

  /** What a refresh stores does not depend on the order in which the regions answer. */
  lemma ArrivalOrderDoesNotShow(before: Option<Payload>, r: Refresh, fetches: seq<RegionFetch>,
      after1: Option<Payload>, after2: Option<Payload>)
    requires ProperFetch(r.fetches) && multiset(fetches) == multiset(r.fetches)
    requires Step(before, r, after1) && Step(before, r.(fetches := fetches), after2)
    ensures SameUpToTies(after1, after2)
  {
    var previous := Previous(before, r.readable);
    SameFetches(r.fetches, fetches, "", Listing("", "", "", None));
    if Saved(r) {
      ProperInAnyOrder(r.fetches, fetches);
      SameFailureLists(r.fetches, fetches, after1.value.failedRegions, after2.value.failedRegions);
      var a, b := after1.value.data, after2.value.data;
      forall g ensures g in a <==> g in b {
        SameContributions(previous, r.fetches, fetches, g);
      }
      assert DistinctBy(a, SecurityGroups.KeyOf) && DistinctBy(b, SecurityGroups.KeyOf);
      SameElements(a, b, SecurityGroups.KeyOf);
      SortedKeysAreUnique(a, b, GroupOrder);
    }
  }

  lemma SameContributions(previous: Index, a: seq<RegionFetch>, b: seq<RegionFetch>, g: Group)
    requires multiset(a) == multiset(b)
    ensures Contributes(previous, a, g) <==> Contributes(previous, b, g)
  {
    forall l ensures Lists(a, g.region, l) <==> Lists(b, g.region, l) {
      SameFetches(a, b, g.region, l);
    }
    SameFetches(a, b, g.region, Listing("", "", "", None));
  }
}
