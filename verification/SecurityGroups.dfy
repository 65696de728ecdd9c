/**
 Collecting the security groups of an account and merging them with the previous snapshot: regions
 that failed keep their last healthy groups, groups whose rules could not be read keep their last
 rules, and a collection that failed everywhere or was cancelled is not saved at all.
 */
module SecurityGroups {
  import opened Prelude
  import opened Ordering

  type Rules = seq<string>

  datatype GroupKey = GroupKey(region: string, id: string)

  /** A stored group; `info` stands for the remaining descriptive fields. */
  datatype Group = Group(id: string, region: string, name: string, info: string, rules: Rules, rulesAvailable: bool)

  /** A group as the provider listed it, with its rules unless reading them failed. */
  datatype Listing = Listing(id: string, name: string, info: string, rules: Option<Rules>)

  /** What one region's goroutine sends: its groups, or None if the region failed. */
  datatype RegionFetch = RegionFetch(region: string, groups: Option<seq<Listing>>)

  type Index = map<GroupKey, Group>

  datatype Payload = Payload(data: seq<Group>, failedRegions: seq<string>)

  function KeyOf(g: Group): GroupKey {
    GroupKey(g.region, g.id)
  }

  /** The previous snapshot by region and id; of equal keys the last wins. */
  function Indexed(data: seq<Group>): Index {
    if data == [] then map[]
    else Indexed(data[..|data| - 1])[KeyOf(data[|data| - 1]) := data[|data| - 1]]
  }

  predicate DistinctKeys(data: seq<Group>) {
    forall i, j :: 0 <= i < j < |data| ==> KeyOf(data[i]) != KeyOf(data[j])
  }

  /** The provider lists each region once and each group once per region. */
  predicate ProperFetch(fetches: seq<RegionFetch>) {
    && (forall i, j :: 0 <= i < j < |fetches| ==> fetches[i].region != fetches[j].region)
    && (forall i :: 0 <= i < |fetches| && fetches[i].groups.Some? ==>
          forall j, k :: 0 <= j < k < |fetches[i].groups.value| ==>
            fetches[i].groups.value[j].id != fetches[i].groups.value[k].id)
  }

  function Unresolved(region: string, l: Listing): Group {
    Group(l.id, region, l.name, l.info, [], false)
  }

  /** A listed group with its rules, or with those it had before. */
  function Resolve(previous: Index, region: string, l: Listing): Group {
    var key := GroupKey(region, l.id);
    match l.rules
    case Some(rules) => Group(l.id, region, l.name, l.info, rules, true)
    case None =>
      if key in previous then Group(l.id, region, l.name, l.info, previous[key].rules, previous[key].rulesAvailable)
      else Unresolved(region, l)
  }

  /** Field by field: what was listed, with the rules read or else those last stored under its key. */
  predicate IsListed(previous: Index, region: string, l: Listing, g: Group) {
    && g.region == region && g.id == l.id && g.name == l.name && g.info == l.info
    && (l.rules.Some? ==> g.rules == l.rules.value && g.rulesAvailable)
    && (l.rules.None? && GroupKey(region, l.id) in previous ==>
          var stored := previous[GroupKey(region, l.id)];
          g.rules == stored.rules && g.rulesAvailable == stored.rulesAvailable)
    && (l.rules.None? && GroupKey(region, l.id) !in previous ==> g.rules == [] && !g.rulesAvailable)
  }

  lemma ResolvedIff(previous: Index, region: string, l: Listing, g: Group)
    ensures g == Resolve(previous, region, l) <==> IsListed(previous, region, l, g)
  {
  }

  predicate Failed(fetches: seq<RegionFetch>, region: string) {
    exists i :: 0 <= i < |fetches| && fetches[i].region == region && fetches[i].groups.None?
  }

  predicate Lists(fetches: seq<RegionFetch>, region: string, l: Listing) {
    exists i ::
      0 <= i < |fetches| && fetches[i].region == region && fetches[i].groups.Some? && l in fetches[i].groups.value
  }

  ghost predicate Contributes(previous: Index, fetches: seq<RegionFetch>, g: Group) {
    || (exists l :: Lists(fetches, g.region, l) && g == Resolve(previous, g.region, l))
    || (KeyOf(g) in previous && previous[KeyOf(g)] == g && Failed(fetches, g.region))
  }

  /** No region could be read although some were asked. */
  predicate AllFailed(fetches: seq<RegionFetch>) {
    |fetches| > 0 && forall i :: 0 <= i < |fetches| ==> fetches[i].groups.None?
  }

  /** The groups a collection can fall back on. */
  function Previous(snapshot: Option<Payload>, readable: bool): Index {
    if readable && snapshot.Some? then Indexed(snapshot.value.data) else map[]
  }

  /** The stored groups are sorted by region and name. */
  function GroupOrder(g: Group): Key {
    Key(g.region, g.name)
  }

  function RegionOrder(region: string): Key {
    Key(region, "")
  }

  /** What the two orders mean: by region, groups of one region by name; and by region. */
  lemma OrdersMean(data: seq<Group>, regions: seq<string>, i: nat, j: nat)
    ensures InOrder(data, GroupOrder) && i < j < |data| ==>
      if data[i].region == data[j].region then AtMost(data[i].name, data[j].name)
      else AtMost(data[i].region, data[j].region)
    ensures InOrder(regions, RegionOrder) && i < j < |regions| ==> AtMost(regions[i], regions[j])
  {
    if InOrder(data, GroupOrder) && i < j < |data| {
      assert Precedes(GroupOrder(data[i]), GroupOrder(data[j]));
    }
    if InOrder(regions, RegionOrder) && i < j < |regions| {
      assert Precedes(RegionOrder(regions[i]), RegionOrder(regions[j]));
      KeysAreOrdered(RegionOrder(regions[i]), RegionOrder(regions[i]), RegionOrder(regions[i]));
      AtMostIsTotal(regions[i], regions[i]);
    }
  }

  class SnapshotStore {
    var snapshot: Option<Payload>

    constructor ()
      ensures snapshot == None
    {
      snapshot := None;
    }

    /**
     One collection. `fetches` are the region results in the order they arrive on the channel;
     `readable` is false when the stored snapshot could not be read back, `written` when the new one
     cannot be saved. The saved lists hold exactly the groups that contribute and the regions that
     failed, in order, and once each when the provider lists each region and group once.
     */
    method CollectSecurityGroups(fetches: seq<RegionFetch>, readable: bool, cancelled: bool, written: bool)
      returns (ok: bool)
      modifies this
      ensures ok == (!cancelled && !AllFailed(fetches) && written)
      ensures !ok ==> snapshot == old(snapshot)
      ensures ok ==> snapshot.Some?
      ensures ok ==>
        forall g :: g in snapshot.value.data <==> Contributes(Previous(old(snapshot), readable), fetches, g)
      ensures ok && ProperFetch(fetches) ==> DistinctKeys(snapshot.value.data)
      ensures ok ==> InOrder(snapshot.value.data, GroupOrder)
      ensures ok ==> multiset(snapshot.value.failedRegions) == multiset(RegionsThatFailed(fetches))
      ensures ok ==> forall r :: r in snapshot.value.failedRegions <==> Failed(fetches, r)
      ensures ok ==> InOrder(snapshot.value.failedRegions, RegionOrder)
    {
      var previous := IndexPrevious(snapshot, readable);
      var items, failedRegions, successful := FetchRegions(previous, fetches);
      if cancelled {
        return false;
      }
      if successful == 0 && |fetches| > 0 {
        return false;
      }
      if !written {
        return false;
      }
      var kept := KeepFailedRegions(previous, failedRegions);
      MergedContents(previous, fetches, items, kept);
      var data := Sort(items + kept, GroupOrder);
      SameContents(items + kept, data);
      var failed := Sort(failedRegions, RegionOrder);
      PermutedElements(failedRegions, failed);
      snapshot := Some(Payload(data, failed));
      ok := true;
    }
  }

  lemma SameContents(a: seq<Group>, b: seq<Group>)
    requires multiset(a) == multiset(b)
    ensures forall g :: g in a <==> g in b
    ensures DistinctKeys(a) ==> DistinctKeys(b)
  {
    PermutedElements(a, b);
    if DistinctKeys(a) {
      assert DistinctBy(a, KeyOf);
      PermutedStaysDistinct(a, b, KeyOf);
    }
  }

  function RegionsThatFailed(fetches: seq<RegionFetch>): seq<string> {
    if fetches == [] then []
    else
      var last := fetches[|fetches| - 1];
      RegionsThatFailed(fetches[..|fetches| - 1]) + (if last.groups.None? then [last.region] else [])
  }

  function ResolvedRegion(previous: Index, region: string, listed: seq<Listing>): (r: seq<Group>)
    ensures |r| == |listed| && forall i :: 0 <= i < |r| ==> r[i] == Resolve(previous, region, listed[i])
  {
    seq(|listed|, i requires 0 <= i < |listed| => Resolve(previous, region, listed[i]))
  }

  function HealthyGroups(previous: Index, fetches: seq<RegionFetch>): seq<Group> {
    if fetches == [] then []
    else
      var last := fetches[|fetches| - 1];
      HealthyGroups(previous, fetches[..|fetches| - 1])
      + (if last.groups.Some? then ResolvedRegion(previous, last.region, last.groups.value) else [])
  }

  /** Indexes the stored groups, if they could be read back. */
  method IndexPrevious(snapshot: Option<Payload>, readable: bool) returns (previous: Index)
    ensures previous == Previous(snapshot, readable) && PreviousInPlace(previous)
  {
    previous := map[];
    if readable && snapshot.Some? {
      var data := snapshot.value.data;
      for i := 0 to |data|
        invariant previous == Indexed(data[..i])
      {
        assert data[..i + 1][..i] == data[..i];
        previous := previous[KeyOf(data[i]) := data[i]];
      }
      assert data[..|data|] == data;
      IndexedInPlace(data);
    }
  }

  /** Gathers the region results one by one as they arrive. */
  method FetchRegions(previous: Index, fetches: seq<RegionFetch>)
    returns (items: seq<Group>, failedRegions: seq<string>, successful: nat)
    ensures items == HealthyGroups(previous, fetches)
    ensures failedRegions == RegionsThatFailed(fetches) && forall r :: r in failedRegions <==> Failed(fetches, r)
    ensures successful == 0 && |fetches| > 0 <==> AllFailed(fetches)
  {
    items, failedRegions, successful := [], [], 0;
    for i := 0 to |fetches|
      invariant successful == 0 <==> forall j :: 0 <= j < i ==> fetches[j].groups.None?
      invariant items == HealthyGroups(previous, fetches[..i])
      invariant failedRegions == RegionsThatFailed(fetches[..i])
    {
      assert fetches[..i + 1][..i] == fetches[..i];
      if fetches[i].groups.None? {
        failedRegions := failedRegions + [fetches[i].region];
      } else {
        successful := successful + 1;
        var batch := ResolveRegion(previous, fetches[i].region, fetches[i].groups.value);
        items := items + batch;
      }
    }
    assert fetches[..|fetches|] == fetches;
    FailedRegionsListed(fetches);
  }

  /** The rules are filled into the listed groups in place, one goroutine per group. */
  method ResolveRegion(previous: Index, region: string, listed: seq<Listing>) returns (batch: seq<Group>)
    ensures batch == ResolvedRegion(previous, region, listed)
  {
    var items := new Group[|listed|](
      i requires 0 <= i < |listed| => Unresolved(region, listed[i]));
    for index := 0 to |listed|
      invariant forall i :: 0 <= i < index ==> items[i] == Resolve(previous, region, listed[i])
      invariant forall i :: index <= i < |listed| ==> items[i] == Unresolved(region, listed[i])
    {
      var key := GroupKey(region, items[index].id);
      match listed[index].rules
      case Some(rules) =>
        items[index] := items[index].(rules := rules, rulesAvailable := true);
      case None =>
        if key in previous {
          items[index] := items[index].(rules := previous[key].rules, rulesAvailable := previous[key].rulesAvailable);
        } else {
          items[index] := items[index].(rules := []);
        }
    }
    batch := items[..];
  }

  /** The previous groups of the regions that failed, in any order. */
  method KeepFailedRegions(previous: Index, failedRegions: seq<string>) returns (kept: seq<Group>)
    requires PreviousInPlace(previous)
    ensures forall g :: g in kept <==> exists k :: k in previous && previous[k] == g && g.region in failedRegions
    ensures DistinctKeys(kept)
  {
    kept := [];
    var failed: set<string> := set r | r in failedRegions;
    var pending, seen := previous.Keys, {};
    while pending != {}
      invariant pending + seen == previous.Keys && pending !! seen
      invariant forall g :: g in kept <==> exists k :: k in seen && previous[k] == g && g.region in failedRegions
      invariant DistinctKeys(kept) && forall i :: 0 <= i < |kept| ==> KeyOf(kept[i]) in seen
      decreases pending
    {
      var k :| k in pending;
      pending, seen := pending - {k}, seen + {k};
      if previous[k].region in failed {
        kept := kept + [previous[k]];
      }
    }
  }

  /** Every group is indexed under its own key. */
  predicate PreviousInPlace(previous: Index) {
    forall k :: k in previous ==> KeyOf(previous[k]) == k
  }

  lemma {:induction false} IndexedInPlace(data: seq<Group>)
    ensures PreviousInPlace(Indexed(data))
    ensures forall k :: k in Indexed(data) ==> Indexed(data)[k] in data
    ensures forall g :: g in data ==> KeyOf(g) in Indexed(data)
    ensures DistinctKeys(data) ==> forall g :: g in data ==> Indexed(data)[KeyOf(g)] == g
  {
    if data != [] {
      var init, last := data[..|data| - 1], data[|data| - 1];
      assert data == init + [last];
      IndexedInPlace(init);
      if DistinctKeys(data) {
        forall i | 0 <= i < |init| ensures KeyOf(init[i]) != KeyOf(last) {
          assert KeyOf(data[i]) != KeyOf(data[|data| - 1]);
        }
        assert DistinctKeys(init);
      }
    }
  }

  lemma {:induction false} FailedRegionsListed(fetches: seq<RegionFetch>)
    ensures forall r :: r in RegionsThatFailed(fetches) <==> Failed(fetches, r)
  {
    if fetches != [] {
      var init, last := fetches[..|fetches| - 1], fetches[|fetches| - 1];
      FailedRegionsListed(init);
      forall r ensures Failed(fetches, r) <==> Failed(init, r) || (last.region == r && last.groups.None?) {
        if Failed(init, r) {
          var i :| 0 <= i < |init| && init[i].region == r && init[i].groups.None?;
          assert fetches[i] == init[i];
        }
      }
    }
  }

  lemma {:induction false} HealthyGroupsListed(previous: Index, fetches: seq<RegionFetch>)
    ensures forall g ::
      g in HealthyGroups(previous, fetches) <==>
        exists l :: Lists(fetches, g.region, l) && g == Resolve(previous, g.region, l)
  {
    if fetches != [] {
      var init, last := fetches[..|fetches| - 1], fetches[|fetches| - 1];
      HealthyGroupsListed(previous, init);
      assert fetches == init + [last];
      forall region, l ensures Lists(fetches, region, l) <==>
        Lists(init, region, l) || (last.region == region && last.groups.Some? && l in last.groups.value)
      {
        if Lists(init, region, l) {
          var i :| 0 <= i < |init| && init[i].region == region && init[i].groups.Some? && l in init[i].groups.value;
          assert fetches[i] == init[i];
        }
      }
      if last.groups.Some? {
        var batch := ResolvedRegion(previous, last.region, last.groups.value);
        forall g
          ensures g in batch <==>
            g.region == last.region && exists l :: l in last.groups.value && g == Resolve(previous, g.region, l)
        {
          if g in batch {
            var i :| 0 <= i < |batch| && batch[i] == g;
            assert last.groups.value[i] in last.groups.value;
          }
          if l :| g.region == last.region && l in last.groups.value && g == Resolve(previous, g.region, l) {
            var i :| 0 <= i < |batch| && last.groups.value[i] == l;
            assert batch[i] == g;
          }
        }
      }
    }
  }

  lemma {:induction false} HealthyGroupsDistinct(previous: Index, fetches: seq<RegionFetch>)
    requires ProperFetch(fetches)
    ensures DistinctKeys(HealthyGroups(previous, fetches))
  {
    if fetches != [] {
      var init, last := fetches[..|fetches| - 1], fetches[|fetches| - 1];
      assert forall i :: 0 <= i < |init| ==> init[i] == fetches[i];
      HealthyGroupsDistinct(previous, init);
      HealthyGroupsListed(previous, init);
      forall g | g in HealthyGroups(previous, init) ensures g.region != last.region {
        var l :| Lists(init, g.region, l);
      }
      if last.groups.Some? {
        var a, b := HealthyGroups(previous, init), ResolvedRegion(previous, last.region, last.groups.value);
        assert DistinctKeys(b);
        assert forall i :: 0 <= i < |a| ==> a[i] in a;
      }
    }
  }

  lemma MergedContents(previous: Index, fetches: seq<RegionFetch>, items: seq<Group>, kept: seq<Group>)
    requires items == HealthyGroups(previous, fetches)
    requires forall g :: g in kept <==> exists k :: k in previous && previous[k] == g && Failed(fetches, g.region)
    requires PreviousInPlace(previous) && DistinctKeys(kept)
    ensures forall g :: g in items + kept <==> Contributes(previous, fetches, g)
    ensures ProperFetch(fetches) ==> DistinctKeys(items + kept)
  {
    HealthyGroupsListed(previous, fetches);
    if ProperFetch(fetches) {
      HealthyGroupsDistinct(previous, fetches);
      forall g, h | g in items && h in kept ensures g.region != h.region {
        var l :| Lists(fetches, g.region, l);
      }
      assert forall i :: 0 <= i < |items| ==> items[i] in items;
      assert forall i :: 0 <= i < |kept| ==> kept[i] in kept;
    }
  }
}
