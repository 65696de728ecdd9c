/**
 What the overview report counts: the instances, and the items of the selected service snapshots, each
 as one line with the account and region it is counted under.
 */
module ReportLines {
  import opened Prelude

  datatype Service = Desktops | Buckets

  /** A decoded snapshot item; a field is None when it is missing or not a string. */
  datatype Item = Item(
    regionId: Option<string>, region: Option<string>, location: Option<string>,
    desktopId: Option<string>, chargeType: Option<string>, bytes: int, objects: int)

  /** A stored snapshot; `items` is None when its payload cannot be decoded. */
  datatype Snapshot = Snapshot(account: int, service: Service, region: string, items: Option<seq<Item>>)

  datatype InstanceRow = InstanceRow(account: int, region: string, running: bool)

  datatype Amounts = Amounts(instances: int, running: int, desktops: int, buckets: int, bytes: int, objects: int)
  datatype Dimension = Dimension(key: string, amounts: Amounts)
  datatype Report = Report(total: Amounts, byProvider: seq<Dimension>, byRegion: seq<Dimension>,
      chargeTypes: map<string, int>)

  const ZERO := Amounts(0, 0, 0, 0, 0, 0)
  const ALL := "all"
  const UNKNOWN_REGION := "unknown"
  const UNKNOWN_CHARGE := "Unknown"
  const PROVIDERS: seq<string> := ["aws", "alibaba", "azure", "gcp"]

  function Plus(a: Amounts, b: Amounts): Amounts {
    Amounts(a.instances + b.instances, a.running + b.running, a.desktops + b.desktops,
            a.buckets + b.buckets, a.bytes + b.bytes, a.objects + b.objects)
  }

  // ----- The lines of a report -----

  datatype Kind = Instance(running: bool) | Desktop(id: string, charge: string) | Bucket(bytes: int, objects: int)

  /** One thing to count, with the account and region it is counted under. */
  datatype Line = Line(account: int, region: string, kind: Kind)

  function StringOr(a: Option<string>, b: string): string {
    if a.Some? then a.value else b
  }

  /** The first of the three fields that is a string, even an empty one. */
  function FirstRegion(item: Item): string {
    StringOr(item.regionId, StringOr(item.region, StringOr(item.location, "")))
  }

  function RegionOf(snapshot: Snapshot, item: Item): string {
    var region := if FirstRegion(item) == "" then snapshot.region else FirstRegion(item);
    if region == "" || region == ALL then UNKNOWN_REGION else region
  }

  function LineOf(snapshot: Snapshot, item: Item): Line {
    Line(snapshot.account, RegionOf(snapshot, item),
         match snapshot.service
         case Desktops =>
           var charge := StringOr(item.chargeType, "");
           Desktop(StringOr(item.desktopId, ""), if charge == "" then UNKNOWN_CHARGE else charge)
         case Buckets => Bucket(item.bytes, item.objects))
  }

  function InstanceLine(row: InstanceRow): Line {
    Line(row.account, if row.region == "" then UNKNOWN_REGION else row.region, Instance(row.running))
  }

  /** An account's `all` snapshot of desktops replaces its regional ones. */
  predicate HasAll(snapshots: seq<Snapshot>, account: int) {
    exists s :: s in snapshots && s.service == Desktops && s.region == ALL && s.account == account
  }

  predicate IsSelected(snapshots: seq<Snapshot>, s: Snapshot) {
    !(s.service == Desktops && HasAll(snapshots, s.account) && s.region != ALL) && s.items.Some?
  }

  function ItemLines(s: Snapshot, items: seq<Item>): (r: seq<Line>)
    ensures |r| == |items| && forall i :: 0 <= i < |r| ==> r[i] == LineOf(s, items[i])
  {
    seq(|items|, i requires 0 <= i < |items| => LineOf(s, items[i]))
  }

  /** The lines of the remaining snapshots, `all` being every snapshot of the report. */
  function SnapshotLines(all: seq<Snapshot>, rest: seq<Snapshot>): seq<Line> {
    if rest == [] then []
    else
      var own := if IsSelected(all, rest[0]) then ItemLines(rest[0], rest[0].items.value) else [];
      own + SnapshotLines(all, rest[1..])
  }

  function InstanceLines(rows: seq<InstanceRow>): (r: seq<Line>)
    ensures |r| == |rows| && forall i :: 0 <= i < |r| ==> r[i] == InstanceLine(rows[i])
  {
    seq(|rows|, i requires 0 <= i < |rows| => InstanceLine(rows[i]))
  }

  function AllLines(rows: seq<InstanceRow>, snapshots: seq<Snapshot>): seq<Line> {
    InstanceLines(rows) + SnapshotLines(snapshots, snapshots)
  }

  // ----- What a line says -----

  /**
   The region an item is counted under: the first of its three region fields that is a string, the
   snapshot's own if that string is blank or none is, and `unknown` for none or for `all`.
   */
  lemma RegionIsTheFirstNamed(s: Snapshot, item: Item)
    ensures RegionOf(s, item) != "" && RegionOf(s, item) != "all"
    ensures forall r :: IsProper(r) && item.regionId == Some(r) ==> RegionOf(s, item) == r
    ensures forall r :: IsProper(r) && item.regionId.None? && item.region == Some(r) ==> RegionOf(s, item) == r
    ensures forall r :: IsProper(r) && item.regionId.None? && item.region.None? && item.location == Some(r) ==>
      RegionOf(s, item) == r
    ensures item.regionId == Some("all") ==> RegionOf(s, item) == "unknown"
    ensures (item.regionId == Some("") || (item.regionId.None? && item.region == Some(""))
        || (item.regionId.None? && item.region.None? && item.location in {None, Some("")})) ==>
      RegionOf(s, item) == if IsProper(s.region) then s.region else "unknown"
  {
  }

  predicate IsProper(region: string) {
    region != "" && region != "all"
  }

  lemma LineOfRow(row: InstanceRow)
    ensures InstanceLine(row).account == row.account && InstanceLine(row).kind == Instance(row.running)
    ensures row.region != "" ==> InstanceLine(row).region == row.region
    ensures row.region == "" ==> InstanceLine(row).region == "unknown"
  {
  }

  /** The other fields of an item's line. */
  lemma LineOfItem(s: Snapshot, item: Item)
    ensures LineOf(s, item).account == s.account && LineOf(s, item).region == RegionOf(s, item)
    ensures s.service == Buckets ==> LineOf(s, item).kind == Bucket(item.bytes, item.objects)
    ensures s.service == Desktops ==> LineOf(s, item).kind.Desktop?
    ensures s.service == Desktops ==> forall id :: item.desktopId == Some(id) ==> LineOf(s, item).kind.id == id
    ensures s.service == Desktops && item.desktopId.None? ==> LineOf(s, item).kind.id == ""
    ensures s.service == Desktops ==>
      forall c :: c != "" && item.chargeType == Some(c) ==> LineOf(s, item).kind.charge == c
    ensures s.service == Desktops && item.chargeType in {None, Some("")} ==> LineOf(s, item).kind.charge == "Unknown"
  {
  }

  // ----- Which lines there are -----

  predicate FromItem(s: Snapshot, x: Line) {
    s.items.Some? && exists item :: item in s.items.value && x == LineOf(s, item)
  }

  ghost predicate FromSelected(all: seq<Snapshot>, some: seq<Snapshot>, x: Line) {
    exists s :: s in some && IsSelected(all, s) && FromItem(s, x)
  }

  lemma ItemLinesAre(s: Snapshot, x: Line)
    requires s.items.Some?
    ensures x in ItemLines(s, s.items.value) <==> FromItem(s, x)
  {
    var lines := ItemLines(s, s.items.value);
    if x in lines {
      var i :| 0 <= i < |lines| && lines[i] == x;
      assert s.items.value[i] in s.items.value;
    }
    if FromItem(s, x) {
      var item :| item in s.items.value && x == LineOf(s, item);
      var i :| 0 <= i < |s.items.value| && s.items.value[i] == item;
      assert lines[i] == x;
    }
  }

  lemma {:induction false} LinesComeFromSelected(all: seq<Snapshot>, rest: seq<Snapshot>, x: Line)
    ensures x in SnapshotLines(all, rest) <==> FromSelected(all, rest, x)
    decreases |rest|
  {
    if rest != [] {
      var s, more := rest[0], rest[1..];
      LinesComeFromSelected(all, more, x);
      assert rest == [s] + more;
      if IsSelected(all, s) {
        ItemLinesAre(s, x);
      }
      if FromSelected(all, rest, x) {
        var t :| t in rest && IsSelected(all, t) && FromItem(t, x);
        assert t == s || t in more;
      }
    }
  }

  /**
   An account's `all` snapshot replaces its regional ones, whether it can be decoded or not: every
   desktop counted for such an account comes from a decodable `all` snapshot.
   */
  lemma AllReplacesRegional(snapshots: seq<Snapshot>, x: Line)
    requires x in SnapshotLines(snapshots, snapshots) && x.kind.Desktop? && HasAll(snapshots, x.account)
    ensures exists s :: s in snapshots && s.account == x.account && s.region == ALL && FromItem(s, x)
  {
    LinesComeFromSelected(snapshots, snapshots, x);
    var s :| s in snapshots && IsSelected(snapshots, s) && FromItem(s, x);
    assert s.account == x.account && s.service == Desktops;
  }
}
