/** What the lines of a report add up to, in total and along each of its breakdowns. */
module ReportSums {
  import opened Prelude
  import opened ReportLines

  /** The same desktop of the same account came before; blank ids are never the same. */
  predicate Repeats(before: seq<Line>, x: Line) {
    && x.kind.Desktop? && x.kind.id != ""
    && exists y :: y in before && y.account == x.account && y.kind.Desktop? && y.kind.id == x.kind.id
  }

  function Unit(k: Kind): Amounts {
    match k
    case Instance(running) => Amounts(1, if running then 1 else 0, 0, 0, 0, 0)
    case Desktop(_, _) => Amounts(0, 0, 1, 0, 0, 0)
    case Bucket(bytes, objects) => Amounts(0, 0, 0, 1, bytes, objects)
  }

  function Weight(before: seq<Line>, x: Line): Amounts {
    if Repeats(before, x) then ZERO else Unit(x.kind)
  }

  /** The ways to break the report down. */
  datatype Axis = Overall | ByProvider(accounts: map<int, string>) | ByRegion | ByCharge

  /** The entry a line belongs to; only desktops have a charge type. */
  function Label(axis: Axis, x: Line): Option<string> {
    match axis
    case Overall => Some("")
    case ByProvider(accounts) => if x.account in accounts then Some(accounts[x.account]) else None
    case ByRegion => Some(x.region)
    case ByCharge => if x.kind.Desktop? then Some(x.kind.charge) else None
  }

  function SumBy(lines: seq<Line>, axis: Axis, key: string): Amounts {
    if lines == [] then ZERO
    else
      var before, x := lines[..|lines| - 1], lines[|lines| - 1];
      Plus(SumBy(before, axis, key), Share(before, x, axis, key))
  }

  function Total(lines: seq<Line>): Amounts {
    Classified(lines, Overall)
  }

  /** The keys under which something is counted. */
  function CountedKeys(lines: seq<Line>, axis: Axis): set<string> {
    if lines == [] then {}
    else
      var before, x := lines[..|lines| - 1], lines[|lines| - 1];
      CountedKeys(before, axis) + if Label(axis, x).Some? && !Repeats(before, x) then {Label(axis, x).value} else {}
  }

  function SumKeys(lines: seq<Line>, axis: Axis, keys: seq<string>): Amounts {
    if keys == [] then ZERO else Plus(SumKeys(lines, axis, keys[..|keys| - 1]), SumBy(lines, axis, keys[|keys| - 1]))
  }

  /** What the axis classifies at all. */
  function Classified(lines: seq<Line>, axis: Axis): Amounts {
    if lines == [] then ZERO
    else
      var before, x := lines[..|lines| - 1], lines[|lines| - 1];
      Plus(Classified(before, axis), if Label(axis, x).Some? then Weight(before, x) else ZERO)
  }

  /** What a line adds under a key. */
  function Share(before: seq<Line>, x: Line, axis: Axis, key: string): Amounts {
    if Label(axis, x) == Some(key) then Weight(before, x) else ZERO
  }

  lemma SumByOfOneMore(before: seq<Line>, x: Line, axis: Axis, key: string)
    ensures SumBy(before + [x], axis, key) == Plus(SumBy(before, axis, key), Share(before, x, axis, key))
  {
    assert (before + [x])[..|before|] == before;
  }

  lemma PlusSwaps(a: Amounts, b: Amounts, c: Amounts, d: Amounts)
    ensures Plus(Plus(a, b), Plus(c, d)) == Plus(Plus(a, c), Plus(b, d))
  {
  }

  /** What a line of this label and weight adds over several keys. */
  function ShareOver(entry: Option<string>, weight: Amounts, keys: seq<string>): Amounts {
    if entry.Some? && entry.value in keys then weight else ZERO
  }

  lemma ShareOverOneMoreKey(entry: Option<string>, weight: Amounts, init: seq<string>, last: string)
    requires last !in init
    ensures ShareOver(entry, weight, init + [last])
         == Plus(ShareOver(entry, weight, init), if entry == Some(last) then weight else ZERO)
  {
    ZeroIsNeutral(weight);
    if entry.Some? {
      assert entry.value in init + [last] <==> entry.value in init || entry.value == last;
    }
  }

  lemma ZeroIsNeutral(a: Amounts)
    ensures Plus(a, ZERO) == a && Plus(ZERO, a) == a
  {
  }

  lemma SumKeysOfOneMoreKey(lines: seq<Line>, axis: Axis, init: seq<string>, last: string)
    ensures SumKeys(lines, axis, init + [last]) == Plus(SumKeys(lines, axis, init), SumBy(lines, axis, last))
  {
    assert (init + [last])[..|init|] == init;
  }

  /** Adding one line raises the sum over the keys by the line's weight if its key is among them. */
  predicate LineAddsItsWeight(before: seq<Line>, x: Line, axis: Axis, keys: seq<string>) {
    SumKeys(before + [x], axis, keys) ==
      Plus(SumKeys(before, axis, keys), ShareOver(Label(axis, x), Weight(before, x), keys))
  }

  lemma NoKeys(before: seq<Line>, x: Line, axis: Axis)
    ensures LineAddsItsWeight(before, x, axis, [])
  {
    assert SumKeys(before + [x], axis, []) == ZERO;
  }

  lemma OneMoreKey(before: seq<Line>, x: Line, axis: Axis, init: seq<string>, last: string)
    requires last !in init && LineAddsItsWeight(before, x, axis, init)
    ensures LineAddsItsWeight(before, x, axis, init + [last])
  {
    var entry, weight := Label(axis, x), Weight(before, x);
    SumKeysOfOneMoreKey(before + [x], axis, init, last);
    SumKeysOfOneMoreKey(before, axis, init, last);
    SumByOfOneMore(before, x, axis, last);
    ShareOverOneMoreKey(entry, weight, init, last);
    PlusSwaps(SumKeys(before, axis, init), ShareOver(entry, weight, init), SumBy(before, axis, last),
      Share(before, x, axis, last));
  }

  lemma {:induction false} SumKeysOfOneMore(before: seq<Line>, x: Line, axis: Axis, keys: seq<string>)
    requires Distinct(keys)
    ensures LineAddsItsWeight(before, x, axis, keys)
    decreases |keys|
  {
    if keys == [] {
      NoKeys(before, x, axis);
    } else {
      SumKeysOfOneMore(before, x, axis, keys[..|keys| - 1]);
      OneMoreKey(before, x, axis, keys[..|keys| - 1], keys[|keys| - 1]);
      assert keys == keys[..|keys| - 1] + [keys[|keys| - 1]];
    }
  }

  predicate AddsUp(lines: seq<Line>, axis: Axis, keys: seq<string>) {
    SumKeys(lines, axis, keys) == Classified(lines, axis)
  }

  lemma {:induction false} NothingAddsUp(axis: Axis, keys: seq<string>)
    ensures AddsUp([], axis, keys)
  {
    if keys != [] {
      NothingAddsUp(axis, keys[..|keys| - 1]);
    }
  }

  lemma OneMoreLineAddsUp(before: seq<Line>, x: Line, axis: Axis, keys: seq<string>)
    requires AddsUp(before, axis, keys) && LineAddsItsWeight(before, x, axis, keys)
    requires Label(axis, x).Some? && !Repeats(before, x) ==> Label(axis, x).value in keys
    ensures AddsUp(before + [x], axis, keys)
  {
    assert (before + [x])[..|before|] == before;
    assert ShareOver(Label(axis, x), Weight(before, x), keys) ==
      if Label(axis, x).Some? then Weight(before, x) else ZERO;
  }

  lemma CountedKeysOfOneMore(before: seq<Line>, x: Line, axis: Axis)
    ensures CountedKeys(before + [x], axis) == CountedKeys(before, axis) +
      if Label(axis, x).Some? && !Repeats(before, x) then {Label(axis, x).value} else {}
  {
    assert (before + [x])[..|before|] == before;
  }

  /**
   Conservation along an axis: distinct keys that include every key something is counted under add up
   to everything the axis classifies.
   */
  lemma {:induction false} KeysAddUp(lines: seq<Line>, axis: Axis, keys: seq<string>)
    requires Distinct(keys) && CountedKeys(lines, axis) <= Elements(keys)
    ensures AddsUp(lines, axis, keys)
    decreases |lines|
  {
    if lines == [] {
      NothingAddsUp(axis, keys);
    } else {
      var before, x := lines[..|lines| - 1], lines[|lines| - 1];
      assert lines == before + [x];
      CountedKeysOfOneMore(before, x, axis);
      KeysAddUp(before, axis, keys);
      SumKeysOfOneMore(before, x, axis, keys);
      OneMoreLineAddsUp(before, x, axis, keys);
    }
  }

  lemma ClassifiedOfOneMore(before: seq<Line>, x: Line, axis: Axis)
    ensures Classified(before + [x], axis) ==
      Plus(Classified(before, axis), if Label(axis, x).Some? then Weight(before, x) else ZERO)
  {
    assert (before + [x])[..|before|] == before;
  }

  predicate LabelsEvery(lines: seq<Line>, axis: Axis) {
    forall x :: x in lines ==> Label(axis, x).Some?
  }

  /** Two axes that both label every line classify the same amounts. */
  predicate SameAmounts(lines: seq<Line>, a: Axis, b: Axis) {
    Classified(lines, a) == Classified(lines, b)
  }

  lemma OneMoreSameAmounts(before: seq<Line>, x: Line, a: Axis, b: Axis)
    requires SameAmounts(before, a, b) && Label(a, x).Some? && Label(b, x).Some?
    ensures SameAmounts(before + [x], a, b)
  {
    ClassifiedOfOneMore(before, x, a);
    ClassifiedOfOneMore(before, x, b);
  }

  lemma {:induction false} TotalAxesAgree(lines: seq<Line>, a: Axis, b: Axis)
    requires LabelsEvery(lines, a) && LabelsEvery(lines, b)
    ensures SameAmounts(lines, a, b)
    decreases |lines|
  {
    if lines != [] {
      var before, x := lines[..|lines| - 1], lines[|lines| - 1];
      assert lines == before + [x] && x in lines;
      TotalAxesAgree(before, a, b);
      OneMoreSameAmounts(before, x, a, b);
    }
  }

  predicate ChargesCoverDesktops(lines: seq<Line>) {
    Classified(lines, ByCharge).desktops == Classified(lines, Overall).desktops
  }

  lemma OnlyDesktopsCountAsDesktops(before: seq<Line>, x: Line)
    ensures Label(ByCharge, x).None? ==> Weight(before, x).desktops == 0
  {
  }

  lemma PlusDesktops(a: Amounts, b: Amounts)
    ensures Plus(a, b).desktops == a.desktops + b.desktops
  {
  }

  lemma OneMoreCharge(before: seq<Line>, x: Line)
    requires ChargesCoverDesktops(before)
    ensures ChargesCoverDesktops(before + [x])
  {
    var w := Weight(before, x);
    ClassifiedOfOneMore(before, x, ByCharge);
    ClassifiedOfOneMore(before, x, Overall);
    OnlyDesktopsCountAsDesktops(before, x);
    PlusDesktops(Classified(before, Overall), w);
    PlusDesktops(Classified(before, ByCharge), if Label(ByCharge, x).Some? then w else ZERO);
  }

  lemma {:induction false} EveryDesktopHasACharge(lines: seq<Line>)
    ensures ChargesCoverDesktops(lines)
    decreases |lines|
  {
    if lines != [] {
      var before, x := lines[..|lines| - 1], lines[|lines| - 1];
      assert lines == before + [x];
      EveryDesktopHasACharge(before);
      OneMoreCharge(before, x);
    }
  }

  // ----- Counting desktops -----

  /** The desktops the lines name, as account and id. */
  function NamedDesktops(lines: seq<Line>): set<(int, string)> {
    set x | x in lines && x.kind.Desktop? && x.kind.id != "" :: (x.account, x.kind.id)
  }

  function BlankDesktops(lines: seq<Line>): nat {
    if lines == [] then 0
    else
      var x := lines[|lines| - 1];
      BlankDesktops(lines[..|lines| - 1]) + if x.kind.Desktop? && x.kind.id == "" then 1 else 0
  }

  lemma NamedDesktopsOfOneMore(before: seq<Line>, x: Line)
    ensures NamedDesktops(before + [x]) == NamedDesktops(before) +
      if x.kind.Desktop? && x.kind.id != "" then {(x.account, x.kind.id)} else {}
    ensures Repeats(before, x) <==>
      x.kind.Desktop? && x.kind.id != "" && (x.account, x.kind.id) in NamedDesktops(before)
  {
    forall y ensures y in before + [x] <==> y in before || y == x {
    }
  }

  lemma OneMoreDesktop(before: seq<Line>, x: Line)
    requires Total(before).desktops == |NamedDesktops(before)| + BlankDesktops(before)
    ensures Total(before + [x]).desktops == |NamedDesktops(before + [x])| + BlankDesktops(before + [x])
  {
    assert (before + [x])[..|before|] == before;
    ClassifiedOfOneMore(before, x, Overall);
    NamedDesktopsOfOneMore(before, x);
  }

  /** The desktop total is the number of distinct account and id pairs, plus one for every blank id. */
  lemma {:induction false} DesktopsAreCountedOnce(lines: seq<Line>)
    ensures Total(lines).desktops == |NamedDesktops(lines)| + BlankDesktops(lines)
  {
    if lines != [] {
      DesktopsAreCountedOnce(lines[..|lines| - 1]);
      OneMoreDesktop(lines[..|lines| - 1], lines[|lines| - 1]);
      assert lines == lines[..|lines| - 1] + [lines[|lines| - 1]];
    }
  }

  // ----- Adding up storage -----

  /** The bytes and objects of all bucket items in the snapshots. */
  function Stored(snapshots: seq<Snapshot>): (int, int) {
    if snapshots == [] then (0, 0)
    else
      var own, rest := StoredBy(snapshots[0]), Stored(snapshots[1..]);
      (own.0 + rest.0, own.1 + rest.1)
  }

  function StoredBy(s: Snapshot): (int, int) {
    if s.service == Buckets && s.items.Some? then StoredIn(s.items.value) else (0, 0)
  }

  function StoredIn(items: seq<Item>): (int, int) {
    if items == [] then (0, 0)
    else
      var rest := StoredIn(items[..|items| - 1]);
      (rest.0 + items[|items| - 1].bytes, rest.1 + items[|items| - 1].objects)
  }

  /** Lines of buckets or of nothing with storage raise a total by their bytes and objects. */
  predicate Raises(before: seq<Line>, more: seq<Line>, amounts: (int, int)) {
    && Total(before + more).bytes == Total(before).bytes + amounts.0
    && Total(before + more).objects == Total(before).objects + amounts.1
  }

  lemma OneMoreLineStores(before: seq<Line>, x: Line)
    ensures Raises(before, [x], if x.kind.Bucket? then (x.kind.bytes, x.kind.objects) else (0, 0))
  {
    ClassifiedOfOneMore(before, x, Overall);
  }

  lemma RaisesBoth(before: seq<Line>, a: seq<Line>, b: seq<Line>, x: (int, int), y: (int, int))
    requires Raises(before, a, x) && Raises(before + a, b, y)
    ensures Raises(before, a + b, (x.0 + y.0, x.1 + y.1))
  {
    assert before + (a + b) == before + a + b;
  }

  lemma RaisesNothing(before: seq<Line>)
    ensures Raises(before, [], (0, 0))
  {
    assert before + [] == before;
  }

  function StoredUnder(service: Service, items: seq<Item>): (int, int) {
    if service == Buckets then StoredIn(items) else (0, 0)
  }

  lemma OneMoreItemStores(before: seq<Line>, s: Snapshot, init: seq<Item>, last: Item)
    requires Raises(before, ItemLines(s, init), StoredUnder(s.service, init))
    ensures Raises(before, ItemLines(s, init + [last]), StoredUnder(s.service, init + [last]))
  {
    var line := LineOf(s, last);
    var own := if line.kind.Bucket? then (line.kind.bytes, line.kind.objects) else (0, 0);
    OneMoreLineStores(before + ItemLines(s, init), line);
    RaisesBoth(before, ItemLines(s, init), [line], StoredUnder(s.service, init), own);
    assert ItemLines(s, init + [last]) == ItemLines(s, init) + [line];
    assert (init + [last])[..|init|] == init;
    LineOfItem(s, last);
  }

  lemma {:induction false} ItemsStore(before: seq<Line>, s: Snapshot, items: seq<Item>)
    ensures Raises(before, ItemLines(s, items), StoredUnder(s.service, items))
    decreases |items|
  {
    if items == [] {
      RaisesNothing(before);
    } else {
      var init, last := items[..|items| - 1], items[|items| - 1];
      ItemsStore(before, s, init);
      OneMoreItemStores(before, s, init, last);
      assert items == init + [last];
    }
  }

  lemma SnapshotStores(before: seq<Line>, all: seq<Snapshot>, s: Snapshot)
    ensures Raises(before, if IsSelected(all, s) then ItemLines(s, s.items.value) else [], StoredBy(s))
  {
    if IsSelected(all, s) {
      ItemsStore(before, s, s.items.value);
    } else {
      RaisesNothing(before);
    }
  }

  lemma {:induction false} SnapshotsStore(before: seq<Line>, all: seq<Snapshot>, rest: seq<Snapshot>)
    ensures Raises(before, SnapshotLines(all, rest), Stored(rest))
    decreases |rest|
  {
    if rest == [] {
      RaisesNothing(before);
    } else {
      var own := if IsSelected(all, rest[0]) then ItemLines(rest[0], rest[0].items.value) else [];
      SnapshotStores(before, all, rest[0]);
      SnapshotsStore(before + own, all, rest[1..]);
      RaisesBoth(before, own, SnapshotLines(all, rest[1..]), StoredBy(rest[0]), Stored(rest[1..]));
    }
  }

  lemma {:induction false} InstancesStoreNothing(rows: seq<InstanceRow>)
    ensures Total(InstanceLines(rows)).bytes == 0 && Total(InstanceLines(rows)).objects == 0
    decreases |rows|
  {
    if rows != [] {
      var init, last := rows[..|rows| - 1], rows[|rows| - 1];
      InstancesStoreNothing(init);
      OneMoreLineStores(InstanceLines(init), InstanceLine(last));
      assert InstanceLines(rows) == InstanceLines(init) + [InstanceLine(last)];
    }
  }

  /** The report's bytes and objects are those of the items of every readable bucket snapshot. */
  lemma StorageIsAddedUp(rows: seq<InstanceRow>, snapshots: seq<Snapshot>)
    ensures Total(AllLines(rows, snapshots)).bytes == Stored(snapshots).0
    ensures Total(AllLines(rows, snapshots)).objects == Stored(snapshots).1
  {
    InstancesStoreNothing(rows);
    SnapshotsStore(InstanceLines(rows), snapshots, snapshots);
  }

  // ----- Counting instances and buckets -----

  function Instances(lines: seq<Line>): set<int> {
    set i | 0 <= i < |lines| && lines[i].kind.Instance?
  }

  function RunningInstances(lines: seq<Line>): set<int> {
    set i | 0 <= i < |lines| && lines[i].kind.Instance? && lines[i].kind.running
  }

  function BucketLines(lines: seq<Line>): set<int> {
    set i | 0 <= i < |lines| && lines[i].kind.Bucket?
  }

  /** The counts of everything but desktops. */
  predicate CountsEveryLine(lines: seq<Line>) {
    && Total(lines).instances == |Instances(lines)| && Total(lines).running == |RunningInstances(lines)|
    && Total(lines).buckets == |BucketLines(lines)|
  }

  lemma WeightOfOthers(before: seq<Line>, x: Line)
    ensures var w := Weight(before, x);
      && w.instances == (if x.kind.Instance? then 1 else 0)
      && w.running == (if x.kind.Instance? && x.kind.running then 1 else 0)
      && w.buckets == (if x.kind.Bucket? then 1 else 0)
  {
  }

  lemma InstancesOfOneMore(before: seq<Line>, x: Line)
    ensures |Instances(before + [x])| == |Instances(before)| + if x.kind.Instance? then 1 else 0
  {
    assert Instances(before + [x]) == Instances(before) + if x.kind.Instance? then {|before|} else {};
  }

  lemma RunningInstancesOfOneMore(before: seq<Line>, x: Line)
    ensures |RunningInstances(before + [x])| ==
      |RunningInstances(before)| + if x.kind.Instance? && x.kind.running then 1 else 0
  {
    assert RunningInstances(before + [x]) ==
      RunningInstances(before) + if x.kind.Instance? && x.kind.running then {|before|} else {};
  }

  lemma BucketLinesOfOneMore(before: seq<Line>, x: Line)
    ensures |BucketLines(before + [x])| == |BucketLines(before)| + if x.kind.Bucket? then 1 else 0
  {
    assert BucketLines(before + [x]) == BucketLines(before) + if x.kind.Bucket? then {|before|} else {};
  }

  lemma PlusCounts(a: Amounts, b: Amounts)
    ensures var c := Plus(a, b);
      c.instances == a.instances + b.instances && c.running == a.running + b.running
        && c.buckets == a.buckets + b.buckets
  {
  }

  lemma TotalOfOneMore(before: seq<Line>, x: Line)
    ensures var total := Total(before + [x]);
      && total.instances == Total(before).instances + (if x.kind.Instance? then 1 else 0)
      && total.running == Total(before).running + (if x.kind.Instance? && x.kind.running then 1 else 0)
      && total.buckets == Total(before).buckets + (if x.kind.Bucket? then 1 else 0)
  {
    ClassifiedOfOneMore(before, x, Overall);
    PlusCounts(Total(before), Weight(before, x));
    WeightOfOthers(before, x);
  }

  lemma OneMoreLineCounted(before: seq<Line>, x: Line)
    requires CountsEveryLine(before)
    ensures CountsEveryLine(before + [x])
  {
    TotalOfOneMore(before, x);
    InstancesOfOneMore(before, x);
    RunningInstancesOfOneMore(before, x);
    BucketLinesOfOneMore(before, x);
  }

  /** Every instance and every bucket is counted, repeated or not, and nothing else as one. */
  lemma {:induction false} InstancesAndBucketsAreCounted(lines: seq<Line>)
    ensures CountsEveryLine(lines)
    ensures Total(lines).instances == |Instances(lines)| && Total(lines).buckets == |BucketLines(lines)|
    ensures Total(lines).running == |RunningInstances(lines)|
    decreases |lines|
  {
    if lines != [] {
      var before, x := lines[..|lines| - 1], lines[|lines| - 1];
      assert lines == before + [x];
      InstancesAndBucketsAreCounted(before);
      OneMoreLineCounted(before, x);
    }
  }
}
