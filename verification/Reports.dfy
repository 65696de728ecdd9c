/**
 The overview report: instances, desktops and buckets of the selected accounts, counted once in total,
 once by provider and once by region, with desktops de-duplicated within their account.
 */
module Reports {
  import opened Prelude
  import opened Ordering
  import opened ReportLines
  import opened ReportSums
  import opened ReportTally

  /** The counters that the loops increment in place, one record per provider and per region. */
  class Counters {
    const accounts: map<int, string>
    var total: Amounts
    var providers: map<string, Amounts>
    var regions: map<string, Amounts>
    var charges: map<string, int>
    var seen: set<(int, string)>

    ghost function View(): Tally
      reads this
    {
      Tally(total, providers, regions, charges, seen)
    }

    constructor (accounts: map<int, string>)
      ensures this.accounts == accounts && View() == Start(accounts) && Ready()
    {
      this.accounts := accounts;
      total := ZERO;
      providers := map p | p in accounts.Values :: ZERO;
      regions, charges, seen := map[], map[], {};
    }

    /** One turn of the inner loop: a repeated desktop only gets its region an entry. */
    method Count(x: Line)
      requires x.account in accounts && accounts[x.account] in providers
      modifies this
      ensures View() == CountOne(old(View()), accounts, x)
      ensures old(providers).Keys <= providers.Keys
    {
      if x.region !in regions {
        regions := regions[x.region := ZERO];
      }
      RaisedByNothing(regions, x.region);
      if x.kind.Desktop? && x.kind.id != "" && (x.account, x.kind.id) in seen {
        return;
      }
      var unit, provider := Unit(x.kind), accounts[x.account];
      if x.kind.Desktop? {
        seen := seen + {(x.account, x.kind.id)};
        charges := charges[x.kind.charge := (if x.kind.charge in charges then charges[x.kind.charge] else 0) + 1];
      }
      total := Plus(total, unit);
      providers := providers[provider := Plus(providers[provider], unit)];
      regions := regions[x.region := Plus(regions[x.region], unit)];
    }

    /** Every known account's provider has a counter. */
    ghost predicate Ready()
      reads this
    {
      accounts.Values <= providers.Keys
    }

    method CountInstances(rows: seq<InstanceRow>)
      requires Ready() && forall i :: 0 <= i < |rows| ==> rows[i].account in accounts
      modifies this
      ensures Ready() && View() == CountFrom(old(View()), accounts, InstanceLines(rows))
    {
      ghost var lines := InstanceLines(rows);
      for i := 0 to |rows|
        invariant Ready() && CountFrom(View(), accounts, lines[i..]) == CountFrom(old(View()), accounts, lines)
      {
        CountFromFirst(View(), accounts, lines, i);
        Count(InstanceLine(rows[i]));
      }
    }

    method CountItems(s: Snapshot, items: seq<Item>)
      requires Ready() && s.account in accounts
      modifies this
      ensures Ready() && View() == CountFrom(old(View()), accounts, ItemLines(s, items))
    {
      ghost var lines := ItemLines(s, items);
      for i := 0 to |items|
        invariant Ready() && CountFrom(View(), accounts, lines[i..]) == CountFrom(old(View()), accounts, lines)
      {
        CountFromFirst(View(), accounts, lines, i);
        Count(LineOf(s, items[i]));
      }
    }

    method CountSnapshots(snapshots: seq<Snapshot>)
      requires Ready() && forall i :: 0 <= i < |snapshots| ==> snapshots[i].account in accounts
      modifies this
      ensures Ready() && View() == CountFrom(old(View()), accounts, SnapshotLines(snapshots, snapshots))
    {
      var edsAll := AccountsWithAll(snapshots);
      for i := 0 to |snapshots|
        invariant Ready()
        invariant CountFrom(View(), accounts, SnapshotLines(snapshots, snapshots[i..]))
               == CountFrom(old(View()), accounts, SnapshotLines(snapshots, snapshots))
      {
        var s := snapshots[i];
        NextSnapshot(View(), accounts, snapshots, i);
        if s.service == Desktops && s.account in edsAll && s.region != ALL {
          continue;
        }
        if s.items.None? {
          continue;
        }
        CountItems(s, s.items.value);
      }
    }
  }

  lemma NextSnapshot(t: Tally, accounts: map<int, string>, snapshots: seq<Snapshot>, i: nat)
    requires i < |snapshots|
    ensures var counted := if IsSelected(snapshots, snapshots[i])
                           then CountFrom(t, accounts, ItemLines(snapshots[i], snapshots[i].items.value)) else t;
      CountFrom(t, accounts, SnapshotLines(snapshots, snapshots[i..]))
      == CountFrom(counted, accounts, SnapshotLines(snapshots, snapshots[i + 1..]))
  {
    assert snapshots[i..][1..] == snapshots[i + 1..];
    var s, rest := snapshots[i], SnapshotLines(snapshots, snapshots[i + 1..]);
    if IsSelected(snapshots, s) {
      CountFromBoth(t, accounts, ItemLines(s, s.items.value), rest);
    } else {
      assert [] + rest == rest;
    }
  }

  method AccountsWithAll(snapshots: seq<Snapshot>) returns (edsAll: set<int>)
    ensures forall a :: a in edsAll <==> HasAll(snapshots, a)
  {
    edsAll := {};
    for i := 0 to |snapshots|
      invariant forall a :: a in edsAll <==> HasAll(snapshots[..i], a)
    {
      assert snapshots[..i + 1] == snapshots[..i] + [snapshots[i]];
      if snapshots[i].service == Desktops && snapshots[i].region == ALL {
        edsAll := edsAll + {snapshots[i].account};
      }
    }
    assert snapshots[..|snapshots|] == snapshots;
  }

  // ----- The report -----

  function KeysOf(dims: seq<Dimension>): seq<string> {
    seq(|dims|, i requires 0 <= i < |dims| => dims[i].key)
  }

  /** The sums of an axis, each key once, and every counted key among them. */
  ghost predicate IsBreakdown(lines: seq<Line>, axis: Axis, dims: seq<Dimension>) {
    && Distinct(KeysOf(dims)) && CountedKeys(lines, axis) <= Elements(KeysOf(dims))
    && (forall i :: 0 <= i < |dims| ==> dims[i].amounts == SumBy(lines, axis, dims[i].key))
  }

  function SumDims(dims: seq<Dimension>): Amounts {
    if dims == [] then ZERO else Plus(SumDims(dims[..|dims| - 1]), dims[|dims| - 1].amounts)
  }

  /** Those of the keys that there are, in order. */
  function Present(order: seq<string>, keys: set<string>): seq<string> {
    if order == [] then []
    else
      var init, last := order[..|order| - 1], order[|order| - 1];
      Present(init, keys) + (if last in keys then [last] else [])
  }

  lemma {:induction false} PresentKeys(order: seq<string>, keys: set<string>)
    ensures forall k :: k in Present(order, keys) <==> k in order && k in keys
    ensures Distinct(order) ==> Distinct(Present(order, keys))
  {
    if order != [] {
      var init, last := order[..|order| - 1], order[|order| - 1];
      assert order == init + [last];
      PresentKeys(init, keys);
      assert Distinct(order) ==> Distinct(init) && last !in init;
    }
  }

  predicate Matches(table: map<string, Amounts>, dims: seq<Dimension>) {
    forall j :: 0 <= j < |dims| ==> dims[j].key in table && dims[j].amounts == table[dims[j].key]
  }

  lemma PresentEntriesAreAll(table: map<string, Amounts>, order: seq<string>, dims: seq<Dimension>)
    requires Distinct(order) && forall k :: k in table ==> k in order
    requires Matches(table, dims) && KeysOf(dims) == Present(order, table.Keys)
    ensures Lists(table, dims)
  {
    PresentKeys(order, table.Keys);
    var keys := KeysOf(dims);
    forall k | k in table ensures Has(dims, k) {
      var i :| 0 <= i < |keys| && keys[i] == k;
      assert dims[i].key == k;
    }
    forall j, k | 0 <= j < k < |dims| ensures dims[j].key != dims[k].key {
      assert keys[j] != keys[k];
    }
  }

  /** The entries of a table in the given order, leaving out keys without an entry. */
  method ListInOrder(table: map<string, Amounts>, order: seq<string>) returns (dims: seq<Dimension>)
    requires Distinct(order) && forall k :: k in table ==> k in order
    ensures Lists(table, dims) && KeysOf(dims) == Present(order, table.Keys)
  {
    dims := [];
    for i := 0 to |order|
      invariant Matches(table, dims) && KeysOf(dims) == Present(order[..i], table.Keys)
    {
      assert order[..i + 1][..i] == order[..i];
      if order[i] in table {
        dims := dims + [Dimension(order[i], table[order[i]])];
        assert KeysOf(dims) == KeysOf(dims[..|dims| - 1]) + [order[i]];
      }
    }
    assert order[..|order|] == order;
    PresentEntriesAreAll(table, order, dims);
  }

  /** The entries of a table, in any order. */
  method ListAll(table: map<string, Amounts>) returns (dims: seq<Dimension>)
    ensures Lists(table, dims)
  {
    dims := [];
    var pending := table.Keys;
    while pending != {}
      invariant pending <= table.Keys
      invariant forall j ::
        0 <= j < |dims| ==> dims[j].key in table && dims[j].key !in pending && dims[j].amounts == table[dims[j].key]
      invariant forall j, k :: 0 <= j < k < |dims| ==> dims[j].key != dims[k].key
      invariant forall k :: k in table && k !in pending ==> Has(dims, k)
      decreases pending
    {
      var key :| key in pending;
      ghost var before := dims;
      dims := dims + [Dimension(key, table[key])];
      HasMore(before, dims[|before|]);
      pending := pending - {key};
    }
  }

  predicate Has(dims: seq<Dimension>, key: string) {
    exists i :: 0 <= i < |dims| && dims[i].key == key
  }

  lemma HasMore(dims: seq<Dimension>, d: Dimension)
    ensures forall k :: Has(dims, k) ==> Has(dims + [d], k)
    ensures Has(dims + [d], d.key)
  {
    forall k | Has(dims, k) ensures Has(dims + [d], k) {
      var i :| 0 <= i < |dims| && dims[i].key == k;
      assert (dims + [d])[i].key == k;
    }
    assert (dims + [d])[|dims|].key == d.key;
  }

  /** Every entry of the table once. */
  ghost predicate Lists(table: map<string, Amounts>, dims: seq<Dimension>) {
    && Matches(table, dims)
    && (forall j, k :: 0 <= j < k < |dims| ==> dims[j].key != dims[k].key)
    && (forall k :: k in table ==> Has(dims, k))
  }

  lemma PermutedLists(table: map<string, Amounts>, a: seq<Dimension>, b: seq<Dimension>)
    requires Lists(table, a) && multiset(a) == multiset(b)
    ensures Lists(table, b)
  {
    PermutedElements(a, b);
    assert DistinctBy(a, (d: Dimension) => d.key);
    PermutedStaysDistinct(a, b, (d: Dimension) => d.key);
    forall j | 0 <= j < |b| ensures b[j].key in table && b[j].amounts == table[b[j].key] {
      assert b[j] in a;
    }
    forall k | k in table ensures Has(b, k) {
      var i :| 0 <= i < |a| && a[i].key == k;
      assert a[i] in b;
    }
  }

  lemma ListedSumsAreABreakdown(lines: seq<Line>, axis: Axis, table: map<string, Amounts>, keys: set<string>,
      dims: seq<Dimension>)
    requires HoldsSums(lines, axis, table, keys) && Lists(table, dims) && CountedKeys(lines, axis) <= keys
    ensures IsBreakdown(lines, axis, dims) && Elements(KeysOf(dims)) == keys
  {
    var listed := KeysOf(dims);
    forall k | k in keys ensures k in listed {
      var i :| 0 <= i < |dims| && dims[i].key == k;
      assert listed[i] == k;
    }
  }

  lemma {:induction false} BreakdownSums(lines: seq<Line>, axis: Axis, dims: seq<Dimension>)
    requires forall i :: 0 <= i < |dims| ==> dims[i].amounts == SumBy(lines, axis, dims[i].key)
    ensures SumDims(dims) == SumKeys(lines, axis, KeysOf(dims))
    decreases |dims|
  {
    if dims == [] {
      assert KeysOf(dims) == [];
    } else {
      var init, last := dims[..|dims| - 1], dims[|dims| - 1];
      BreakdownSums(lines, axis, init);
      OneMoreDimension(lines, axis, init, last);
      assert dims == init + [last];
    }
  }

  lemma OneMoreDimension(lines: seq<Line>, axis: Axis, init: seq<Dimension>, last: Dimension)
    requires SumDims(init) == SumKeys(lines, axis, KeysOf(init)) && last.amounts == SumBy(lines, axis, last.key)
    ensures SumDims(init + [last]) == SumKeys(lines, axis, KeysOf(init + [last]))
  {
    assert (init + [last])[..|init|] == init;
    assert KeysOf(init + [last]) == KeysOf(init) + [last.key];
    SumKeysOfOneMoreKey(lines, axis, KeysOf(init), last.key);
  }

  lemma {:induction false} CountedRegions(lines: seq<Line>)
    ensures CountedKeys(lines, ByRegion) <= RegionsIn(lines)
    decreases |lines|
  {
    if lines != [] {
      var before, x := lines[..|lines| - 1], lines[|lines| - 1];
      assert lines == before + [x];
      CountedRegions(before);
      CountedKeysOfOneMore(before, x, ByRegion);
      RegionsOfOneMore(before, x);
    }
  }

  lemma {:induction false} CountedProviders(lines: seq<Line>, accounts: map<int, string>)
    ensures CountedKeys(lines, ByProvider(accounts)) <= accounts.Values
    decreases |lines|
  {
    if lines != [] {
      var before, x := lines[..|lines| - 1], lines[|lines| - 1];
      assert lines == before + [x];
      CountedProviders(before, accounts);
      CountedKeysOfOneMore(before, x, ByProvider(accounts));
    }
  }

  /** The main result: both breakdowns add up to the totals. */
  lemma BreakdownsConserve(lines: seq<Line>, accounts: map<int, string>, byProvider: seq<Dimension>,
      byRegion: seq<Dimension>)
    requires AccountsKnown(lines, accounts)
    requires IsBreakdown(lines, ByProvider(accounts), byProvider) && IsBreakdown(lines, ByRegion, byRegion)
    ensures SumDims(byProvider) == Total(lines) && SumDims(byRegion) == Total(lines)
  {
    KeysAddUp(lines, ByProvider(accounts), KeysOf(byProvider));
    BreakdownSums(lines, ByProvider(accounts), byProvider);
    TotalAxesAgree(lines, ByProvider(accounts), Overall);
    KeysAddUp(lines, ByRegion, KeysOf(byRegion));
    BreakdownSums(lines, ByRegion, byRegion);
    TotalAxesAgree(lines, ByRegion, Overall);
  }

  /** The charge types, each listed once, add up to the desktops. */
  lemma ChargesConserve(lines: seq<Line>, charges: seq<string>)
    requires Distinct(charges) && Elements(charges) == CountedKeys(lines, ByCharge)
    ensures SumKeys(lines, ByCharge, charges).desktops == Total(lines).desktops
  {
    KeysAddUp(lines, ByCharge, charges);
    EveryDesktopHasACharge(lines);
  }

  /** The sum of the counts of all charge types. */
  ghost function SumCharges(charges: map<string, int>): int
    decreases |charges|
  {
    if charges == map[] then 0
    else
      var c :| c in charges;
      charges[c] + SumCharges(charges - {c})
  }

  /** It does not matter which charge type is added first. */
  lemma {:induction false} SumChargesWithout(charges: map<string, int>, c: string)
    requires c in charges
    ensures SumCharges(charges) == charges[c] + SumCharges(charges - {c})
    decreases |charges|
  {
    var d :| d in charges && SumCharges(charges) == charges[d] + SumCharges(charges - {d});
    if d != c {
      SumChargesWithout(charges - {d}, c);
      SumChargesWithout(charges - {c}, d);
      assert charges - {d} - {c} == charges - {c} - {d};
    }
  }

  /** Each charge type of the map once, with the desktops that the map counts. */
  ghost predicate ListsCharges(lines: seq<Line>, charges: map<string, int>, keys: seq<string>) {
    && Distinct(keys) && Elements(keys) == charges.Keys
    && SumKeys(lines, ByCharge, keys).desktops == SumCharges(charges)
  }

  lemma ListOneMoreCharge(lines: seq<Line>, charges: map<string, int>, c: string, keys: seq<string>)
    requires c in charges && charges[c] == ChargeCount(lines, c) && ListsCharges(lines, charges - {c}, keys)
    ensures ListsCharges(lines, charges, keys + [c])
  {
    SumChargesWithout(charges, c);
    SumKeysOfOneMoreKey(lines, ByCharge, keys, c);
    PlusDesktops(SumKeys(lines, ByCharge, keys), SumBy(lines, ByCharge, c));
    assert c !in Elements(keys);
    assert Elements(keys + [c]) == Elements(keys) + {c};
  }

  lemma {:induction false} ListCharges(lines: seq<Line>, charges: map<string, int>) returns (keys: seq<string>)
    requires forall c :: c in charges ==> charges[c] == ChargeCount(lines, c)
    ensures ListsCharges(lines, charges, keys)
    decreases |charges|
  {
    if charges == map[] {
      keys := [];
      assert Elements(keys) == {};
    } else {
      var c :| c in charges;
      keys := ListCharges(lines, charges - {c});
      ListOneMoreCharge(lines, charges, c, keys);
      keys := keys + [c];
    }
  }

  /** The counts of the report's charge types add up to its desktops. */
  lemma ChargeTypesConserve(lines: seq<Line>, charges: map<string, int>)
    requires HoldsCharges(lines, charges)
    ensures SumCharges(charges) == Total(lines).desktops
  {
    var keys := ListCharges(lines, charges);
    ChargesConserve(lines, keys);
  }

  /** What the finished counters hold. */
  method CountEverything(accounts: map<int, string>, rows: seq<InstanceRow>, snapshots: seq<Snapshot>)
    returns (c: Counters)
    requires forall i :: 0 <= i < |rows| ==> rows[i].account in accounts
    requires forall i :: 0 <= i < |snapshots| ==> snapshots[i].account in accounts
    ensures Right(AllLines(rows, snapshots), accounts, c.View())
  {
    c := new Counters(accounts);
    c.CountInstances(rows);
    c.CountSnapshots(snapshots);
    EverythingIsRight(accounts, rows, snapshots);
  }

  lemma EverythingIsRight(accounts: map<int, string>, rows: seq<InstanceRow>, snapshots: seq<Snapshot>)
    requires forall i :: 0 <= i < |rows| ==> rows[i].account in accounts
    requires forall i :: 0 <= i < |snapshots| ==> snapshots[i].account in accounts
    ensures Right(AllLines(rows, snapshots), accounts,
      CountFrom(CountFrom(Start(accounts), accounts, InstanceLines(rows)), accounts,
        SnapshotLines(snapshots, snapshots)))
  {
    var lines := AllLines(rows, snapshots);
    CountFromBoth(Start(accounts), accounts, InstanceLines(rows), SnapshotLines(snapshots, snapshots));
    ReportLinesKnown(accounts, rows, snapshots);
    StartIsRight(accounts);
    CountFromIsRight([], Start(accounts), accounts, lines);
    assert [] + lines == lines;
  }

  /** The regions of a report are sorted. */
  function DimensionOrder(d: Dimension): Key {
    Key(d.key, "")
  }

  /**
   Each key once with its sums, in total and along both breakdowns, nothing left out, providers in
   their fixed order and regions sorted.
   */
  ghost predicate IsReport(lines: seq<Line>, accounts: map<int, string>, report: Report) {
    && report.total == Total(lines)
    && IsBreakdown(lines, ByProvider(accounts), report.byProvider)
      && Elements(KeysOf(report.byProvider)) == accounts.Values
      && KeysOf(report.byProvider) == Present(PROVIDERS, accounts.Values)
    && IsBreakdown(lines, ByRegion, report.byRegion) && Elements(KeysOf(report.byRegion)) == RegionsIn(lines)
      && InOrder(report.byRegion, DimensionOrder)
    && HoldsCharges(lines, report.chargeTypes)
  }

  lemma RightCountersMakeTheReport(lines: seq<Line>, accounts: map<int, string>, t: Tally, byProvider: seq<Dimension>,
      byRegion: seq<Dimension>)
    requires Right(lines, accounts, t) && Lists(t.providers, byProvider) && Lists(t.regions, byRegion)
    requires KeysOf(byProvider) == Present(PROVIDERS, t.providers.Keys) && InOrder(byRegion, DimensionOrder)
    ensures IsReport(lines, accounts, Report(t.total, byProvider, byRegion, t.charges))
  {
    CountedProviders(lines, accounts);
    CountedRegions(lines);
    ListedSumsAreABreakdown(lines, ByProvider(accounts), t.providers, accounts.Values, byProvider);
    ListedSumsAreABreakdown(lines, ByRegion, t.regions, RegionsIn(lines), byRegion);
  }

  /**
   The report. Instances, buckets and desktops of the selected snapshots are counted once in total and
   once along each breakdown, the breakdowns add up to the totals, and the charge types hold the counts
   of the desktops.
   */
  method Overview(accounts: map<int, string>, rows: seq<InstanceRow>, snapshots: seq<Snapshot>) returns (report: Report)
    requires forall p :: p in accounts.Values ==> p in PROVIDERS
    requires forall i :: 0 <= i < |rows| ==> rows[i].account in accounts
    requires forall i :: 0 <= i < |snapshots| ==> snapshots[i].account in accounts
    ensures IsReport(AllLines(rows, snapshots), accounts, report)
    ensures SumDims(report.byProvider) == report.total && SumDims(report.byRegion) == report.total
    ensures SumCharges(report.chargeTypes) == report.total.desktops
    ensures var lines := AllLines(rows, snapshots);
      report.total.desktops == |NamedDesktops(lines)| + BlankDesktops(lines)
  {
    var c := CountEverything(accounts, rows, snapshots);
    ghost var lines := AllLines(rows, snapshots);
    ProvidersAreDistinct();
    assert c.providers.Keys == accounts.Values;
    var byProvider := ListInOrder(c.providers, PROVIDERS);
    var unsorted := ListAll(c.regions);
    var byRegion := Sort(unsorted, DimensionOrder);
    PermutedLists(c.regions, unsorted, byRegion);
    report := Report(c.total, byProvider, byRegion, c.charges);
    RightCountersMakeTheReport(lines, accounts, c.View(), byProvider, byRegion);
    ReportLinesKnown(accounts, rows, snapshots);
    BreakdownsConserve(lines, accounts, byProvider, byRegion);
    ChargeTypesConserve(lines, report.chargeTypes);
    DesktopsAreCountedOnce(lines);
  }

  lemma SameRegions(lines: seq<Line>, a: seq<Dimension>, b: seq<Dimension>)
    requires IsBreakdown(lines, ByRegion, a) && IsBreakdown(lines, ByRegion, b)
    requires Elements(KeysOf(a)) == Elements(KeysOf(b)) && InOrder(a, DimensionOrder) && InOrder(b, DimensionOrder)
    ensures a == b
  {
    forall d | d in a ensures d in b { SameEntry(lines, a, b, d); }
    forall d | d in b ensures d in a { SameEntry(lines, b, a, d); }
    forall i, j | 0 <= i < j < |a| ensures a[i].key != a[j].key { assert KeysOf(a)[i] != KeysOf(a)[j]; }
    forall i, j | 0 <= i < j < |b| ensures b[i].key != b[j].key { assert KeysOf(b)[i] != KeysOf(b)[j]; }
    assert DistinctBy(a, DimensionOrder) && DistinctBy(b, DimensionOrder);
    SameElements(a, b, DimensionOrder);
    SortedKeysAreUnique(a, b, DimensionOrder);
    assert |a| == |Keys(a, DimensionOrder)| == |b|;
    forall i | 0 <= i < |a| ensures a[i] == b[i] {
      assert Keys(a, DimensionOrder)[i] == Keys(b, DimensionOrder)[i];
    }
  }

  lemma SameEntry(lines: seq<Line>, a: seq<Dimension>, b: seq<Dimension>, d: Dimension)
    requires IsBreakdown(lines, ByRegion, a) && IsBreakdown(lines, ByRegion, b)
    requires Elements(KeysOf(a)) == Elements(KeysOf(b)) && d in a
    ensures d in b
  {
    var i :| 0 <= i < |a| && a[i] == d;
    assert KeysOf(a)[i] in Elements(KeysOf(a));
    assert d.key in KeysOf(b);
    var j :| 0 <= j < |b| && KeysOf(b)[j] == d.key;
    assert b[j] == d;
  }

  /** The lines and the accounts determine the report, whatever order the counters were filled and read in. */
  lemma ReportIsDetermined(lines: seq<Line>, accounts: map<int, string>, a: Report, b: Report)
    requires IsReport(lines, accounts, a) && IsReport(lines, accounts, b)
    ensures a == b
  {
    SameRegions(lines, a.byRegion, b.byRegion);
    assert |a.byProvider| == |KeysOf(a.byProvider)| == |b.byProvider|;
    forall i | 0 <= i < |a.byProvider| ensures a.byProvider[i] == b.byProvider[i] {
      assert KeysOf(a.byProvider)[i] == KeysOf(b.byProvider)[i];
    }
    assert a.chargeTypes == b.chargeTypes;
  }

  lemma ProvidersAreDistinct()
    ensures Distinct(PROVIDERS)
  {
    assert PROVIDERS[0][1] == 'w' && PROVIDERS[1][1] == 'l' && PROVIDERS[2][1] == 'z' && PROVIDERS[3][1] == 'c';
  }

  lemma StartIsRight(accounts: map<int, string>)
    ensures Right([], accounts, Start(accounts))
  {
  }

  lemma {:induction false} SnapshotLinesKnown(accounts: map<int, string>, all: seq<Snapshot>, rest: seq<Snapshot>)
    requires forall i :: 0 <= i < |rest| ==> rest[i].account in accounts
    ensures AccountsKnown(SnapshotLines(all, rest), accounts)
    decreases |rest|
  {
    if rest != [] {
      SnapshotLinesKnown(accounts, all, rest[1..]);
    }
  }

  lemma ReportLinesKnown(accounts: map<int, string>, rows: seq<InstanceRow>, snapshots: seq<Snapshot>)
    requires forall i :: 0 <= i < |rows| ==> rows[i].account in accounts
    requires forall i :: 0 <= i < |snapshots| ==> snapshots[i].account in accounts
    ensures AccountsKnown(AllLines(rows, snapshots), accounts)
  {
    SnapshotLinesKnown(accounts, snapshots, snapshots);
    forall x | x in AllLines(rows, snapshots) ensures x.account in accounts {
      if x !in SnapshotLines(snapshots, snapshots) {
        assert x in InstanceLines(rows);
      }
    }
  }
}
