/** The counters that the report's loops increment, and why they hold the sums. */
module ReportTally {
  import opened Prelude
  import opened ReportLines
  import opened ReportSums

  predicate AccountsKnown(lines: seq<Line>, accounts: map<int, string>) {
    forall x :: x in lines ==> x.account in accounts
  }

  /** The regions of all lines, even of those that repeat a desktop. */
  function RegionsIn(lines: seq<Line>): set<string> {
    set x | x in lines :: x.region
  }

  /** A table that holds the sums of an axis under the keys. */
  ghost predicate HoldsSums(lines: seq<Line>, axis: Axis, table: map<string, Amounts>, keys: set<string>) {
    table.Keys == keys && forall k :: k in keys ==> table[k] == SumBy(lines, axis, k)
  }

  ghost predicate HoldsCharges(lines: seq<Line>, charges: map<string, int>) {
    charges.Keys == CountedKeys(lines, ByCharge) && forall c :: c in charges ==> charges[c] == ChargeCount(lines, c)
  }

  /** The desktops of a charge type. */
  function ChargeCount(lines: seq<Line>, charge: string): int {
    SumBy(lines, ByCharge, charge).desktops
  }

  ghost predicate HasSeen(lines: seq<Line>, seen: set<(int, string)>) {
    && (forall d :: d in NamedDesktops(lines) ==> d in seen)
    && (forall d :: d in seen && d.1 != "" ==> d in NamedDesktops(lines))
  }

  function Raised(table: map<string, Amounts>, key: string, more: Amounts): map<string, Amounts> {
    table[key := Plus(if key in table then table[key] else ZERO, more)]
  }

  /** A key under which no line falls holds nothing. */
  lemma {:induction false} UnusedKey(lines: seq<Line>, axis: Axis, key: string)
    requires forall x :: x in lines ==> Label(axis, x) != Some(key)
    ensures SumBy(lines, axis, key) == ZERO
    decreases |lines|
  {
    if lines != [] {
      var before, x := lines[..|lines| - 1], lines[|lines| - 1];
      assert lines == before + [x] && x in lines;
      UnusedKey(before, axis, key);
      SumByOfOneMore(before, x, axis, key);
    }
  }

  lemma {:induction false} UncountedKey(lines: seq<Line>, axis: Axis, key: string)
    requires key !in CountedKeys(lines, axis)
    ensures SumBy(lines, axis, key) == ZERO
    decreases |lines|
  {
    if lines != [] {
      var before, x := lines[..|lines| - 1], lines[|lines| - 1];
      assert lines == before + [x];
      UncountedKey(before, axis, key);
      SumByOfOneMore(before, x, axis, key);
    }
  }

  lemma RaisedHoldsSums(before: seq<Line>, x: Line, axis: Axis, table: map<string, Amounts>, keys: set<string>,
      key: string)
    requires HoldsSums(before, axis, table, keys) && Label(axis, x) == Some(key)
    requires key !in keys ==> SumBy(before, axis, key) == ZERO
    ensures HoldsSums(before + [x], axis, Raised(table, key, Weight(before, x)), keys + {key})
  {
    forall k
      ensures SumBy(before + [x], axis, k) ==
        Plus(SumBy(before, axis, k), if k == key then Weight(before, x) else ZERO)
    {
      SumByOfOneMore(before, x, axis, k);
    }
    forall k ensures Plus(SumBy(before, axis, k), ZERO) == SumBy(before, axis, k) {
      ZeroIsNeutral(SumBy(before, axis, k));
    }
  }

  lemma RegionsOfOneMore(before: seq<Line>, x: Line)
    ensures RegionsIn(before + [x]) == RegionsIn(before) + {x.region}
    ensures x.region !in RegionsIn(before) ==> SumBy(before, ByRegion, x.region) == ZERO
  {
    assert forall y :: y in before + [x] <==> y in before || y == x;
    if x.region !in RegionsIn(before) {
      forall y | y in before ensures Label(ByRegion, y) != Some(x.region) {
      }
      UnusedKey(before, ByRegion, x.region);
    }
  }

  /** Whether the line is one more desktop of the charge type. */
  predicate CountsAs(before: seq<Line>, x: Line, charge: string) {
    x.kind.Desktop? && x.kind.charge == charge && !Repeats(before, x)
  }

  lemma ShareOfCharge(before: seq<Line>, x: Line, charge: string)
    ensures Share(before, x, ByCharge, charge).desktops == if CountsAs(before, x, charge) then 1 else 0
  {
  }

  lemma ChargeCountOfOneMore(before: seq<Line>, x: Line, charge: string)
    ensures ChargeCount(before + [x], charge) ==
      ChargeCount(before, charge) + if CountsAs(before, x, charge) then 1 else 0
  {
    SumByOfOneMore(before, x, ByCharge, charge);
    ShareOfCharge(before, x, charge);
    PlusDesktops(SumBy(before, ByCharge, charge), Share(before, x, ByCharge, charge));
  }

  lemma UncountedCharge(lines: seq<Line>, charge: string)
    requires charge !in CountedKeys(lines, ByCharge)
    ensures ChargeCount(lines, charge) == 0
  {
    UncountedKey(lines, ByCharge, charge);
  }

  function ChargesAfter(before: seq<Line>, x: Line, charges: map<string, int>): map<string, int> {
    if x.kind.Desktop? && !Repeats(before, x) then RaisedCharge(charges, x.kind.charge) else charges
  }

  lemma ChargesOfOneMore(before: seq<Line>, x: Line, charges: map<string, int>)
    requires HoldsCharges(before, charges)
    ensures HoldsCharges(before + [x], ChargesAfter(before, x, charges))
  {
    CountedKeysOfOneMore(before, x, ByCharge);
    var after := ChargesAfter(before, x, charges);
    forall c | c in after ensures after[c] == ChargeCount(before + [x], c) {
      ChargeCountOfOneMore(before, x, c);
      if c !in charges {
        UncountedCharge(before, c);
      }
    }
  }

  lemma SeenOfOneMore(before: seq<Line>, x: Line, seen: set<(int, string)>)
    requires HasSeen(before, seen)
    ensures HasSeen(before + [x], if x.kind.Desktop? then seen + {(x.account, x.kind.id)} else seen)
    ensures Repeats(before, x) <==> x.kind.Desktop? && x.kind.id != "" && (x.account, x.kind.id) in seen
  {
    NamedDesktopsOfOneMore(before, x);
  }

  /** The counters are what the lines add up to. */
  ghost predicate Tallied(lines: seq<Line>, accounts: map<int, string>, total: Amounts, providers: map<string, Amounts>,
      regions: map<string, Amounts>, charges: map<string, int>) {
    && total == Total(lines)
    && HoldsSums(lines, ByProvider(accounts), providers, accounts.Values)
    && HoldsSums(lines, ByRegion, regions, RegionsIn(lines))
    && HoldsCharges(lines, charges)
  }

  lemma TalliedOfOneMore(before: seq<Line>, x: Line, accounts: map<int, string>, total: Amounts,
      providers: map<string, Amounts>,
      regions: map<string, Amounts>, charges: map<string, int>)
    requires Tallied(before, accounts, total, providers, regions, charges) && x.account in accounts
    ensures var w := Weight(before, x);
      Tallied(before + [x], accounts, Plus(total, w), Raised(providers, accounts[x.account], w),
        Raised(regions, x.region, w), ChargesAfter(before, x, charges))
  {
    RaisedHoldsSums(before, x, ByProvider(accounts), providers, accounts.Values, accounts[x.account]);
    assert accounts.Values + {accounts[x.account]} == accounts.Values;
    RegionsOfOneMore(before, x);
    RaisedHoldsSums(before, x, ByRegion, regions, RegionsIn(before), x.region);
    ChargesOfOneMore(before, x, charges);
    ClassifiedOfOneMore(before, x, Overall);
  }

  lemma RaisedByNothing(table: map<string, Amounts>, key: string)
    requires key in table
    ensures Raised(table, key, ZERO) == table
  {
    ZeroIsNeutral(table[key]);
  }

  lemma RaisedTwice(table: map<string, Amounts>, key: string, more: Amounts)
    ensures Raised(Raised(table, key, ZERO), key, more) == Raised(table, key, more)
  {
    var value := if key in table then table[key] else ZERO;
    var once := Raised(table, key, ZERO);
    ZeroIsNeutral(value);
    assert key in once && once[key] == value;
    assert once[key := Plus(value, more)] == table[key := Plus(value, more)];
  }

  function RaisedCharge(charges: map<string, int>, charge: string): map<string, int> {
    charges[charge := (if charge in charges then charges[charge] else 0) + 1]
  }

  /** The counters of a report in the making, as a value. */
  datatype Tally = Tally(
    total: Amounts, providers: map<string, Amounts>, regions: map<string, Amounts>, charges: map<string, int>,
        seen: set<(int, string)>)

  /** One turn of the inner loop: a repeated desktop only gets its region an entry. */
  function CountOne(t: Tally, accounts: map<int, string>, x: Line): Tally {
    var entered := Raised(t.regions, x.region, ZERO);
    if x.kind.Desktop? && x.kind.id != "" && (x.account, x.kind.id) in t.seen then t.(regions := entered)
    else
      var unit := Unit(x.kind);
      Tally(Plus(t.total, unit),
            if x.account in accounts then Raised(t.providers, accounts[x.account], unit) else t.providers,
            Raised(entered, x.region, unit),
            if x.kind.Desktop? then RaisedCharge(t.charges, x.kind.charge) else t.charges,
            if x.kind.Desktop? then t.seen + {(x.account, x.kind.id)} else t.seen)
  }

  function Start(accounts: map<int, string>): Tally {
    Tally(ZERO, map p | p in accounts.Values :: ZERO, map[], map[], {})
  }

  function CountFrom(t: Tally, accounts: map<int, string>, lines: seq<Line>): Tally
    decreases |lines|
  {
    if lines == [] then t else CountFrom(CountOne(t, accounts, lines[0]), accounts, lines[1..])
  }

  ghost predicate Right(lines: seq<Line>, accounts: map<int, string>, t: Tally) {
    Tallied(lines, accounts, t.total, t.providers, t.regions, t.charges) && HasSeen(lines, t.seen)
  }

  lemma CountOneRepeat(before: seq<Line>, x: Line, accounts: map<int, string>, t: Tally)
    requires Right(before, accounts, t) && x.account in accounts && Repeats(before, x)
    ensures Right(before + [x], accounts, t.(regions := Raised(t.regions, x.region, ZERO)))
  {
    TalliedOfOneMore(before, x, accounts, t.total, t.providers, t.regions, t.charges);
    ZeroIsNeutral(t.total);
    RaisedByNothing(t.providers, accounts[x.account]);
    SeenOfOneMore(before, x, t.seen);
    assert t.seen == t.seen + {(x.account, x.kind.id)};
  }

  lemma CountOneOfFresh(before: seq<Line>, x: Line, accounts: map<int, string>, t: Tally)
    requires x.account in accounts && !Repeats(before, x)
    requires !(x.kind.Desktop? && x.kind.id != "" && (x.account, x.kind.id) in t.seen)
    ensures CountOne(t, accounts, x) == Tally(Plus(t.total, Weight(before, x)),
      Raised(t.providers, accounts[x.account], Weight(before, x)), Raised(t.regions, x.region, Weight(before, x)),
      ChargesAfter(before, x, t.charges), if x.kind.Desktop? then t.seen + {(x.account, x.kind.id)} else t.seen)
  {
    RaisedTwice(t.regions, x.region, Unit(x.kind));
  }

  lemma CountOneFresh(before: seq<Line>, x: Line, accounts: map<int, string>, t: Tally)
    requires Right(before, accounts, t) && x.account in accounts && !Repeats(before, x)
    ensures Right(before + [x], accounts, CountOne(t, accounts, x))
  {
    SeenOfOneMore(before, x, t.seen);
    CountOneOfFresh(before, x, accounts, t);
    TalliedOfOneMore(before, x, accounts, t.total, t.providers, t.regions, t.charges);
  }

  lemma CountOneIsRight(before: seq<Line>, x: Line, accounts: map<int, string>, t: Tally)
    requires Right(before, accounts, t) && x.account in accounts
    ensures Right(before + [x], accounts, CountOne(t, accounts, x))
  {
    if Repeats(before, x) {
      SeenOfOneMore(before, x, t.seen);
      CountOneRepeat(before, x, accounts, t);
    } else {
      CountOneFresh(before, x, accounts, t);
    }
  }

  /** The loops compute the sums. */
  lemma {:induction false} CountFromIsRight(before: seq<Line>, t: Tally, accounts: map<int, string>, lines: seq<Line>)
    requires Right(before, accounts, t) && AccountsKnown(lines, accounts)
    ensures Right(before + lines, accounts, CountFrom(t, accounts, lines))
    decreases |lines|
  {
    if lines == [] {
      assert before + lines == before;
    } else {
      var x, rest := lines[0], lines[1..];
      assert lines == [x] + rest && x in lines;
      assert before + lines == (before + [x]) + rest;
      CountOneIsRight(before, x, accounts, t);
      assert CountFrom(t, accounts, lines) == CountFrom(CountOne(t, accounts, x), accounts, rest);
      StillKnown(lines, accounts);
      CountFromIsRight(before + [x], CountOne(t, accounts, x), accounts, rest);
    }
  }

  lemma StillKnown(lines: seq<Line>, accounts: map<int, string>)
    requires AccountsKnown(lines, accounts) && lines != []
    ensures lines[0].account in accounts && AccountsKnown(lines[1..], accounts)
  {
    assert lines[0] in lines;
  }

  lemma {:induction false} CountFromBoth(t: Tally, accounts: map<int, string>, a: seq<Line>, b: seq<Line>)
    ensures CountFrom(t, accounts, a + b) == CountFrom(CountFrom(t, accounts, a), accounts, b)
    decreases |a|
  {
    if a == [] {
      assert a + b == b;
    } else {
      assert (a + b)[1..] == a[1..] + b && (a + b)[0] == a[0];
      CountFromBoth(CountOne(t, accounts, a[0]), accounts, a[1..], b);
    }
  }

  lemma CountFromFirst(t: Tally, accounts: map<int, string>, lines: seq<Line>, i: nat)
    requires i < |lines|
    ensures CountFrom(t, accounts, lines[i..]) == CountFrom(CountOne(t, accounts, lines[i]), accounts, lines[i + 1..])
  {
    assert lines[i..][1..] == lines[i + 1..];
  }
}
