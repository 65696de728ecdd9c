/**
 The stored compute inventory and its reconciliation with what a provider returned.

 A regional collection replaces the rows of one region, a whole-account collection (Azure, GCP) those
 of the account, each in one transaction and only after the provider succeeded. The regions of one
 account are collected concurrently; a schedule lists them in the order their transactions commit.
 */
module Inventory {
  import opened Prelude

  datatype Attributes = Attributes(
    name: string, state: string, kind: string, publicIP: string, privateIP: string, details: string)

  datatype Instance = Instance(id: string, region: string, attributes: Attributes)

  datatype RowKey = RowKey(account: int, region: string, id: string)
  datatype Row = Row(rowId: nat, attributes: Attributes, seenAt: int)
  datatype Table = Table(rows: map<RowKey, Row>, nextRow: nat)

  function KeyOf(account: int, item: Instance): RowKey {
    RowKey(account, item.region, item.id)
  }

  /** A provider list the transaction accepts: every item has a region, and no row is written twice. */
  predicate Acceptable(items: seq<Instance>) {
    (forall i :: 0 <= i < |items| ==> items[i].region != "") && WritesRowsOnce(items)
  }

  predicate Supplied(account: int, items: seq<Instance>, k: RowKey) {
    exists i :: 0 <= i < |items| && KeyOf(account, items[i]) == k
  }

  predicate HasId(items: seq<Instance>, id: string) {
    exists i :: 0 <= i < |items| && items[i].id == id
  }

  /** The rows the closing delete removes. */
  predicate Stale(account: int, items: seq<Instance>, whole: bool, region: string, k: RowKey) {
    k.account == account && (whole || k.region == region) && !HasId(items, k.id)
  }

  /** Item number `i` is written: an existing row keeps its id, a new one gets the next of the sequence. */
  function Upsert(t: Table, account: int, item: Instance, now: int): Table {
    var k := KeyOf(account, item);
    Table(t.rows[k := Row(if k in t.rows then t.rows[k].rowId else t.nextRow, item.attributes, now)], t.nextRow + 1)
  }

  function UpsertAll(t: Table, account: int, items: seq<Instance>, now: int): Table {
    if items == [] then t
    else Upsert(UpsertAll(t, account, items[..|items| - 1], now), account, items[|items| - 1], now)
  }

  function Reconcile(t: Table, account: int, items: seq<Instance>, whole: bool, region: string, now: int): Table
    requires Acceptable(items)
  {
    var written := UpsertAll(t, account, items, now);
    written.(rows := map k | k in written.rows && !Stale(account, items, whole, region, k) :: written.rows[k])
  }

  /** What a successful reconciliation leaves in row `k`. */
  ghost predicate RowAfter(t: Table, t': Table, account: int, items: seq<Instance>, whole: bool, region: string,
      now: int, k: RowKey) {
    if Supplied(account, items, k) then RowWritten(t, t', account, items, now, k)
    else if Stale(account, items, whole, region, k) then k !in t'.rows
    else RowKept(t, t', k)
  }

  /** The row was seen now with the attributes of its item, and has the id it had if it existed. */
  predicate RowWritten(t: Table, t': Table, account: int, items: seq<Instance>, now: int, k: RowKey) {
    && k in t'.rows
    && (forall i :: 0 <= i < |items| && KeyOf(account, items[i]) == k ==> t'.rows[k].attributes == items[i].attributes)
    && (if k in t.rows then t'.rows[k].rowId == t.rows[k].rowId else t'.rows[k].rowId >= t.nextRow)
    && t'.rows[k].seenAt == now
  }

  predicate RowKept(t: Table, t': Table, k: RowKey) {
    (k in t'.rows <==> k in t.rows) && (k in t.rows ==> t'.rows[k] == t.rows[k])
  }

  lemma SuppliedGrows(account: int, items: seq<Instance>, last: Instance, k: RowKey)
    ensures Supplied(account, items + [last], k) <==> Supplied(account, items, k) || KeyOf(account, last) == k
  {
    if Supplied(account, items, k) {
      var i :| 0 <= i < |items| && KeyOf(account, items[i]) == k;
      assert KeyOf(account, (items + [last])[i]) == k;
    }
    if KeyOf(account, last) == k {
      assert KeyOf(account, (items + [last])[|items|]) == k;
    }
  }

  predicate RowUpserted(t: Table, t': Table, account: int, items: seq<Instance>, now: int, k: RowKey) {
    && t'.nextRow == t.nextRow + |items|
    && if Supplied(account, items, k) then RowWritten(t, t', account, items, now, k) else RowKept(t, t', k)
  }

  lemma UpsertOneRow(t: Table, t': Table, account: int, items: seq<Instance>, last: Instance, now: int, k: RowKey)
    requires RowUpserted(t, t', account, items, now, k) && (Supplied(account, items, k) ==> KeyOf(account, last) != k)
    ensures RowUpserted(t, Upsert(t', account, last, now), account, items + [last], now, k)
  {
    SuppliedGrows(account, items, last, k);
  }

  lemma {:induction false} UpsertAllRow(t: Table, account: int, items: seq<Instance>, now: int, k: RowKey)
    requires Acceptable(items)
    ensures RowUpserted(t, UpsertAll(t, account, items, now), account, items, now, k)
  {
    if items != [] {
      var init, last := items[..|items| - 1], items[|items| - 1];
      UpsertAllRow(t, account, init, now, k);
      assert items == init + [last];
      forall i | 0 <= i < |init| ensures KeyOf(account, init[i]) != KeyOf(account, last) {
        assert KeyOf(0, items[i]) != KeyOf(0, items[|items| - 1]);
      }
      UpsertOneRow(t, UpsertAll(t, account, init, now), account, init, last, now, k);
    }
  }

  lemma ReconcileRow(t: Table, account: int, items: seq<Instance>, whole: bool, region: string, now: int, k: RowKey)
    requires Acceptable(items)
    ensures RowAfter(t, Reconcile(t, account, items, whole, region, now), account, items, whole, region, now, k)
  {
    UpsertAllRow(t, account, items, now, k);
    if Supplied(account, items, k) {
      var i :| 0 <= i < |items| && KeyOf(account, items[i]) == k;
      assert items[i].id == k.id;
      assert HasId(items, k.id);
    }
  }

  datatype SyncState = SyncState(lastSync: Option<int>, failed: bool)

  /** One region's part of a collection: what the provider returned, or None if anything failed. */
  datatype RegionResult = RegionResult(region: string, items: Option<seq<Instance>>)

  /** A regional collection overwrites the region of every item with the one it asked for. */
  function Stamped(items: seq<Instance>, region: string): (r: seq<Instance>)
    ensures |r| == |items| && forall i :: 0 <= i < |r| ==> r[i] == items[i].(region := region)
  {
    seq(|items|, i requires 0 <= i < |items| => items[i].(region := region))
  }

  predicate Healthy(r: RegionResult) {
    r.items.Some? && Acceptable(Stamped(r.items.value, r.region))
  }

  function CollectOne(t: Table, account: int, r: RegionResult, now: int): Table {
    if Healthy(r) then Reconcile(t, account, Stamped(r.items.value, r.region), false, r.region, now) else t
  }

  function CollectAll(t: Table, account: int, schedule: seq<RegionResult>, now: int): Table {
    if schedule == [] then t
    else CollectOne(CollectAll(t, account, schedule[..|schedule| - 1], now), account, schedule[|schedule| - 1], now)
  }

  method AllHaveRegions(items: seq<Instance>) returns (ok: bool)
    ensures ok == forall i :: 0 <= i < |items| ==> items[i].region != ""
  {
    for i := 0 to |items|
      invariant forall j :: 0 <= j < i ==> items[j].region != ""
    {
      if items[i].region == "" {
        return false;
      }
    }
    ok := true;
  }

  predicate WritesRowsOnce(items: seq<Instance>) {
    forall i, j :: 0 <= i < j < |items| ==> KeyOf(0, items[i]) != KeyOf(0, items[j])
  }

  lemma OneMoreRow(account: int, before: seq<Instance>, item: Instance)
    requires WritesRowsOnce(before)
    ensures WritesRowsOnce(before + [item]) <==> !Supplied(account, before, KeyOf(account, item))
  {
    var all := before + [item];
    if Supplied(account, before, KeyOf(account, item)) {
      var j :| 0 <= j < |before| && KeyOf(account, before[j]) == KeyOf(account, item);
      assert KeyOf(0, all[j]) == KeyOf(0, all[|before|]);
    } else {
      forall i, j | 0 <= i < j < |all| ensures KeyOf(0, all[i]) != KeyOf(0, all[j]) {
        if j < |before| {
          assert KeyOf(0, before[i]) != KeyOf(0, before[j]);
        } else {
          assert KeyOf(account, before[i]) != KeyOf(account, item);
        }
      }
    }
  }

  lemma WrittenGrows(account: int, before: seq<Instance>, item: Instance, written: set<RowKey>)
    requires forall k :: k in written <==> Supplied(account, before, k)
    ensures forall k :: k in written + {KeyOf(account, item)} <==> Supplied(account, before + [item], k)
  {
    forall k
      ensures Supplied(account, before + [item], k) <==> Supplied(account, before, k) || k == KeyOf(account, item)
    {
      SuppliedGrows(account, before, item, k);
    }
  }

  lemma PrefixWritesTwice(items: seq<Instance>, n: nat)
    requires n <= |items| && !WritesRowsOnce(items[..n])
    ensures !WritesRowsOnce(items)
  {
    var i, j :| 0 <= i < j < n && KeyOf(0, items[..n][i]) == KeyOf(0, items[..n][j]);
    assert KeyOf(0, items[i]) == KeyOf(0, items[j]);
  }

  /** The upsert statement; it fails when two of its items are the same row. */
  method InsertAll(table: Table, account: int, items: seq<Instance>, now: int) returns (tx: Table, ok: bool)
    ensures ok == WritesRowsOnce(items)
    ensures ok ==> tx == UpsertAll(table, account, items, now)
  {
    tx := table;
    var written: set<RowKey> := {};
    for i := 0 to |items|
      invariant tx == UpsertAll(table, account, items[..i], now)
      invariant forall k :: k in written <==> Supplied(account, items[..i], k)
      invariant WritesRowsOnce(items[..i])
    {
      var k := KeyOf(account, items[i]);
      assert items[..i + 1] == items[..i] + [items[i]];
      OneMoreRow(account, items[..i], items[i]);
      if k in written {
        PrefixWritesTwice(items, i + 1);
        return tx, false;
      }
      WrittenGrows(account, items[..i], items[i], written);
      assert items[..i + 1][..i] == items[..i];
      tx := Upsert(tx, account, items[i], now);
      written := written + {k};
    }
    assert items[..|items|] == items;
    ok := true;
  }

  /**
   Where an account's instances come from: one list for the whole account (Azure, GCP), or one per
   region (AWS, Alibaba) unless the regions cannot be found out.
   */
  datatype Source =
    | Global(fetched: Option<seq<Instance>>, regions: seq<string>)
    | Regional(known: bool, schedule: seq<RegionResult>)

  /** The items of the configured regions, or all of them if none is configured. */
  function Configured(items: seq<Instance>, regions: seq<string>): (r: seq<Instance>)
    ensures forall x :: x in r <==> x in items && (regions == [] || x.region in regions)
  {
    if items == [] || regions == [] then items
    else
      var init, last := items[..|items| - 1], items[|items| - 1];
      assert items == init + [last];
      if last.region in regions then Configured(init, regions) + [last] else Configured(init, regions)
  }

  predicate Worked(source: Source) {
    match source
    case Global(fetched, regions) => fetched.Some? && Acceptable(Configured(fetched.value, regions))
    case Regional(known, schedule) => known && forall i :: 0 <= i < |schedule| ==> Healthy(schedule[i])
  }

  /** The table after a collection; a global one changes it all at once or not at all. */
  function Collected(t: Table, account: int, source: Source, now: int): Table {
    match source
    case Global(fetched, regions) =>
      if Worked(source) then Reconcile(t, account, Configured(fetched.value, regions), true, "", now) else t
    case Regional(known, schedule) => if known then CollectAll(t, account, schedule, now) else t
  }

  /** A healthy collection sets the account's last sync, a failed one leaves it and sets the error. */
  function Marked(sync: map<int, SyncState>, account: int, healthy: bool, now: int): map<int, SyncState> {
    var last := if account in sync then sync[account].lastSync else None;
    sync[account := SyncState(if healthy then Some(now) else last, !healthy)]
  }

  class InstanceStore {
    var table: Table
    var sync: map<int, SyncState>

    constructor ()
      ensures table == Table(map[], 0) && sync == map[]
    {
      table, sync := Table(map[], 0), map[];
    }

    /** One transaction: an item without a region or a row written twice rolls it back. */
    method ReconcileInventory(account: int, items: seq<Instance>, whole: bool, region: string, now: int)
      returns (ok: bool)
      modifies this`table
      ensures ok == Acceptable(items)
      ensures ok ==> table == Reconcile(old(table), account, items, whole, region, now)
      ensures !ok ==> table == old(table)
    {
      var regions := AllHaveRegions(items);
      if !regions {
        return false;
      }
      var tx, inserted := InsertAll(table, account, items, now);
      if !inserted {
        return false;
      }
      table := tx.(rows := map k | k in tx.rows && !Stale(account, items, whole, region, k) :: tx.rows[k]);
      ok := true;
    }

    /** One list for the whole account, cut down to the configured regions if there are any. */
    method CollectGlobal(account: int, fetched: Option<seq<Instance>>, regions: seq<string>, now: int)
      returns (ok: bool)
      modifies this`table
      ensures ok == Worked(Global(fetched, regions))
      ensures table == Collected(old(table), account, Global(fetched, regions), now)
    {
      if fetched.None? {
        return false;
      }
      ok := ReconcileInventory(account, Configured(fetched.value, regions), true, "", now);
    }

    /** Collects the regions in the order their goroutines get to commit; one failure fails the account. */
    method CollectRegions(account: int, schedule: seq<RegionResult>, now: int) returns (ok: bool)
      modifies this`table
      ensures ok == Worked(Regional(true, schedule))
      ensures table == Collected(old(table), account, Regional(true, schedule), now)
    {
      var failed := false;
      for i := 0 to |schedule|
        invariant table == CollectAll(old(table), account, schedule[..i], now)
        invariant failed == exists j :: 0 <= j < i && !Healthy(schedule[j])
      {
        var done := false;
        assert schedule[..i + 1] == schedule[..i] + [schedule[i]];
        assert schedule[..i + 1][..i] == schedule[..i];
        if schedule[i].items.Some? {
          var stamped := Stamped(schedule[i].items.value, schedule[i].region);
          done := ReconcileInventory(account, stamped, false, schedule[i].region, now);
        }
        if !done {
          failed := true;
        }
      }
      assert schedule[..|schedule|] == schedule;
      ok := !failed;
    }

    /**
     Collects one account, as a whole or region by region. The account is marked healthy exactly when
     everything succeeded; `recorded` is false when that last update fails.
     */
    method CollectAccount(account: int, source: Source, recorded: bool, now: int) returns (ok: bool)
      modifies this
      ensures table == Collected(old(table), account, source, now)
      ensures ok == (recorded && Worked(source))
      ensures sync == if recorded then Marked(old(sync), account, Worked(source), now) else old(sync)
    {
      var worked := false;
      match source {
        case Global(fetched, regions) => worked := CollectGlobal(account, fetched, regions, now);
        case Regional(known, schedule) =>
          if known {
            worked := CollectRegions(account, schedule, now);
          }
      }
      if recorded {
        sync := Marked(sync, account, worked, now);
      }
      ok := worked && recorded;
    }
  }

  // ----- Marks over several collections -----

  /** A collection of an account, whether everything in it worked, and whether that was recorded. */
  datatype Attempt = Attempt(account: int, worked: bool, recorded: bool, at: int)

  function MarkedBy(sync: map<int, SyncState>, attempts: seq<Attempt>): map<int, SyncState> {
    if attempts == [] then sync
    else
      var before, last := MarkedBy(sync, attempts[..|attempts| - 1]), attempts[|attempts| - 1];
      if last.recorded then Marked(before, last.account, last.worked, last.at) else before
  }

  /** Attempt `i` was recorded for the account, and none of these later. */
  predicate IsLast(attempts: seq<Attempt>, account: int, i: nat, onlyWorking: bool) {
    && i < |attempts| && Records(attempts[i], account, onlyWorking)
    && forall j :: i < j < |attempts| ==> !Records(attempts[j], account, onlyWorking)
  }

  predicate Records(a: Attempt, account: int, onlyWorking: bool) {
    a.account == account && a.recorded && (onlyWorking ==> a.worked)
  }

  /** An account is shown as failed exactly when its last recorded collection did not work. */
  lemma {:induction false} ErrorIsTheLast(sync: map<int, SyncState>, attempts: seq<Attempt>, account: int, i: nat)
    requires IsLast(attempts, account, i, false)
    ensures account in MarkedBy(sync, attempts)
    ensures MarkedBy(sync, attempts)[account].failed <==> !attempts[i].worked
  {
    if i < |attempts| - 1 {
      assert !Records(attempts[|attempts| - 1], account, false);
      ErrorIsTheLast(sync, attempts[..|attempts| - 1], account, i);
    }
  }

  /** Its last sync is the time of its last recorded collection that worked. */
  lemma {:induction false} LastSyncIsTheLast(sync: map<int, SyncState>, attempts: seq<Attempt>, account: int, i: nat)
    requires IsLast(attempts, account, i, true)
    ensures account in MarkedBy(sync, attempts)
    ensures MarkedBy(sync, attempts)[account].lastSync == Some(attempts[i].at)
  {
    if i < |attempts| - 1 {
      assert !Records(attempts[|attempts| - 1], account, true);
      LastSyncIsTheLast(sync, attempts[..|attempts| - 1], account, i);
    }
  }

  /** A run of collections marks the accounts it names and no other. */
  lemma {:induction false} OthersKeepTheirMarks(sync: map<int, SyncState>, attempts: seq<Attempt>, account: int)
    requires forall i :: 0 <= i < |attempts| ==> !Records(attempts[i], account, false)
    ensures account in MarkedBy(sync, attempts) <==> account in sync
    ensures account in sync ==> MarkedBy(sync, attempts)[account] == sync[account]
  {
    if attempts != [] {
      assert !Records(attempts[|attempts| - 1], account, false);
      OthersKeepTheirMarks(sync, attempts[..|attempts| - 1], account);
    }
  }

  // ----- Confluence -----

  predicate DistinctRegions(schedule: seq<RegionResult>) {
    forall i, j :: 0 <= i < j < |schedule| ==> schedule[i].region != schedule[j].region
  }

  /** Region `k.region` was collected successfully, and returned `k.id` with these attributes. */
  predicate Returned(schedule: seq<RegionResult>, k: RowKey, attributes: Attributes) {
    exists i, j :: 0 <= i < |schedule| && schedule[i].region == k.region && Healthy(schedule[i])
      && 0 <= j < |schedule[i].items.value| && schedule[i].items.value[j].id == k.id
      && schedule[i].items.value[j].attributes == attributes
  }

  predicate Succeeded(schedule: seq<RegionResult>, region: string) {
    exists i :: 0 <= i < |schedule| && schedule[i].region == region && Healthy(schedule[i])
  }

  /**
   The content of row `k` after a collection: what its region returned if that region succeeded,
   else what was there before; surviving rows keep their ids.
   */
  ghost predicate RowIsLatest(t: Table, t': Table, account: int, schedule: seq<RegionResult>, now: int, k: RowKey) {
    if k.account == account && Succeeded(schedule, k.region) then
      && (k in t'.rows <==> exists a :: Returned(schedule, k, a))
      && (k in t'.rows ==> Returned(schedule, k, t'.rows[k].attributes))
      && (k in t'.rows && k in t.rows ==> t'.rows[k].rowId == t.rows[k].rowId)
      && (k in t'.rows ==> t'.rows[k].seenAt == now)
    else (k in t'.rows <==> k in t.rows) && (k in t.rows ==> t'.rows[k] == t.rows[k])
  }

  lemma SucceededGrows(schedule: seq<RegionResult>, last: RegionResult, k: RowKey, a: Attributes)
    ensures last.region != k.region ==> (Succeeded(schedule + [last], k.region) <==> Succeeded(schedule, k.region))
    ensures last.region != k.region ==> (Returned(schedule + [last], k, a) <==> Returned(schedule, k, a))
  {
    var longer := schedule + [last];
    if last.region != k.region {
      if Succeeded(schedule, k.region) {
        var i :| 0 <= i < |schedule| && schedule[i].region == k.region && Healthy(schedule[i]);
        assert longer[i] == schedule[i];
      }
      if Returned(schedule, k, a) {
        var i, j :| 0 <= i < |schedule| && schedule[i].region == k.region && Healthy(schedule[i])
          && 0 <= j < |schedule[i].items.value| && schedule[i].items.value[j].id == k.id
          && schedule[i].items.value[j].attributes == a;
        assert longer[i] == schedule[i];
      }
    }
  }

  predicate ListsItem(items: seq<Instance>, id: string, a: Attributes) {
    exists j :: 0 <= j < |items| && items[j].id == id && items[j].attributes == a
  }

  /** What the result of the region itself says about row `k`. */
  lemma OwnRegion(schedule: seq<RegionResult>, n: nat, k: RowKey)
    requires DistinctRegions(schedule) && n < |schedule| && schedule[n].region == k.region
    ensures Succeeded(schedule, k.region) <==> Healthy(schedule[n])
    ensures forall a :: Returned(schedule, k, a) <==>
      Healthy(schedule[n]) && ListsItem(schedule[n].items.value, k.id, a)
  {
  }

  lemma CollectOwnRegion(t: Table, t1: Table, account: int, init: seq<RegionResult>, last: RegionResult, now: int,
      k: RowKey)
    requires DistinctRegions(init + [last]) && RowIsLatest(t, t1, account, init, now, k) && last.region == k.region
    ensures RowIsLatest(t, CollectOne(t1, account, last, now), account, init + [last], now, k)
  {
    var schedule := init + [last];
    assert schedule[..|schedule| - 1] == init && schedule[|init|] == last;
    OwnRegion(schedule, |init|, k);
    NotSucceededYet(schedule, k.region);
    if Healthy(last) {
      ReconcileRow(t1, account, Stamped(last.items.value, last.region), false, last.region, now, k);
      if k.account == account {
        SuppliedByRegion(account, last, k);
      }
    }
  }

  lemma CollectOtherRegion(t: Table, t1: Table, account: int, init: seq<RegionResult>, last: RegionResult, now: int,
      k: RowKey)
    requires RowIsLatest(t, t1, account, init, now, k) && last.region != k.region
    ensures RowIsLatest(t, CollectOne(t1, account, last, now), account, init + [last], now, k)
  {
    forall a ensures Returned(init + [last], k, a) <==> Returned(init, k, a) {
      SucceededGrows(init, last, k, a);
    }
    SucceededGrows(init, last, k, Attributes("", "", "", "", "", ""));
    if Healthy(last) {
      var items := Stamped(last.items.value, last.region);
      ReconcileRow(t1, account, items, false, last.region, now, k);
      assert !Supplied(account, items, k);
    }
  }

  /** A successful region leaves exactly what it returned, by any order of the others. */
  lemma {:induction false} CollectRow(t: Table, account: int, schedule: seq<RegionResult>, now: int, k: RowKey)
    requires DistinctRegions(schedule)
    ensures RowIsLatest(t, CollectAll(t, account, schedule, now), account, schedule, now, k)
    decreases |schedule|
  {
    if schedule != [] {
      var init, last := schedule[..|schedule| - 1], schedule[|schedule| - 1];
      assert schedule == init + [last];
      CollectRow(t, account, init, now, k);
      if last.region == k.region {
        CollectOwnRegion(t, CollectAll(t, account, init, now), account, init, last, now, k);
      } else {
        CollectOtherRegion(t, CollectAll(t, account, init, now), account, init, last, now, k);
      }
    }
  }

  lemma NotSucceededYet(schedule: seq<RegionResult>, region: string)
    requires DistinctRegions(schedule) && schedule != [] && schedule[|schedule| - 1].region == region
    ensures !Succeeded(schedule[..|schedule| - 1], region)
  {
  }

  /** Being supplied by a region's stamped list is having the region and an id in its list. */
  lemma SuppliedByRegion(account: int, r: RegionResult, k: RowKey)
    requires Healthy(r) && k.account == account && k.region == r.region
    ensures Supplied(account, Stamped(r.items.value, r.region), k) <==>
      exists j :: 0 <= j < |r.items.value| && r.items.value[j].id == k.id
    ensures HasId(Stamped(r.items.value, r.region), k.id) <==>
      exists j :: 0 <= j < |r.items.value| && r.items.value[j].id == k.id
  {
    var stamped := Stamped(r.items.value, r.region);
    forall j | 0 <= j < |stamped|
      ensures stamped[j].id == r.items.value[j].id
        && KeyOf(account, stamped[j]) == RowKey(account, r.region, r.items.value[j].id)
    {
    }
    if exists j :: 0 <= j < |r.items.value| && r.items.value[j].id == k.id {
      var j :| 0 <= j < |r.items.value| && r.items.value[j].id == k.id;
      assert KeyOf(account, stamped[j]) == k && stamped[j].id == k.id;
    }
  }

  lemma ReturnedOnce(schedule: seq<RegionResult>, k: RowKey, a: Attributes, b: Attributes)
    requires DistinctRegions(schedule) && Returned(schedule, k, a) && Returned(schedule, k, b)
    ensures a == b
  {
    var n :| 0 <= n < |schedule| && schedule[n].region == k.region && Healthy(schedule[n]);
    OwnRegion(schedule, n, k);
    var items := schedule[n].items.value;
    var i :| 0 <= i < |items| && items[i].id == k.id && items[i].attributes == a;
    var j :| 0 <= j < |items| && items[j].id == k.id && items[j].attributes == b;
    var stamped := Stamped(items, schedule[n].region);
    assert KeyOf(0, stamped[i]) == KeyOf(0, stamped[j]);
  }

  lemma SameResults(s1: seq<RegionResult>, s2: seq<RegionResult>, k: RowKey, a: Attributes)
    requires multiset(s1) == multiset(s2)
    ensures Succeeded(s1, k.region) ==> Succeeded(s2, k.region)
    ensures Returned(s1, k, a) ==> Returned(s2, k, a)
  {
    if Succeeded(s1, k.region) {
      var i :| 0 <= i < |s1| && s1[i].region == k.region && Healthy(s1[i]);
      assert s1[i] in multiset(s2);
    }
    if Returned(s1, k, a) {
      var i, j :| 0 <= i < |s1| && s1[i].region == k.region && Healthy(s1[i])
        && 0 <= j < |s1[i].items.value| && s1[i].items.value[j].id == k.id && s1[i].items.value[j].attributes == a;
      assert s1[i] in multiset(s2);
      var i' :| 0 <= i' < |s2| && s2[i'] == s1[i];
      assert s2[i'].items.value[j].id == k.id;
    }
  }

  /**
   Confluence: whatever the order in which the goroutines of one account commit and whichever of
   them fail, the account ends with the same rows and the same contents; rows that were there before
   and survive keep their row id. Only the ids drawn for new rows depend on the order.
   */
  lemma CollectionIsConfluent(t: Table, account: int, s1: seq<RegionResult>, s2: seq<RegionResult>, now: int, k: RowKey)
    requires DistinctRegions(s1) && DistinctRegions(s2) && multiset(s1) == multiset(s2)
    ensures var t1, t2 := CollectAll(t, account, s1, now), CollectAll(t, account, s2, now);
      && (k in t1.rows <==> k in t2.rows)
      && (k in t1.rows ==> t1.rows[k].attributes == t2.rows[k].attributes)
      && (k in t1.rows && k in t.rows ==> t1.rows[k].rowId == t2.rows[k].rowId == t.rows[k].rowId)
  {
    var t1, t2 := CollectAll(t, account, s1, now), CollectAll(t, account, s2, now);
    CollectRow(t, account, s1, now, k);
    CollectRow(t, account, s2, now, k);
    forall a ensures Returned(s1, k, a) <==> Returned(s2, k, a) {
      SameResults(s1, s2, k, a);
      SameResults(s2, s1, k, a);
    }
    SameResults(s1, s2, k, Attributes("", "", "", "", "", ""));
    SameResults(s2, s1, k, Attributes("", "", "", "", "", ""));
    if k.account == account && Succeeded(s1, k.region) && k in t1.rows {
      ReturnedOnce(s1, k, t1.rows[k].attributes, t2.rows[k].attributes);
    }
  }

  // ----- Row ids -----

  /** No two rows have the same id, and the sequence is ahead of all of them. */
  predicate IdsAreUnique(t: Table) {
    && (forall j, k :: j in t.rows && k in t.rows && t.rows[j].rowId == t.rows[k].rowId ==> j == k)
    && (forall k :: k in t.rows ==> t.rows[k].rowId < t.nextRow)
  }

  lemma {:induction false} UpsertsKeepIdsUnique(t: Table, account: int, items: seq<Instance>, now: int)
    requires IdsAreUnique(t)
    ensures IdsAreUnique(UpsertAll(t, account, items, now))
    decreases |items|
  {
    if items != [] {
      UpsertsKeepIdsUnique(t, account, items[..|items| - 1], now);
    }
  }

  lemma {:induction false} CollectionsKeepIdsUnique(t: Table, account: int, schedule: seq<RegionResult>, now: int)
    requires IdsAreUnique(t)
    ensures IdsAreUnique(CollectAll(t, account, schedule, now))
    decreases |schedule|
  {
    if schedule != [] {
      var init, last := schedule[..|schedule| - 1], schedule[|schedule| - 1];
      CollectionsKeepIdsUnique(t, account, init, now);
      if Healthy(last) {
        UpsertsKeepIdsUnique(CollectAll(t, account, init, now), account, Stamped(last.items.value, last.region), now);
      }
    }
  }

  /** Whatever is collected, rows keep ids of their own. */
  lemma CollectedIdsAreUnique(t: Table, account: int, source: Source, now: int)
    requires IdsAreUnique(t)
    ensures IdsAreUnique(Collected(t, account, source, now))
  {
    match source
    case Global(fetched, regions) =>
      if Worked(source) { UpsertsKeepIdsUnique(t, account, Configured(fetched.value, regions), now); }
    case Regional(known, schedule) => if known { CollectionsKeepIdsUnique(t, account, schedule, now); }
  }

  // ----- Whole-account collections -----

  /** Row `k` of the account is not an item, though its id is one: the instance changed region. */
  predicate Moved(t: Table, account: int, items: seq<Instance>, k: RowKey) {
    k in t.rows && k.account == account && HasId(items, k.id) && !Supplied(account, items, k)
  }

  predicate StoresId(t: Table, account: int, id: string) {
    exists k :: k in t.rows && k.account == account && k.id == id
  }

  /**
   After a whole-account reconciliation the ids stored for the account are exactly the ids
   supplied; its rows are exactly the items if and only if no surviving instance changed region.
   Such an instance keeps its old row beside the new one.
   */
  lemma WholeAccountStoresTheItems(t: Table, account: int, items: seq<Instance>, region: string, now: int, id: string)
    requires Acceptable(items)
    ensures var t' := Reconcile(t, account, items, true, region, now);
      && (StoresId(t', account, id) <==> HasId(items, id))
      && ((forall k: RowKey :: k.account == account ==> (k in t'.rows <==> Supplied(account, items, k)))
            <==> !exists k :: k in t.rows && Moved(t, account, items, k))
  {
    var t' := Reconcile(t, account, items, true, region, now);
    if HasId(items, id) {
      var i :| 0 <= i < |items| && items[i].id == id;
      assert Supplied(account, items, KeyOf(account, items[i]));
      ReconcileRow(t, account, items, true, region, now, KeyOf(account, items[i]));
      assert KeyOf(account, items[i]) in t'.rows;
    }
    if StoresId(t', account, id) {
      var k :| k in t'.rows && k.account == account && k.id == id;
      ReconcileRow(t, account, items, true, region, now, k);
      if Supplied(account, items, k) {
        var i :| 0 <= i < |items| && KeyOf(account, items[i]) == k;
        assert items[i].id == id;
      }
    }
    forall k: RowKey | k.account == account
      ensures k in t'.rows <==> Supplied(account, items, k) || Moved(t, account, items, k)
    {
      ReconcileRow(t, account, items, true, region, now, k);
    }
  }
  /**
   A global collection that works leaves the account with exactly the ids that the provider lists in
   the configured regions: instances of any other region go, even if the provider still lists them.
   */
  lemma OnlyConfiguredRegionsStay(t: Table, account: int, items: seq<Instance>, regions: seq<string>, now: int,
      id: string)
    requires Worked(Global(Some(items), regions))
    ensures StoresId(Collected(t, account, Global(Some(items), regions), now), account, id)
      <==> exists x :: x in items && x.id == id && (regions == [] || x.region in regions)
  {
    var kept := Configured(items, regions);
    WholeAccountStoresTheItems(t, account, kept, "", now, id);
    if HasId(kept, id) {
      var i :| 0 <= i < |kept| && kept[i].id == id;
      assert kept[i] in kept;
    }
  }
}
