/**
 The capability vocabulary and the completion of a custom role's permission list.

 `Prerequisites` is the table the product promises ("implied read prerequisites are added
 automatically"); the method below completes a list by the chain of tests the server runs, and the
 lemmas compare the two.
 */
module Capabilities {
  import opened Prelude

  datatype Capability =
    | AccountView | AccountManage
    | ComputeView | ComputeOperate
    | EdsView | EdsOperate | EdsManage
    | BillingView | BillingSync

  /** The order in which permissions are stored and shown. */
  const SUPPORTED: seq<Capability> := [
    AccountView, AccountManage, ComputeView, ComputeOperate, EdsView, EdsOperate, EdsManage, BillingView, BillingSync]

  function Name(c: Capability): string {
    match c
    case AccountView => "account.view"
    case AccountManage => "account.manage"
    case ComputeView => "compute.view"
    case ComputeOperate => "compute.operate"
    case EdsView => "eds.view"
    case EdsOperate => "eds.operate"
    case EdsManage => "eds.manage"
    case BillingView => "billing.view"
    case BillingSync => "billing.sync"
  }

  function Position(c: Capability): (p: nat)
    ensures p < |SUPPORTED| && SUPPORTED[p] == c
  {
    match c
    case AccountView => 0
    case AccountManage => 1
    case ComputeView => 2
    case ComputeOperate => 3
    case EdsView => 4
    case EdsOperate => 5
    case EdsManage => 6
    case BillingView => 7
    case BillingSync => 8
  }

  predicate IsEds(c: Capability) {
    c in {EdsView, EdsOperate, EdsManage}
  }

  /** What holding a capability directly presupposes. */
  function Prerequisites(c: Capability): set<Capability> {
    match c
    case AccountManage => {AccountView}
    case ComputeView => {AccountView}
    case ComputeOperate => {ComputeView}
    case EdsView => {AccountView}
    case EdsOperate => {EdsView}
    case EdsManage => {EdsOperate}
    case _ => {}
  }

  predicate Closed(s: set<Capability>) {
    forall c :: c in s ==> Prerequisites(c) <= s
  }

  /** Everything a capability presupposes, itself included. */
  function Implied(c: Capability): set<Capability> {
    match c
    case AccountManage => {AccountManage, AccountView}
    case ComputeView => {ComputeView, AccountView}
    case ComputeOperate => {ComputeOperate, ComputeView, AccountView}
    case EdsView => {EdsView, AccountView}
    case EdsOperate => {EdsOperate, EdsView, AccountView}
    case EdsManage => {EdsManage, EdsOperate, EdsView, AccountView}
    case _ => {c}
  }

  function Completion(s: set<Capability>): set<Capability> {
    set c, d | d in s && c in Implied(d) :: c
  }

  /** `Implied(c)` is the least closed set that holds `c`. */
  lemma {:induction false} ImpliedIsLeast(c: Capability, t: set<Capability>)
    ensures c in Implied(c) && Closed(Implied(c))
    ensures Closed(t) && c in t ==> Implied(c) <= t
  {
    if Closed(t) && c in t {
      forall p | p in Prerequisites(c) ensures p in t && Prerequisites(p) <= t {
        assert p in t;
        forall q | q in Prerequisites(p) ensures q in t && Prerequisites(q) <= t {}
      }
    }
  }

  /** The completion is the least closed superset of what was asked for. */
  lemma CompletionIsLeastClosed(s: set<Capability>, t: set<Capability>)
    ensures s <= Completion(s) && Closed(Completion(s))
    ensures Closed(t) && s <= t ==> Completion(s) <= t
    ensures Closed(s) ==> Completion(s) == s
  {
    forall d ensures d in Implied(d) && Closed(Implied(d)) {
      ImpliedIsLeast(d, t);
    }
    forall c, p | c in Completion(s) && p in Prerequisites(c) ensures p in Completion(s) {
      var d :| d in s && c in Implied(d);
      assert p in Implied(d);
    }
    if Closed(t) && s <= t {
      forall d | d in s ensures Implied(d) <= t {
        ImpliedIsLeast(d, t);
      }
    }
    if Closed(s) {
      forall d | d in s ensures Implied(d) <= s {
        ImpliedIsLeast(d, s);
      }
    }
  }

  /** The capabilities of `s`, in the canonical order. */
  function InOrder(s: set<Capability>, from: nat): (r: seq<Capability>)
    requires from <= |SUPPORTED|
    ensures forall c :: c in r <==> c in s && from <= Position(c)
    ensures forall i, j :: 0 <= i < j < |r| ==> Position(r[i]) < Position(r[j])
    decreases |SUPPORTED| - from
  {
    if from == |SUPPORTED| then []
    else
      var rest := InOrder(s, from + 1);
      if SUPPORTED[from] in s then [SUPPORTED[from]] + rest else rest
  }

  /** A list in canonical order is determined by its elements. */
  lemma {:induction false} CanonicalListIsUnique(a: seq<Capability>, b: seq<Capability>)
    requires forall i, j :: 0 <= i < j < |a| ==> Position(a[i]) < Position(a[j])
    requires forall i, j :: 0 <= i < j < |b| ==> Position(b[i]) < Position(b[j])
    requires Elements(a) == Elements(b)
    ensures a == b
  {
    if a == [] {
      ElementsEmpty(b);
    } else {
      SameFirst(a, b);
      forall c ensures c in Elements(a[1..]) <==> c in Elements(b[1..]) {
        if c in a[1..] { assert c in Elements(a); assert c != a[0]; assert c in b; }
        if c in b[1..] { assert c in Elements(b); assert c != b[0]; assert c in a; }
      }
      CanonicalListIsUnique(a[1..], b[1..]);
      assert a == [a[0]] + a[1..] && b == [b[0]] + b[1..];
    }
  }

  lemma SameFirst(a: seq<Capability>, b: seq<Capability>)
    requires forall i, j :: 0 <= i < j < |a| ==> Position(a[i]) < Position(a[j])
    requires forall i, j :: 0 <= i < j < |b| ==> Position(b[i]) < Position(b[j])
    requires Elements(a) == Elements(b) && a != []
    ensures b != [] && a[0] == b[0]
  {
    assert a[0] in Elements(b) && b != [];
    assert b[0] in Elements(a);
    var i :| 0 <= i < |b| && b[i] == a[0];
    var j :| 0 <= j < |a| && a[j] == b[0];
    assert i == 0 && j == 0;
  }

  function Parse(name: string): Option<Capability> {
    if name == "account.view" then Some(AccountView)
    else if name == "account.manage" then Some(AccountManage)
    else if name == "compute.view" then Some(ComputeView)
    else if name == "compute.operate" then Some(ComputeOperate)
    else if name == "eds.view" then Some(EdsView)
    else if name == "eds.operate" then Some(EdsOperate)
    else if name == "eds.manage" then Some(EdsManage)
    else if name == "billing.view" then Some(BillingView)
    else if name == "billing.sync" then Some(BillingSync)
    else None
  }

  function Names(cs: seq<Capability>): (r: seq<string>)
    ensures |r| == |cs| && forall i :: 0 <= i < |cs| ==> r[i] == Name(cs[i])
  {
    seq(|cs|, i requires 0 <= i < |cs| => Name(cs[i]))
  }

  function Requested(values: seq<string>, normalize: string -> string): set<Capability> {
    set v | v in values && Parse(normalize(v)).Some? :: Parse(normalize(v)).value
  }

  /** What a permission list is stored as; None when it is refused. */
  function RolePermissions(values: seq<string>, normalize: string -> string): Option<seq<string>> {
    if values == [] || exists v :: v in values && Parse(normalize(v)).None? then None
    else Some(Names(InOrder(Completion(Requested(values, normalize)), 0)))
  }

  /** Reads the names of a permission list; `ok` is false at the first unsupported one. */
  method ReadPermissions(values: seq<string>, normalize: string -> string)
    returns (unique: set<Capability>, ok: bool)
    ensures ok == forall v :: v in values ==> Parse(normalize(v)).Some?
    ensures ok ==> unique == Requested(values, normalize)
  {
    unique := {};
    for i := 0 to |values|
      invariant forall k :: 0 <= k < i ==> Parse(normalize(values[k])).Some?
      invariant forall c :: c in unique <==> exists k :: 0 <= k < i && Parse(normalize(values[k])) == Some(c)
    {
      var parsed := Parse(normalize(values[i]));
      if parsed.None? {
        assert values[i] in values;
        return unique, false;
      }
      unique := unique + {parsed.value};
    }
    ok := true;
    assert unique == Requested(values, normalize);
  }

  /** What each member of a completion comes from. */
  lemma CompletionMembers(s: set<Capability>)
    ensures AccountManage in Completion(s) <==> AccountManage in s
    ensures ComputeOperate in Completion(s) <==> ComputeOperate in s
    ensures EdsManage in Completion(s) <==> EdsManage in s
    ensures BillingView in Completion(s) <==> BillingView in s
    ensures BillingSync in Completion(s) <==> BillingSync in s
    ensures ComputeView in Completion(s) <==> ComputeView in s || ComputeOperate in s
    ensures EdsOperate in Completion(s) <==> EdsOperate in s || EdsManage in s
    ensures EdsView in Completion(s) <==> EdsView in s || EdsOperate in s || EdsManage in s
    ensures AccountView in Completion(s) <==>
      || AccountView in s || AccountManage in s || ComputeView in s || ComputeOperate in s
      || EdsView in s || EdsOperate in s || EdsManage in s
  {
    forall c ensures c in Completion(s) <==> exists d :: d in s && c in Implied(d) {}
    assert AccountManage in s ==> AccountView in Implied(AccountManage);
    assert ComputeView in s ==> AccountView in Implied(ComputeView);
    assert ComputeOperate in s ==> AccountView in Implied(ComputeOperate);
    assert EdsView in s ==> AccountView in Implied(EdsView);
    assert EdsOperate in s ==> AccountView in Implied(EdsOperate);
    assert EdsManage in s ==> AccountView in Implied(EdsManage);
  }

  lemma SameMembers(s: set<Capability>, unique: set<Capability>)
    requires AccountManage in unique <==> AccountManage in s
    requires ComputeOperate in unique <==> ComputeOperate in s
    requires EdsManage in unique <==> EdsManage in s
    requires BillingView in unique <==> BillingView in s
    requires BillingSync in unique <==> BillingSync in s
    requires ComputeView in unique <==> ComputeView in s || ComputeOperate in s
    requires EdsOperate in unique <==> EdsOperate in s || EdsManage in s
    requires EdsView in unique <==> EdsView in s || EdsOperate in s || EdsManage in s
    requires AccountView in unique <==>
      || AccountView in s || AccountManage in s || ComputeView in s || ComputeOperate in s
      || EdsView in s || EdsOperate in s || EdsManage in s
    ensures unique == Completion(s)
  {
    CompletionMembers(s);
    forall c ensures c in unique <==> c in Completion(s) {
      match c
      case AccountView =>
      case AccountManage =>
      case ComputeView =>
      case ComputeOperate =>
      case EdsView =>
      case EdsOperate =>
      case EdsManage =>
      case BillingView =>
      case BillingSync =>
    }
  }

  /** Adds the missing prerequisites by the fixed chain of tests the server runs. */
  method AddPrerequisites(requested: set<Capability>) returns (unique: set<Capability>)
    ensures unique == Completion(requested)
  {
    unique := requested;
    if AccountManage in unique {
      unique := unique + {AccountView};
    }
    if ComputeView in unique || ComputeOperate in unique {
      unique := unique + {AccountView};
    }
    if ComputeOperate in unique {
      unique := unique + {ComputeView};
    }
    if EdsView in unique || EdsOperate in unique || EdsManage in unique {
      unique := unique + {AccountView, EdsView};
    }
    if EdsManage in unique {
      unique := unique + {EdsOperate};
    }
    SameMembers(requested, unique);
  }

  method ListPermissions(unique: set<Capability>) returns (permissions: seq<string>)
    ensures permissions == Names(InOrder(unique, 0))
  {
    ghost var kept: seq<Capability> := [];
    permissions := [];
    for i := 0 to |SUPPORTED|
      invariant kept + InOrder(unique, i) == InOrder(unique, 0)
      invariant permissions == Names(kept)
    {
      if SUPPORTED[i] in unique {
        kept := kept + [SUPPORTED[i]];
        permissions := permissions + [Name(SUPPORTED[i])];
      }
    }
  }

  /**
   Completes the permission list of a custom role. `normalize` stands for the trimming and
   lower-casing of each entry.
   */
  method ValidRolePermissions(values: seq<string>, normalize: string -> string)
    returns (permissions: seq<string>, ok: bool)
    ensures ok == RolePermissions(values, normalize).Some?
    ensures permissions == if ok then RolePermissions(values, normalize).value else []
  {
    var requested, known := ReadPermissions(values, normalize);
    if !known {
      return [], false;
    }
    var unique := AddPrerequisites(requested);
    permissions := ListPermissions(unique);
    ok := |permissions| > 0;
    NonEmptyWhenAsked(values, normalize);
  }

  lemma NonEmptyWhenAsked(values: seq<string>, normalize: string -> string)
    requires forall v :: v in values ==> Parse(normalize(v)).Some?
    ensures InOrder(Completion(Requested(values, normalize)), 0) == [] <==> values == []
  {
    var s := Requested(values, normalize);
    CompletionIsLeastClosed(s, s);
    if values != [] {
      var v := values[0];
      assert v in values;
      assert Parse(normalize(v)).value in s;
      assert Parse(normalize(v)).value in InOrder(Completion(s), 0);
    } else {
      assert s == {};
      assert Completion(s) == {};
      var r := InOrder(Completion(s), 0);
      assert forall c :: c !in r;
      assert Elements(r) == {};
      ElementsEmpty(r);
    }
  }

  /**
   An accepted list holds exactly the least prerequisite-closed superset of what was asked for,
   once each and in canonical order; a list is refused exactly when it is empty or names something
   unsupported.
   */
  lemma StoredPermissionsAreLeastClosure(values: seq<string>, normalize: string -> string)
    ensures RolePermissions(values, normalize).None? <==>
      (values == [] || exists v :: v in values && Parse(normalize(v)).None?)
    ensures RolePermissions(values, normalize).Some? ==>
      exists cs: seq<Capability> ::
        && RolePermissions(values, normalize).value == Names(cs)
        && (forall i, j :: 0 <= i < j < |cs| ==> Position(cs[i]) < Position(cs[j]))
        && Requested(values, normalize) <= Elements(cs)
        && Closed(Elements(cs))
        && (forall t :: Closed(t) && Requested(values, normalize) <= t ==> Elements(cs) <= t)
  {
    if RolePermissions(values, normalize).Some? {
      var s := Requested(values, normalize);
      var cs := InOrder(Completion(s), 0);
      assert Elements(cs) == Completion(s);
      CompletionIsLeastClosed(s, s);
      forall t | Closed(t) && s <= t ensures Elements(cs) <= t {
        CompletionIsLeastClosed(s, t);
      }
    }
  }

  /** Storing a stored list again changes nothing, when canonical names are already normal. */
  lemma CompletionIsIdempotent(values: seq<string>, normalize: string -> string)
    requires forall c :: normalize(Name(c)) == Name(c)
    requires RolePermissions(values, normalize).Some?
    ensures RolePermissions(RolePermissions(values, normalize).value, normalize) == RolePermissions(values, normalize)
  {
    var s := Completion(Requested(values, normalize));
    var cs := InOrder(s, 0);
    NonEmptyWhenAsked(values, normalize);
    CompletionIsLeastClosed(Requested(values, normalize), s);
    ClosedListIsStable(s, cs, normalize);
  }

  lemma ClosedListIsStable(s: set<Capability>, cs: seq<Capability>, normalize: string -> string)
    requires forall c :: normalize(Name(c)) == Name(c)
    requires Closed(s) && cs == InOrder(s, 0) && cs != []
    ensures RolePermissions(Names(cs), normalize) == Some(Names(cs))
  {
    NamesReadBack(cs, normalize);
    assert Elements(cs) == s;
    CompletionIsLeastClosed(s, s);
  }

  lemma NamesReadBack(cs: seq<Capability>, normalize: string -> string)
    requires forall c :: normalize(Name(c)) == Name(c)
    ensures forall v :: v in Names(cs) ==> Parse(normalize(v)).Some?
    ensures Requested(Names(cs), normalize) == Elements(cs)
  {
    forall c ensures Parse(normalize(Name(c))) == Some(c) {
      ParseOfName(c);
    }
    var stored := Names(cs);
    forall c ensures c in Requested(stored, normalize) <==> c in cs {
      if c in cs {
        var i :| 0 <= i < |cs| && cs[i] == c;
        assert stored[i] in stored && Parse(normalize(stored[i])) == Some(c);
      }
    }
  }

  lemma ParseOfName(c: Capability)
    ensures Parse(Name(c)) == Some(c)
  {
    match c
    case _ =>
  }
}
