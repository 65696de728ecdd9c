/** The account selection of a request: a comma-separated list checked against what the user may see. */
module Selection {
  import opened Prelude
  import opened Decimals
  import opened Capabilities
  import opened AccessPolicy

  datatype Outcome =
    | Selected(ids: seq<int>)
    | TooMany
    | InvalidSelection
    | AccessRequired
    | MixedProviders
    | Unavailable

  const MAX_PARTS := 100

  /** The list parameter, or the single-account parameter when the list is blank. */
  function RawSelection(accountIDs: string, accountID: string, trim: string -> string): string {
    if trim(accountIDs) != "" then trim(accountIDs) else trim(accountID)
  }

  /** A part that denotes an account id. */
  function IdOf(part: string, trim: string -> string): Option<int> {
    match ParseInt64(trim(part))
    case Some(id) => if id < 1 then None else Some(id)
    case None => None
  }

  predicate Acceptable(part: string, trim: string -> string, allowed: seq<int>) {
    IdOf(part, trim).Some? && IdOf(part, trim).value in allowed
  }

  function Ids(parts: seq<string>, trim: string -> string): (r: seq<int>)
    requires forall i :: 0 <= i < |parts| ==> IdOf(parts[i], trim).Some?
    ensures |r| == |parts| && forall i :: 0 <= i < |parts| ==> r[i] == IdOf(parts[i], trim).value
  {
    seq(|parts|, i requires 0 <= i < |parts| => IdOf(parts[i], trim).value)
  }

  /** Each value of `s` at its first occurrence. */
  function FirstOccurrences(s: seq<int>): (r: seq<int>)
    ensures forall x :: x in r <==> x in s
  {
    if s == [] then []
    else
      var init, last := s[..|s| - 1], s[|s| - 1];
      assert s == init + [last];
      if last in init then FirstOccurrences(init) else FirstOccurrences(init) + [last]
  }

  function Providers(ids: seq<int>, accounts: map<int, Account>, workspace: int): set<string> {
    set id | id in ids && id in accounts && accounts[id].workspace == workspace :: accounts[id].provider
  }

  /** What the first offending part of a selection is refused with. */
  function FirstRefusal(parts: seq<string>, trim: string -> string, allowed: seq<int>): (r: Option<Outcome>)
    ensures r.None? <==> forall i :: 0 <= i < |parts| ==> Acceptable(parts[i], trim, allowed)
    ensures r.Some? ==> r.value == InvalidSelection || r.value == AccessRequired
  {
    if parts == [] then None
    else if IdOf(parts[0], trim).None? then Some(InvalidSelection)
    else if IdOf(parts[0], trim).value !in allowed then Some(AccessRequired)
    else
      assert forall i :: 0 <= i < |parts[1..]| ==> parts[1..][i] == parts[i + 1];
      FirstRefusal(parts[1..], trim, allowed)
  }

  /** The outcome of a selection, part by part. */
  function Judge(parts: seq<string>, trim: string -> string, allowed: seq<int>, accounts: map<int, Account>,
      workspace: int): Outcome {
    if |parts| > MAX_PARTS then TooMany
    else match FirstRefusal(parts, trim, allowed)
      case Some(refusal) => refusal
      case None =>
        assert forall i :: 0 <= i < |parts| ==> Acceptable(parts[i], trim, allowed);
        var ids := FirstOccurrences(Ids(parts, trim));
        if |Providers(ids, accounts, workspace)| == 1 then Selected(ids) else MixedProviders
  }

  /** What is answered when the query that counts the providers works, or when it does not. */
  function Answer(judged: Outcome, counts: bool): Outcome {
    if !counts && (judged.Selected? || judged.MixedProviders?) then Unavailable else judged
  }

  /** Value number `i` of `r` is the first of its kind in `s`, at position `at[i]`. */
  ghost predicate FirstAt(s: seq<int>, r: seq<int>, at: seq<int>, i: int)
    requires |at| == |r| && 0 <= i < |r|
  {
    0 <= at[i] < |s| && s[at[i]] == r[i] && r[i] !in s[..at[i]]
  }

  /** First occurrences are distinct and stand in the order of their positions. */
  lemma {:induction false} FirstOccurrencesInOrder(s: seq<int>) returns (at: seq<int>)
    ensures Distinct(FirstOccurrences(s))
    ensures |at| == |FirstOccurrences(s)| && StrictlyAscending(at)
    ensures forall i :: 0 <= i < |at| ==> FirstAt(s, FirstOccurrences(s), at, i)
  {
    if s == [] {
      at := [];
    } else {
      var init, last := s[..|s| - 1], s[|s| - 1];
      var kept := FirstOccurrences(init);
      var at' := FirstOccurrencesInOrder(init);
      forall i | 0 <= i < |at'| ensures FirstAt(s, kept, at', i) && at'[i] < |init| {
        assert FirstAt(init, kept, at', i);
        assert init[..at'[i]] == s[..at'[i]];
      }
      at := at';
      if last !in init {
        assert FirstOccurrences(s) == kept + [last];
        at := at' + [|init|];
        forall i | 0 <= i < |at| ensures FirstAt(s, kept + [last], at, i) {
          if i < |at'| {
            assert FirstAt(s, kept, at', i);
          }
        }
        assert forall i :: 0 <= i < |kept| ==> kept[i] in kept;
      }
    }
  }

  lemma NextOccurrence(parts: seq<string>, i: nat, trim: string -> string)
    requires i < |parts| && forall k :: 0 <= k <= i ==> IdOf(parts[k], trim).Some?
    ensures var before := FirstOccurrences(Ids(parts[..i], trim));
      var id := IdOf(parts[i], trim).value;
      FirstOccurrences(Ids(parts[..i + 1], trim)) == if id in before then before else before + [id]
  {
    var before := Ids(parts[..i], trim);
    var after := Ids(parts[..i + 1], trim);
    assert after == before + [IdOf(parts[i], trim).value];
    assert after[..|after| - 1] == before;
  }

  /** The first `i` parts are accepted, their distinct ids are `selected`, and the rest decides. */
  ghost predicate ReadSoFar(parts: seq<string>, i: nat, trim: string -> string, allowed: seq<int>, selected: seq<int>) {
    && i <= |parts| && (forall k :: 0 <= k < i ==> Acceptable(parts[k], trim, allowed))
    && FirstRefusal(parts, trim, allowed) == FirstRefusal(parts[i..], trim, allowed)
    && selected == FirstOccurrences(Ids(parts[..i], trim))
  }

  lemma ReadNothing(parts: seq<string>, trim: string -> string, allowed: seq<int>)
    ensures ReadSoFar(parts, 0, trim, allowed, [])
  {
    assert parts[0..] == parts;
  }

  lemma ReadNext(parts: seq<string>, i: nat, trim: string -> string, allowed: seq<int>, selected: seq<int>)
    requires ReadSoFar(parts, i, trim, allowed, selected) && i < |parts| && Acceptable(parts[i], trim, allowed)
    ensures var id := IdOf(parts[i], trim).value;
      ReadSoFar(parts, i + 1, trim, allowed, if id in selected then selected else selected + [id])
  {
    assert parts[i..][1..] == parts[i + 1..];
    NextOccurrence(parts, i, trim);
  }

  lemma ReadRefused(parts: seq<string>, i: nat, trim: string -> string, allowed: seq<int>, selected: seq<int>)
    requires ReadSoFar(parts, i, trim, allowed, selected) && i < |parts| && !Acceptable(parts[i], trim, allowed)
    ensures FirstRefusal(parts, trim, allowed) ==
      Some(if IdOf(parts[i], trim).None? then InvalidSelection else AccessRequired)
  {
  }

  lemma ReadEverything(parts: seq<string>, trim: string -> string, allowed: seq<int>, selected: seq<int>)
    requires ReadSoFar(parts, |parts|, trim, allowed, selected)
    ensures FirstRefusal(parts, trim, allowed).None? && selected == FirstOccurrences(Ids(parts, trim))
  {
    assert parts[..|parts|] == parts;
  }

  /** The loop over the parts: the first refusal, or the distinct ids. */
  method SelectParts(parts: seq<string>, trim: string -> string, allowed: seq<int>)
    returns (refusal: Option<Outcome>, selected: seq<int>)
    ensures refusal == FirstRefusal(parts, trim, allowed)
    ensures refusal.None? ==>
      (forall k :: 0 <= k < |parts| ==> Acceptable(parts[k], trim, allowed))
        && selected == FirstOccurrences(Ids(parts, trim))
  {
    selected := [];
    var seen: set<int> := {};
    ReadNothing(parts, trim, allowed);
    for i := 0 to |parts|
      invariant ReadSoFar(parts, i, trim, allowed, selected)
      invariant forall x :: x in seen <==> x in selected
    {
      var id := IdOf(parts[i], trim);
      if id.None? || id.value !in allowed {
        ReadRefused(parts, i, trim, allowed, selected);
      }
      if id.None? {
        return Some(InvalidSelection), [];
      }
      if id.value !in allowed {
        return Some(AccessRequired), [];
      }
      ReadNext(parts, i, trim, allowed, selected);
      if id.value !in seen {
        selected := selected + [id.value];
        seen := seen + {id.value};
      }
    }
    ReadEverything(parts, trim, allowed, selected);
    refusal := None;
  }

  /**
   Reads a selection. The empty one means every allowed account; any other is accepted exactly when
   it has at most a hundred parts, each an allowed id, all of one provider, and the query that counts
   the providers works.
   */
  method RequestedAccountIDs(
    accountIDs: string, accountID: string, trim: string -> string,
    allowed: seq<int>, accounts: map<int, Account>, workspace: int, counts: bool) returns (outcome: Outcome)
    ensures var raw := RawSelection(accountIDs, accountID, trim);
      outcome ==
        if raw == "" then Selected(allowed)
        else Answer(Judge(Split(raw, ','), trim, allowed, accounts, workspace), counts)
  {
    var raw := trim(accountIDs);
    if raw == "" {
      raw := trim(accountID);
    }
    if raw == "" {
      return Selected(allowed);
    }
    var parts := Split(raw, ',');
    if |parts| > MAX_PARTS {
      return TooMany;
    }
    var refusal, selected := SelectParts(parts, trim, allowed);
    if refusal.Some? {
      return refusal.value;
    }
    if !counts {
      return Unavailable;
    }
    if |Providers(selected, accounts, workspace)| != 1 {
      return MixedProviders;
    }
    outcome := Selected(selected);
  }

  /**
   How the handlers combine the two: whatever they go on with is duplicate-free and every id passes
   the point check; the empty selection is every such id, and an explicit one is of one provider.
   */
  method SelectAccounts(
    accountIDs: string, accountID: string, trim: string -> string,
    dir: Directory, rows: Assignments, u: User, c: Capability, counts: bool) returns (outcome: Outcome)
    ensures outcome.Selected? ==> Distinct(outcome.ids)
    ensures outcome.Selected? ==> forall id :: id in outcome.ids ==> CanAccount(dir, rows, u, id, c)
    ensures RawSelection(accountIDs, accountID, trim) == "" ==>
      outcome.Selected? && forall id :: CanAccount(dir, rows, u, id, c) ==> id in outcome.ids
    ensures outcome.Selected? && RawSelection(accountIDs, accountID, trim) != "" ==>
      forall id, other :: id in outcome.ids && other in outcome.ids ==>
        id in dir.accounts && other in dir.accounts && dir.accounts[id].provider == dir.accounts[other].provider
  {
    var allowed := AccessibleAccountIDs(dir, rows, u, c);
    outcome := RequestedAccountIDs(accountIDs, accountID, trim, allowed, dir.accounts, u.workspace, counts);
    if outcome.Selected? && RawSelection(accountIDs, accountID, trim) != "" {
      ExplicitSelection(Split(RawSelection(accountIDs, accountID, trim), ','), trim, allowed, dir.accounts,
        u.workspace);
    }
  }

  /** The part reads as a positive 64-bit number. */
  predicate IsId(part: string, trim: string -> string) {
    ParseInt64(trim(part)).Some? && ParseInt64(trim(part)).value > 0
  }

  predicate IsAllowedId(part: string, trim: string -> string, allowed: seq<int>) {
    IsId(part, trim) && ParseInt64(trim(part)).value in allowed
  }

  /** Part `i` is the first that is not an allowed id. */
  predicate IsFirstOffender(parts: seq<string>, i: nat, trim: string -> string, allowed: seq<int>) {
    && i < |parts| && !IsAllowedId(parts[i], trim, allowed)
    && forall j :: 0 <= j < i ==> IsAllowedId(parts[j], trim, allowed)
  }

  lemma {:induction false} RefusalIsTheFirstOffenders(parts: seq<string>, i: nat, trim: string -> string,
      allowed: seq<int>)
    requires IsFirstOffender(parts, i, trim, allowed)
    ensures FirstRefusal(parts, trim, allowed) ==
      Some(if IsId(parts[i], trim) then AccessRequired else InvalidSelection)
    decreases |parts|
  {
    if i > 0 {
      assert IsAllowedId(parts[0], trim, allowed);
      RefusalIsTheFirstOffenders(parts[1..], i - 1, trim, allowed);
    }
  }

  /** Which selections are refused, and as what. */
  lemma RefusedAs(parts: seq<string>, i: nat, trim: string -> string, allowed: seq<int>, accounts: map<int, Account>,
      workspace: int)
    ensures |parts| > 100 <==> Judge(parts, trim, allowed, accounts, workspace) == TooMany
    ensures |parts| <= 100 && IsFirstOffender(parts, i, trim, allowed) ==>
      Judge(parts, trim, allowed, accounts, workspace) ==
        if IsId(parts[i], trim) then AccessRequired else InvalidSelection
  {
    if IsFirstOffender(parts, i, trim, allowed) {
      RefusalIsTheFirstOffenders(parts, i, trim, allowed);
    }
  }

  /**
   Every other selection is accepted exactly when its accounts are of one provider, and then as the ids
   it names, all of them and no others.
   */
  lemma AcceptedIff(parts: seq<string>, trim: string -> string, allowed: seq<int>, accounts: map<int, Account>,
      workspace: int, id: int)
    requires |parts| <= 100 && forall i :: 0 <= i < |parts| ==> IsAllowedId(parts[i], trim, allowed)
    ensures var judged := Judge(parts, trim, allowed, accounts, workspace);
      && (judged == MixedProviders || judged.Selected?)
      && (judged.Selected? ==>
            (id in judged.ids <==> exists i :: 0 <= i < |parts| && ParseInt64(trim(parts[i])) == Some(id)))
      && (judged.Selected? <==>
            |set i | 0 <= i < |parts| && InWorkspace(parts[i], trim, accounts, workspace)
                :: accounts[ParseInt64(trim(parts[i])).value].provider| == 1)
  {
    forall i | 0 <= i < |parts| ensures Acceptable(parts[i], trim, allowed) {
      assert IsAllowedId(parts[i], trim, allowed);
    }
    var asked := Ids(parts, trim);
    forall x ensures x in asked <==> exists i :: 0 <= i < |parts| && ParseInt64(trim(parts[i])) == Some(x) {
      if x in asked {
        var i :| 0 <= i < |asked| && asked[i] == x;
        assert ParseInt64(trim(parts[i])) == Some(x);
      }
      if i :| 0 <= i < |parts| && ParseInt64(trim(parts[i])) == Some(x) {
        assert asked[i] == x;
      }
    }
    SameProviders(parts, trim, accounts, workspace);
  }

  predicate InWorkspace(part: string, trim: string -> string, accounts: map<int, Account>, workspace: int) {
    && ParseInt64(trim(part)).Some? && ParseInt64(trim(part)).value in accounts
    && accounts[ParseInt64(trim(part)).value].workspace == workspace
  }

  lemma SameProviders(parts: seq<string>, trim: string -> string, accounts: map<int, Account>, workspace: int)
    requires forall i :: 0 <= i < |parts| ==> IdOf(parts[i], trim).Some?
    ensures Providers(FirstOccurrences(Ids(parts, trim)), accounts, workspace) ==
      set i | 0 <= i < |parts| && InWorkspace(parts[i], trim, accounts, workspace)
        :: accounts[ParseInt64(trim(parts[i])).value].provider
  {
    var asked := Ids(parts, trim);
    var direct := set i | 0 <= i < |parts| && InWorkspace(parts[i], trim, accounts, workspace)
        :: accounts[ParseInt64(trim(parts[i])).value].provider;
    forall p | p in Providers(FirstOccurrences(asked), accounts, workspace) ensures p in direct {
      var id :| id in FirstOccurrences(asked) && id in accounts && accounts[id].workspace == workspace
        && accounts[id].provider == p;
      assert id in asked;
      var i :| 0 <= i < |asked| && asked[i] == id;
      assert InWorkspace(parts[i], trim, accounts, workspace);
    }
    forall p | p in direct ensures p in Providers(FirstOccurrences(asked), accounts, workspace) {
      var i :| 0 <= i < |parts| && InWorkspace(parts[i], trim, accounts, workspace)
        && accounts[ParseInt64(trim(parts[i])).value].provider == p;
      assert asked[i] in FirstOccurrences(asked);
    }
  }

  /** An accepted explicit selection: distinct, allowed, and of one provider. */
  lemma ExplicitSelection(parts: seq<string>, trim: string -> string, allowed: seq<int>, accounts: map<int, Account>,
      workspace: int)
    requires Judge(parts, trim, allowed, accounts, workspace).Selected?
    requires forall id :: id in allowed ==> id in accounts && accounts[id].workspace == workspace
    ensures var ids := Judge(parts, trim, allowed, accounts, workspace).ids;
      && Distinct(ids)
      && (forall id :: id in ids ==> id in allowed)
      && (forall id, other :: id in ids && other in ids ==> accounts[id].provider == accounts[other].provider)
  {
    var ids := Judge(parts, trim, allowed, accounts, workspace).ids;
    assert forall i :: 0 <= i < |parts| ==> Acceptable(parts[i], trim, allowed);
    var asked := Ids(parts, trim);
    var at := FirstOccurrencesInOrder(asked);
    forall id | id in ids ensures id in allowed {
      assert id in asked;
      var i :| 0 <= i < |asked| && asked[i] == id;
      assert Acceptable(parts[i], trim, allowed);
    }
    OneProvider(ids, accounts, workspace);
  }

  lemma OneProvider(ids: seq<int>, accounts: map<int, Account>, workspace: int)
    requires |Providers(ids, accounts, workspace)| == 1
    requires forall id :: id in ids ==> id in accounts && accounts[id].workspace == workspace
    ensures forall id, other :: id in ids && other in ids ==> accounts[id].provider == accounts[other].provider
  {
    var all := Providers(ids, accounts, workspace);
    forall id, other | id in ids && other in ids ensures accounts[id].provider == accounts[other].provider {
      var p, q := accounts[id].provider, accounts[other].provider;
      assert p in all && q in all;
      assert |all - {p}| == 0;
      assert q !in all - {p};
    }
  }
}
