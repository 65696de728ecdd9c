/**
 The Redis key that names what a live inventory refresh covers. Two requests are coalesced when
 their keys are equal, so the key must depend on the selection alone and separate any two.
 */
module ScopeKeys {
  import opened Prelude
  import opened Decimals

  const PREFIX := "inventory:scope:"

  predicate Sorted(s: seq<int>) {
    forall i, j :: 0 <= i < j < |s| ==> s[i] <= s[j]
  }

  function Printed(ids: seq<int>): (parts: seq<string>)
    ensures |parts| == |ids| && forall i :: 0 <= i < |ids| ==> parts[i] == FormatInt(ids[i])
  {
    seq(|ids|, i requires 0 <= i < |ids| => FormatInt(ids[i]))
  }

  /** The key of a selection already in ascending order. */
  function KeyOfSorted(workspace: int, ids: seq<int>): string {
    PREFIX + FormatInt(workspace) + ":" + Join(Printed(ids), ',')
  }

  /** A key is one for workspace and selection when it is printed from some sorting of the selection. */
  ghost predicate IsScopeKey(key: string, workspace: int, ids: seq<int>) {
    exists sorted: seq<int> ::
      Sorted(sorted) && multiset(sorted) == multiset(ids) && key == KeyOfSorted(workspace, sorted)
  }

  /** Sorts a copy, prints each id into its slot and joins the slots. */
  method RefreshScopeKey(workspace: int, accountIDs: seq<int>) returns (key: string)
    ensures IsScopeKey(key, workspace, accountIDs)
  {
    var ids := new int[|accountIDs|](i requires 0 <= i < |accountIDs| => accountIDs[i]);
    assert ids[..] == accountIDs;
    SortInPlace(ids);
    var parts := PrintEach(ids);
    key := PREFIX + FormatInt(workspace) + ":" + Join(parts, ',');
    assert key == KeyOfSorted(workspace, ids[..]);
  }

  method PrintEach(ids: array<int>) returns (parts: seq<string>)
    ensures parts == Printed(ids[..])
  {
    var slots := new string[ids.Length];
    for index := 0 to ids.Length
      invariant forall k :: 0 <= k < index ==> slots[k] == FormatInt(ids[k])
    {
      slots[index] := FormatInt(ids[index]);
    }
    parts := slots[..];
  }

  /** Stands for the library sort. */
  method SortInPlace(a: array<int>)
    modifies a
    ensures Sorted(a[..]) && multiset(a[..]) == multiset(old(a[..]))
  {
    for n := 0 to a.Length
      invariant Sorted(a[..n]) && multiset(a[..]) == multiset(old(a[..]))
    {
      SinkInto(a, n);
    }
    assert a[..a.Length] == a[..];
  }

  /** Moves element `n` down to its place among the sorted ones before it. */
  method SinkInto(a: array<int>, n: nat)
    requires n < a.Length && Sorted(a[..n])
    modifies a
    ensures Sorted(a[..n + 1]) && multiset(a[..]) == multiset(old(a[..]))
  {
    var i := n;
    assert forall j, k :: 0 <= j < k < n ==> a[..n][j] <= a[..n][k];
    while i > 0 && a[i - 1] > a[i]
      invariant 0 <= i <= n
      invariant forall j, k :: 0 <= j < k <= n && k != i ==> a[j] <= a[k]
      invariant multiset(a[..]) == multiset(old(a[..]))
    {
      a[i - 1], a[i] := a[i], a[i - 1];
      i := i - 1;
    }
  }

  lemma SmallestFirst(s: seq<int>, x: int)
    requires Sorted(s) && x in multiset(s)
    ensures s[0] <= x
  {
    assert x in s;
  }

  lemma HeadAndTail(s: seq<int>)
    requires s != []
    ensures s[0] in multiset(s) && multiset(s[1..]) == multiset(s) - multiset{s[0]}
  {
    assert s == [s[0]] + s[1..];
  }

  lemma {:induction false} SortedIsUnique(a: seq<int>, b: seq<int>)
    requires Sorted(a) && Sorted(b) && multiset(a) == multiset(b)
    ensures a == b
  {
    assert |a| == |multiset(a)| && |b| == |multiset(b)|;
    if a != [] {
      SameHead(a, b);
      SameTail(a, b);
      SortedIsUnique(a[1..], b[1..]);
      assert a == [a[0]] + a[1..] && b == [b[0]] + b[1..];
    }
  }

  lemma SameTail(a: seq<int>, b: seq<int>)
    requires Sorted(a) && Sorted(b) && multiset(a) == multiset(b)
    requires a != [] && b != [] && a[0] == b[0]
    ensures Sorted(a[1..]) && Sorted(b[1..]) && multiset(a[1..]) == multiset(b[1..])
  {
    HeadAndTail(a);
    HeadAndTail(b);
  }

  lemma SameHead(a: seq<int>, b: seq<int>)
    requires Sorted(a) && Sorted(b) && multiset(a) == multiset(b)
    requires a != [] && b != []
    ensures a[0] == b[0]
  {
    assert b[0] in multiset(b) && a[0] in multiset(a);
    SmallestFirst(a, b[0]);
    SmallestFirst(b, a[0]);
  }

  lemma {:induction false} DistinctMultisets(a: seq<int>, b: seq<int>)
    requires Distinct(a) && Distinct(b)
    ensures multiset(a) == multiset(b) <==> Elements(a) == Elements(b)
  {
    forall x ensures multiset(a)[x] == if x in a then 1 else 0 { CountInDistinct(a, x); }
    forall x ensures multiset(b)[x] == if x in b then 1 else 0 { CountInDistinct(b, x); }
    if multiset(a) == multiset(b) {
      assert forall x :: x in a <==> x in multiset(a);
      assert forall x :: x in b <==> x in multiset(b);
    } else if Elements(a) == Elements(b) {
      assert forall x :: x in a <==> x in Elements(b);
      assert forall x :: multiset(a)[x] == multiset(b)[x];
    }
  }

  lemma {:induction false} CountInDistinct(s: seq<int>, x: int)
    requires Distinct(s)
    ensures multiset(s)[x] == if x in s then 1 else 0
  {
    if s != [] {
      CountInDistinct(s[1..], x);
      assert s == [s[0]] + s[1..];
      assert s[0] !in s[1..];
    }
  }

  /** Where the part of a key before its list of ids ends is fixed, so the two parts can be told apart. */
  lemma {:induction false} HeadIsUnique(a: string, b: string, s: string, t: string)
    requires ':' !in a && ':' !in b
    requires a + ":" + s == b + ":" + t
    ensures a == b && s == t
  {
    SplitPrefix(a, s, ':');
    SplitPrefix(b, t, ':');
    assert a + ":" + s == a + [':'] + s && b + ":" + t == b + [':'] + t;
    assert Split(a + ":" + s, ':')[0] == a && Split(b + ":" + t, ':')[0] == b;
    assert (a + ":" + s)[|a| + 1..] == s && (b + ":" + t)[|b| + 1..] == t;
  }

  lemma PrintedIsInjective(a: seq<int>, b: seq<int>)
    requires Join(Printed(a), ',') == Join(Printed(b), ',')
    ensures a == b
  {
    PrintedHasNoComma(a);
    PrintedHasNoComma(b);
    if a == [] || b == [] {
      JoinIsEmpty(Printed(a));
      JoinIsEmpty(Printed(b));
    } else {
      SplitOfJoin(Printed(a), ',');
      SplitOfJoin(Printed(b), ',');
      forall i | 0 <= i < |a| ensures a[i] == b[i] {
        assert Printed(a)[i] == Printed(b)[i];
        FormatIntIsInjective(a[i], b[i]);
      }
    }
  }

  lemma PrintedHasNoComma(ids: seq<int>)
    ensures forall p :: p in Printed(ids) ==> ',' !in p && p != ""
  {
    forall i | 0 <= i < |ids| ensures ',' !in Printed(ids)[i] && Printed(ids)[i] != "" {
      FormatHasNoSeparator(ids[i], ',');
    }
  }

  lemma JoinIsEmpty(parts: seq<string>)
    requires forall p :: p in parts ==> p != ""
    ensures Join(parts, ',') == "" <==> parts == []
  {
    if parts != [] {
      assert parts[0] in parts;
    }
  }

  lemma SamePrefix(prefix: string, s: string, t: string)
    requires prefix + s == prefix + t
    ensures s == t
  {
    assert (prefix + s)[|prefix|..] == s && (prefix + t)[|prefix|..] == t;
  }

  /** What follows the prefix of a key. */
  function KeyTail(workspace: int, s: seq<int>): string {
    FormatInt(workspace) + ":" + Join(Printed(s), ',')
  }

  lemma KeyTailIsInjective(workspace1: int, s1: seq<int>, workspace2: int, s2: seq<int>)
    requires KeyTail(workspace1, s1) == KeyTail(workspace2, s2)
    ensures workspace1 == workspace2 && s1 == s2
  {
    FormatHasNoSeparator(workspace1, ':');
    FormatHasNoSeparator(workspace2, ':');
    HeadIsUnique(FormatInt(workspace1), FormatInt(workspace2), Join(Printed(s1), ','), Join(Printed(s2), ','));
    FormatIntIsInjective(workspace1, workspace2);
    PrintedIsInjective(s1, s2);
  }

  lemma KeyIsPrefixAndTail(workspace: int, s: seq<int>)
    ensures KeyOfSorted(workspace, s) == PREFIX + KeyTail(workspace, s)
  {
  }

  lemma KeyOfSortedIsInjective(workspace1: int, s1: seq<int>, workspace2: int, s2: seq<int>)
    ensures KeyOfSorted(workspace1, s1) == KeyOfSorted(workspace2, s2) ==> workspace1 == workspace2 && s1 == s2
  {
    if KeyOfSorted(workspace1, s1) == KeyOfSorted(workspace2, s2) {
      KeyIsPrefixAndTail(workspace1, s1);
      KeyIsPrefixAndTail(workspace2, s2);
      SamePrefix(PREFIX, KeyTail(workspace1, s1), KeyTail(workspace2, s2));
      KeyTailIsInjective(workspace1, s1, workspace2, s2);
    }
  }

  /**
   Scope keys are canonical and injective: two keys are equal exactly when the workspaces are equal
   and the selections hold the same ids equally often.
   */
  lemma ScopeKeysAreCanonical(key1: string, workspace1: int, ids1: seq<int>, key2: string, workspace2: int,
      ids2: seq<int>)
    requires IsScopeKey(key1, workspace1, ids1) && IsScopeKey(key2, workspace2, ids2)
    ensures key1 == key2 <==> workspace1 == workspace2 && multiset(ids1) == multiset(ids2)
  {
    var s1: seq<int> :| Sorted(s1) && multiset(s1) == multiset(ids1) && key1 == KeyOfSorted(workspace1, s1);
    var s2: seq<int> :| Sorted(s2) && multiset(s2) == multiset(ids2) && key2 == KeyOfSorted(workspace2, s2);
    KeyOfSortedIsInjective(workspace1, s1, workspace2, s2);
    if workspace1 == workspace2 && multiset(ids1) == multiset(ids2) {
      SortedIsUnique(s1, s2);
    }
  }

  /** For the duplicate-free selections the server makes, that is equality of workspace and id set. */
  lemma DistinctSelectionsShareAKeyIff(key1: string, workspace1: int, ids1: seq<int>, key2: string, workspace2: int,
      ids2: seq<int>)
    requires IsScopeKey(key1, workspace1, ids1) && IsScopeKey(key2, workspace2, ids2)
    requires Distinct(ids1) && Distinct(ids2)
    ensures key1 == key2 <==> workspace1 == workspace2 && Elements(ids1) == Elements(ids2)
  {
    ScopeKeysAreCanonical(key1, workspace1, ids1, key2, workspace2, ids2);
    DistinctMultisets(ids1, ids2);
  }
}
