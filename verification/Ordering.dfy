/** The order of strings, and sorting by a pair of them. */
module Ordering {
  /** `a` does not come after `b`. */
  predicate AtMost(a: string, b: string) {
    a == [] || (b != [] && (a[0] < b[0] || (a[0] == b[0] && AtMost(a[1..], b[1..]))))
  }

  lemma {:induction false} AtMostIsTotal(a: string, b: string)
    ensures AtMost(a, b) || AtMost(b, a)
  {
    if a != [] && b != [] {
      AtMostIsTotal(a[1..], b[1..]);
    }
  }

  lemma {:induction false} AtMostIsAntisymmetric(a: string, b: string)
    requires AtMost(a, b) && AtMost(b, a)
    ensures a == b
  {
    if a != [] {
      AtMostIsAntisymmetric(a[1..], b[1..]);
      assert a == [a[0]] + a[1..] && b == [b[0]] + b[1..];
    }
  }

  lemma {:induction false} AtMostIsTransitive(a: string, b: string, c: string)
    requires AtMost(a, b) && AtMost(b, c)
    ensures AtMost(a, c)
  {
    if a != [] && a[0] == b[0] == c[0] {
      AtMostIsTransitive(a[1..], b[1..], c[1..]);
    }
  }

  /** What a list is sorted by. */
  datatype Key = Key(major: string, minor: string)

  predicate Precedes(a: Key, b: Key) {
    if a.major == b.major then AtMost(a.minor, b.minor) else AtMost(a.major, b.major)
  }

  lemma KeysAreOrdered(a: Key, b: Key, c: Key)
    ensures Precedes(a, b) || Precedes(b, a)
    ensures Precedes(a, b) && Precedes(b, a) ==> a == b
    ensures Precedes(a, b) && Precedes(b, c) ==> Precedes(a, c)
  {
    AtMostIsTotal(a.major, b.major);
    AtMostIsTotal(a.minor, b.minor);
    if Precedes(a, b) && Precedes(b, a) {
      if a.major == b.major {
        AtMostIsAntisymmetric(a.minor, b.minor);
      } else {
        AtMostIsAntisymmetric(a.major, b.major);
      }
    }
    if Precedes(a, b) && Precedes(b, c) {
      PrecedesIsTransitive(a, b, c);
    }
  }

  lemma PrecedesIsTransitive(a: Key, b: Key, c: Key)
    requires Precedes(a, b) && Precedes(b, c)
    ensures Precedes(a, c)
  {
    if a.major == b.major == c.major {
      AtMostIsTransitive(a.minor, b.minor, c.minor);
    } else if a.major != b.major && b.major != c.major {
      AtMostIsTransitive(a.major, b.major, c.major);
      if a.major == c.major {
        AtMostIsAntisymmetric(a.major, b.major);
      }
    }
  }

  predicate InOrder<T>(s: seq<T>, key: T -> Key) {
    forall i, j :: 0 <= i < j < |s| ==> Precedes(key(s[i]), key(s[j]))
  }

  /** The library sort: some permutation in order; elements with one key stand in any order. */
  method Sort<T>(s: seq<T>, key: T -> Key) returns (r: seq<T>)
    ensures multiset(r) == multiset(s) && InOrder(r, key)
  {
    r := [];
    for i := 0 to |s|
      invariant multiset(r) == multiset(s[..i]) && InOrder(r, key)
    {
      assert s[..i + 1] == s[..i] + [s[i]];
      r := Place(r, s[i], key);
    }
    assert s[..|s|] == s;
  }

  predicate AllFollow<T>(s: seq<T>, i: int, x: T, key: T -> Key) {
    forall j :: 0 <= j < |s| && i <= j ==> Precedes(key(x), key(s[j]))
  }

  lemma PlacedInOrder<T>(s: seq<T>, i: nat, x: T, key: T -> Key)
    requires InOrder(s, key) && i <= |s| && (i > 0 ==> Precedes(key(s[i - 1]), key(x)))
    requires AllFollow(s, i, x, key)
    ensures InOrder(s[..i] + [x] + s[i..], key)
  {
    forall j | 0 <= j < i ensures Precedes(key(s[j]), key(x)) {
      KeysAreOrdered(key(s[j]), key(s[i - 1]), key(x));
    }
  }

  lemma PlacedElements<T>(s: seq<T>, i: nat, x: T)
    requires i <= |s|
    ensures multiset(s[..i] + [x] + s[i..]) == multiset(s + [x])
  {
    assert s == s[..i] + s[i..];
  }

  method Place<T>(s: seq<T>, x: T, key: T -> Key) returns (r: seq<T>)
    requires InOrder(s, key)
    ensures multiset(r) == multiset(s + [x]) && InOrder(r, key)
  {
    var i := |s|;
    while i > 0 && !Precedes(key(s[i - 1]), key(x))
      invariant 0 <= i <= |s|
      invariant AllFollow(s, i, x, key)
    {
      KeysAreOrdered(key(x), key(s[i - 1]), key(x));
      i := i - 1;
    }
    PlacedInOrder(s, i, x, key);
    PlacedElements(s, i, x);
    r := s[..i] + [x] + s[i..];
  }

  function Keys<T>(s: seq<T>, key: T -> Key): (r: seq<Key>)
    ensures |r| == |s| && forall i :: 0 <= i < |s| ==> r[i] == key(s[i])
  {
    seq(|s|, i requires 0 <= i < |s| => key(s[i]))
  }

  lemma KeysOfParts<T>(a: seq<T>, x: T, b: seq<T>, key: T -> Key)
    ensures multiset(Keys(a + [x] + b, key)) == multiset(Keys(a + b, key)) + multiset{key(x)}
  {
    assert Keys(a + [x] + b, key) == Keys(a, key) + [key(x)] + Keys(b, key);
    assert Keys(a + b, key) == Keys(a, key) + Keys(b, key);
  }

  lemma WithoutOne<T>(s: seq<T>, i: nat, key: T -> Key)
    requires i < |s|
    ensures multiset(s) == multiset(s[..i] + s[i + 1..]) + multiset{s[i]}
    ensures multiset(Keys(s, key)) == multiset(Keys(s[..i] + s[i + 1..], key)) + multiset{key(s[i])}
  {
    assert s == s[..i] + [s[i]] + s[i + 1..];
    KeysOfParts(s[..i], s[i], s[i + 1..], key);
  }

  lemma Cancel<T>(m: multiset<T>, n: multiset<T>, x: T)
    requires m + multiset{x} == n + multiset{x}
    ensures m == n
  {
    assert m == (m + multiset{x}) - multiset{x};
  }

  /** The first element of one list stands somewhere in the other; the rests are permutations again. */
  lemma Partner<T>(a: seq<T>, b: seq<T>, key: T -> Key) returns (i: nat)
    requires multiset(a) == multiset(b) && a != []
    ensures i < |b| && b[i] == a[0] && multiset(a[..0] + a[1..]) == multiset(b[..i] + b[i + 1..])
  {
    assert a[0] in multiset(b);
    i :| 0 <= i < |b| && b[i] == a[0];
    WithoutOne(a, 0, key);
    WithoutOne(b, i, key);
    Cancel(multiset(a[..0] + a[1..]), multiset(b[..i] + b[i + 1..]), a[0]);
  }

  lemma {:induction false} SameKeys<T>(a: seq<T>, b: seq<T>, key: T -> Key)
    requires multiset(a) == multiset(b)
    ensures multiset(Keys(a, key)) == multiset(Keys(b, key))
    decreases |a|
  {
    if a == [] {
      assert |multiset(b)| == 0;
    } else {
      var i := Partner(a, b, key);
      SameKeys(a[..0] + a[1..], b[..i] + b[i + 1..], key);
      WithoutOne(a, 0, key);
      WithoutOne(b, i, key);
    }
  }

  predicate Ascending(s: seq<Key>) {
    forall i, j :: 0 <= i < j < |s| ==> Precedes(s[i], s[j])
  }

  lemma FirstIsLeast(s: seq<Key>, x: Key)
    requires Ascending(s) && x in s
    ensures Precedes(s[0], x)
  {
    KeysAreOrdered(x, x, x);
  }

  lemma SameFirst(a: seq<Key>, b: seq<Key>)
    requires Ascending(a) && Ascending(b) && multiset(a) == multiset(b) && a != [] && b != []
    ensures a[0] == b[0]
  {
    assert a[0] in multiset(a) && b[0] in multiset(b);
    FirstIsLeast(a, b[0]);
    FirstIsLeast(b, a[0]);
    KeysAreOrdered(a[0], b[0], a[0]);
  }

  lemma WithoutFirst(s: seq<Key>)
    requires Ascending(s) && s != []
    ensures Ascending(s[1..]) && multiset(s[1..]) == multiset(s) - multiset{s[0]} && s == [s[0]] + s[1..]
  {
    assert s == [s[0]] + s[1..];
  }

  lemma {:induction false} AscendingKeysAreUnique(a: seq<Key>, b: seq<Key>)
    requires Ascending(a) && Ascending(b) && multiset(a) == multiset(b)
    ensures a == b
    decreases |a|
  {
    assert |a| == |multiset(a)| && |b| == |multiset(b)|;
    if a != [] {
      SameFirst(a, b);
      WithoutFirst(a);
      WithoutFirst(b);
      AscendingKeysAreUnique(a[1..], b[1..]);
    }
  }

  /** However a sort breaks ties, the keys of its result are determined. */
  lemma SortedKeysAreUnique<T>(a: seq<T>, b: seq<T>, key: T -> Key)
    requires InOrder(a, key) && InOrder(b, key) && multiset(a) == multiset(b)
    ensures Keys(a, key) == Keys(b, key)
  {
    SameKeys(a, b, key);
    AscendingKeysAreUnique(Keys(a, key), Keys(b, key));
  }

  // ----- Lists without repetition -----

  predicate DistinctBy<T, K(==)>(s: seq<T>, mark: T -> K) {
    forall i, j :: 0 <= i < j < |s| ==> mark(s[i]) != mark(s[j])
  }

  lemma {:induction false} OnceThere<T, K>(s: seq<T>, mark: T -> K, x: T)
    requires DistinctBy(s, mark)
    ensures multiset(s)[x] == if x in s then 1 else 0
    decreases |s|
  {
    if s != [] {
      var init, last := s[..|s| - 1], s[|s| - 1];
      assert s == init + [last];
      OnceThere(init, mark, x);
      assert forall i :: 0 <= i < |init| ==> mark(init[i]) != mark(last);
    }
  }

  lemma TwiceThere<T>(s: seq<T>, i: nat, j: nat)
    requires i < j < |s| && s[i] == s[j]
    ensures multiset(s)[s[i]] >= 2
  {
    assert s == s[..i] + [s[i]] + s[i + 1..j] + [s[j]] + s[j + 1..];
  }

  /** Lists without repetition and with the same elements are permutations of each other. */
  lemma SameElements<T, K>(a: seq<T>, b: seq<T>, mark: T -> K)
    requires DistinctBy(a, mark) && DistinctBy(b, mark) && forall x :: x in a <==> x in b
    ensures multiset(a) == multiset(b)
  {
    forall x ensures multiset(a)[x] == multiset(b)[x] {
      OnceThere(a, mark, x);
      OnceThere(b, mark, x);
    }
  }

  lemma PermutedElements<T>(a: seq<T>, b: seq<T>)
    requires multiset(a) == multiset(b)
    ensures forall x :: x in a <==> x in b
  {
    forall x ensures x in a <==> x in b {
      assert x in a <==> x in multiset(a);
      assert x in b <==> x in multiset(b);
    }
  }

  lemma PermutedStaysDistinct<T, K>(a: seq<T>, b: seq<T>, mark: T -> K)
    requires multiset(a) == multiset(b) && DistinctBy(a, mark)
    ensures DistinctBy(b, mark)
  {
    PermutedElements(a, b);
    forall i, j | 0 <= i < j < |b| ensures mark(b[i]) != mark(b[j]) {
      assert b[i] in a && b[j] in a;
      if b[i] == b[j] {
        TwiceThere(b, i, j);
        OnceThere(a, mark, b[i]);
      }
    }
  }
}
