/** Sorting over an explicit total order, duplicate removal, and the facts that make a
    sorted list a canonical representative of a multiset (or, without duplicates, of a set).
    Python's `sorted` and `list.sort` are modelled by `Sort`; `sorted(set(xs))` by `SortDedup`. */
module Sorting {

  ghost predicate TotalOrder<T(!new)>(leq: (T, T) -> bool) {
    && (forall x :: leq(x, x))
    && (forall x, y :: leq(x, y) && leq(y, x) ==> x == y)
    && (forall x, y, z :: leq(x, y) && leq(y, z) ==> leq(x, z))
    && (forall x, y :: leq(x, y) || leq(y, x))
  }

  predicate SortedBy<T>(s: seq<T>, leq: (T, T) -> bool) {
    forall i, j :: 0 <= i < j < |s| ==> leq(s[i], s[j])
  }

  predicate Distinct<T(==)>(s: seq<T>) {
    forall i, j :: 0 <= i < j < |s| ==> s[i] != s[j]
  }

  /** Sorted and free of duplicates: what `sorted(set(xs))` produces. */
  predicate StrictlySortedBy<T(==)>(s: seq<T>, leq: (T, T) -> bool) {
    SortedBy(s, leq) && Distinct(s)
  }

  function Elems<T>(s: seq<T>): set<T> {
    set x | x in s
  }

  /** The order Python uses on `int`. */
  predicate IntLeq(a: int, b: int) {
    a <= b
  }

  /** The order Python uses on a pair of ints: lexicographic. */
  predicate EdgeLeq(x: (int, int), y: (int, int)) {
    x.0 < y.0 || (x.0 == y.0 && x.1 <= y.1)
  }

  lemma IntLeqTotal()
    ensures TotalOrder(IntLeq)
  {
  }

  lemma EdgeLeqTotal()
    ensures TotalOrder(EdgeLeq)
  {
  }

  function Insert<T>(x: T, s: seq<T>, leq: (T, T) -> bool): (r: seq<T>)
    ensures multiset(r) == multiset{x} + multiset(s)
  {
    if |s| == 0 then [x]
    else if leq(x, s[0]) then [x] + s
    else
      assert s == [s[0]] + s[1..];
      [s[0]] + Insert(x, s[1..], leq)
  }

  lemma {:induction false} InsertSorted<T(!new)>(x: T, s: seq<T>, leq: (T, T) -> bool)
    requires TotalOrder(leq)
    requires SortedBy(s, leq)
    ensures SortedBy(Insert(x, s, leq), leq)
    decreases |s|
  {
    if |s| > 0 && !leq(x, s[0]) {
      var rest := Insert(x, s[1..], leq);
      InsertSorted(x, s[1..], leq);
      assert leq(s[0], x);
      forall k | 0 <= k < |rest|
        ensures leq(s[0], rest[k])
      {
        assert rest[k] in multiset{x} + multiset(s[1..]);
        if rest[k] != x {
          assert rest[k] in s[1..];
        }
      }
    }
  }

  /** Insertion sort: a permutation of `s` that is ordered by `leq`. */
  function Sort<T(!new)>(s: seq<T>, leq: (T, T) -> bool): (r: seq<T>)
    requires TotalOrder(leq)
    ensures multiset(r) == multiset(s)
    ensures SortedBy(r, leq)
    ensures |r| == |s|
  {
    if |s| == 0 then []
    else
      assert s == [s[0]] + s[1..];
      var rest := Sort(s[1..], leq);
      InsertSorted(s[0], rest, leq);
      var r := Insert(s[0], rest, leq);
      assert |r| == |multiset(r)| == |multiset(s)| == |s|;
      r
  }

  /** The head of a sorted list is below every element of the list. */
  lemma SortedHead<T>(s: seq<T>, x: T, leq: (T, T) -> bool)
    requires SortedBy(s, leq)
    requires x in s
    ensures leq(s[0], x) || s[0] == x
  {
    var k :| 0 <= k < |s| && s[k] == x;
    if k > 0 {
      assert leq(s[0], s[k]);
    }
  }

  /** Two sorted lists holding the same multiset are the same list. */
  lemma {:induction false} SortedUnique<T(!new)>(a: seq<T>, b: seq<T>, leq: (T, T) -> bool)
    requires TotalOrder(leq)
    requires SortedBy(a, leq) && SortedBy(b, leq)
    requires multiset(a) == multiset(b)
    ensures a == b
    decreases |a|
  {
    assert |a| == |multiset(a)| == |multiset(b)| == |b|;
    if |a| > 0 {
      assert a == [a[0]] + a[1..];
      assert b == [b[0]] + b[1..];
      assert a[0] in multiset(b);
      SortedHead(b, a[0], leq);
      assert b[0] in multiset(a);
      SortedHead(a, b[0], leq);
      assert a[0] == b[0];
      assert multiset(a[1..]) == multiset(a) - multiset{a[0]};
      assert multiset(b[1..]) == multiset(b) - multiset{b[0]};
      SortedUnique(a[1..], b[1..], leq);
    }
  }

  /** Sorting forgets exactly the order of its input: the sorted lists agree iff the
      multisets do. */
  lemma SortCanonical<T(!new)>(a: seq<T>, b: seq<T>, leq: (T, T) -> bool)
    requires TotalOrder(leq)
    ensures Sort(a, leq) == Sort(b, leq) <==> multiset(a) == multiset(b)
  {
    if multiset(a) == multiset(b) {
      SortedUnique(Sort(a, leq), Sort(b, leq), leq);
    }
  }

  /** Removes adjacent repeats; on a sorted list this removes every repeat. */
  function Dedup<T(==)>(s: seq<T>): (r: seq<T>)
    ensures Elems(r) == Elems(s)
    ensures |r| <= |s|
    ensures |s| > 0 ==> |r| > 0 && r[0] == s[0]
  {
    if |s| <= 1 then s
    else
      assert s == [s[0]] + s[1..];
      assert Elems(s) == {s[0]} + Elems(s[1..]);
      if s[0] == s[1] then Dedup(s[1..])
      else
        var rest := Dedup(s[1..]);
        assert Elems([s[0]] + rest) == {s[0]} + Elems(rest);
        [s[0]] + rest
  }

  lemma {:induction false} DedupSorted<T(!new)>(s: seq<T>, leq: (T, T) -> bool)
    requires TotalOrder(leq)
    requires SortedBy(s, leq)
    ensures StrictlySortedBy(Dedup(s), leq)
    decreases |s|
  {
    if |s| > 1 {
      var rest := Dedup(s[1..]);
      DedupSorted(s[1..], leq);
      forall y | y in rest
        ensures leq(s[0], y)
      {
        assert y in Elems(s[1..]);
      }
      if s[0] != s[1] {
        forall i | 1 <= i < |s|
          ensures s[i] != s[0]
        {
          assert leq(s[1], s[i]) && leq(s[0], s[1]);
        }
        assert s[0] !in Elems(s[1..]);
        var r := [s[0]] + rest;
        forall i, j | 0 <= i < j < |r|
          ensures leq(r[i], r[j]) && r[i] != r[j]
        {
          if i == 0 {
            assert r[j] == rest[j - 1];
            assert rest[j - 1] in Elems(s[1..]);
          }
        }
      }
    }
  }

  /** `sorted(set(s))`: the elements of `s`, in order, each once. */
  function SortDedup<T(==,!new)>(s: seq<T>, leq: (T, T) -> bool): (r: seq<T>)
    requires TotalOrder(leq)
    ensures StrictlySortedBy(r, leq)
    ensures Elems(r) == Elems(s)
  {
    var sorted := Sort(s, leq);
    DedupSorted(sorted, leq);
    assert Elems(sorted) == Elems(s) by {
      forall x ensures x in Elems(sorted) <==> x in Elems(s) {
        assert x in sorted <==> x in multiset(sorted);
        assert x in s <==> x in multiset(s);
      }
    }
    Dedup(sorted)
  }

  /** Two duplicate-free sorted lists with the same elements are the same list. */
  lemma {:induction false} StrictlySortedUnique<T(!new)>(a: seq<T>, b: seq<T>, leq: (T, T) -> bool)
    requires TotalOrder(leq)
    requires StrictlySortedBy(a, leq) && StrictlySortedBy(b, leq)
    requires Elems(a) == Elems(b)
    ensures a == b
    decreases |a|
  {
    if |b| > 0 {
      assert b[0] in Elems(a);
    }
    if |a| > 0 {
      assert a[0] in Elems(b);
      assert |b| > 0;
      var k :| 0 <= k < |b| && b[k] == a[0];
      assert leq(b[0], a[0]);
      assert b[0] in Elems(a);
      var k' :| 0 <= k' < |a| && a[k'] == b[0];
      assert leq(a[0], b[0]);
      assert a[0] == b[0];
      assert Elems(a[1..]) == Elems(a) - {a[0]} by {
        assert a == [a[0]] + a[1..];
        forall x | x in Elems(a[1..]) ensures x != a[0] {
          var i :| 0 <= i < |a[1..]| && a[1..][i] == x;
          assert a[i + 1] == x;
        }
      }
      assert Elems(b[1..]) == Elems(b) - {b[0]} by {
        assert b == [b[0]] + b[1..];
        forall x | x in Elems(b[1..]) ensures x != b[0] {
          var i :| 0 <= i < |b[1..]| && b[1..][i] == x;
          assert b[i + 1] == x;
        }
      }
      StrictlySortedUnique(a[1..], b[1..], leq);
      assert a == [a[0]] + a[1..];
      assert b == [b[0]] + b[1..];
    }
  }

  /** `sorted(set(...))` depends only on the set of its input, so applying it twice is
      applying it once. */
  lemma SortDedupCanonical<T(!new)>(a: seq<T>, b: seq<T>, leq: (T, T) -> bool)
    requires TotalOrder(leq)
    ensures SortDedup(a, leq) == SortDedup(b, leq) <==> Elems(a) == Elems(b)
    ensures SortDedup(SortDedup(a, leq), leq) == SortDedup(a, leq)
  {
    if Elems(a) == Elems(b) {
      StrictlySortedUnique(SortDedup(a, leq), SortDedup(b, leq), leq);
    }
    StrictlySortedUnique(SortDedup(SortDedup(a, leq), leq), SortDedup(a, leq), leq);
  }

  /** A duplicate-free list has as many elements as its set. */
  lemma {:induction false} DistinctCard<T>(s: seq<T>)
    requires Distinct(s)
    ensures |Elems(s)| == |s|
    decreases |s|
  {
    if |s| > 0 {
      assert s == [s[0]] + s[1..];
      assert Elems(s) == {s[0]} + Elems(s[1..]);
      forall i | 0 <= i < |s[1..]|
        ensures s[1..][i] != s[0]
      {
        assert s[1..][i] == s[i + 1];
      }
      assert s[0] !in Elems(s[1..]);
      DistinctCard(s[1..]);
    }
  }

  /** A list has at least as many elements as its set. */
  lemma {:induction false} ElemsCard<T>(s: seq<T>)
    ensures |Elems(s)| <= |s|
    decreases |s|
  {
    if |s| > 0 {
      assert Elems(s) == {s[0]} + Elems(s[1..]);
      ElemsCard(s[1..]);
    }
  }
}
