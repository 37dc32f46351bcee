/** The key space of the exact refinement: every tuple over [0, n) of length k, listed in the
    order of k nested `for x in range(n)` loops. A Python tuple `(i, j)` is the sequence
    `[i, j]` here. */
module TupleSpace {
  import opened Sorting

  predicate IsTuple(t: seq<nat>, n: nat, k: nat) {
    |t| == k && forall p :: 0 <= p < k ==> t[p] < n
  }

  function Pow(n: nat, k: nat): nat {
    if k == 0 then 1 else n * Pow(n, k - 1)
  }

  /** `[x] + t` for every `t` of `ts`, in order. */
  function Prefixed(x: nat, ts: seq<seq<nat>>): (r: seq<seq<nat>>)
    ensures |r| == |ts|
    ensures forall p :: 0 <= p < |ts| ==> r[p] == [x] + ts[p]
  {
    seq(|ts|, p requires 0 <= p < |ts| => [x] + ts[p])
  }

  /** The outer loop `for x in range(m)` around an inner enumeration `ts`. */
  function Rows(m: nat, ts: seq<seq<nat>>): (r: seq<seq<nat>>)
    ensures |r| == m * |ts|
  {
    if m == 0 then []
    else
      assert (m - 1) * |ts| + |ts| == m * |ts|;
      Rows(m - 1, ts) + Prefixed(m - 1, ts)
  }

  lemma {:induction false} RowsHas(m: nat, ts: seq<seq<nat>>, t: seq<nat>)
    ensures t in Rows(m, ts) <==> |t| > 0 && t[0] < m && t[1..] in ts
  {
    if m > 0 {
      RowsHas(m - 1, ts, t);
      var b := Prefixed(m - 1, ts);
      assert Rows(m, ts) == Rows(m - 1, ts) + b;
      if |t| > 0 && t[0] == m - 1 && t[1..] in ts {
        var p :| 0 <= p < |ts| && ts[p] == t[1..];
        assert b[p] == t;
      }
      if t in b {
        var p :| 0 <= p < |b| && b[p] == t;
        assert t[1..] == ts[p];
      }
    }
  }

  /** All tuples of length `k` over `[0, n)`, in nested-loop order. */
  function Tuples(n: nat, k: nat): (r: seq<seq<nat>>)
    ensures |r| == Pow(n, k)
  {
    if k == 0 then [[]] else Rows(n, Tuples(n, k - 1))
  }

  /** The enumeration holds exactly the tuples of length `k` over `[0, n)`. */
  lemma {:induction false} TuplesHas(n: nat, k: nat, t: seq<nat>)
    ensures t in Tuples(n, k) <==> IsTuple(t, n, k)
  {
    if k > 0 {
      RowsHas(n, Tuples(n, k - 1), t);
      if |t| > 0 {
        TuplesHas(n, k - 1, t[1..]);
        assert forall p :: 0 < p < |t| ==> t[p] == t[1..][p - 1];
      }
    }
  }

  lemma TuplesAll(n: nat, k: nat)
    ensures forall t :: t in Tuples(n, k) <==> IsTuple(t, n, k)
  {
    forall t ensures t in Tuples(n, k) <==> IsTuple(t, n, k) {
      TuplesHas(n, k, t);
    }
  }

  predicate IsPair(t: seq<nat>, n: nat) {
    |t| == 2 && t[0] < n && t[1] < n
  }

  predicate IsTriple(t: seq<nat>, n: nat) {
    |t| == 3 && t[0] < n && t[1] < n && t[2] < n
  }

  lemma PairHas(n: nat, t: seq<nat>)
    ensures t in Tuples(n, 2) <==> IsPair(t, n)
  {
    RowsHas(n, Tuples(n, 1), t);
    if |t| > 0 {
      var u := t[1..];
      RowsHas(n, Tuples(n, 0), u);
      assert Tuples(n, 0) == [[]];
      if |u| > 0 {
        assert u[0] == t[1];
        assert u[1..] in [[]] <==> |u| == 1;
      }
    }
  }

  lemma TripleHas(n: nat, t: seq<nat>)
    ensures t in Tuples(n, 3) <==> IsTriple(t, n)
  {
    RowsHas(n, Tuples(n, 2), t);
    if |t| > 0 {
      PairHas(n, t[1..]);
    }
  }

  /** The loops `for i in range(n) for j in range(n)` visit exactly the pairs. */
  lemma PairsAll(n: nat)
    ensures forall t :: t in Tuples(n, 2) <==> IsPair(t, n)
  {
    forall t ensures t in Tuples(n, 2) <==> IsPair(t, n) {
      PairHas(n, t);
    }
  }

  /** Three nested loops over `range(n)` visit exactly the triples. */
  lemma TriplesAll(n: nat)
    ensures forall t :: t in Tuples(n, 3) <==> IsTriple(t, n)
  {
    forall t ensures t in Tuples(n, 3) <==> IsTriple(t, n) {
      TripleHas(n, t);
    }
  }

  /** Python's `<` on two tuples of the same length. */
  predicate LexLess(a: seq<nat>, b: seq<nat>) {
    |a| > 0 && |b| > 0 && (a[0] < b[0] || (a[0] == b[0] && LexLess(a[1..], b[1..])))
  }

  lemma {:induction false} LexLessIrreflexive(a: seq<nat>)
    ensures !LexLess(a, a)
  {
    if |a| > 0 {
      LexLessIrreflexive(a[1..]);
    }
  }

  lemma {:induction false} RowsAscending(m: nat, ts: seq<seq<nat>>)
    requires forall p, q :: 0 <= p < q < |ts| ==> LexLess(ts[p], ts[q])
    ensures forall p, q :: 0 <= p < q < |Rows(m, ts)| ==> LexLess(Rows(m, ts)[p], Rows(m, ts)[q])
  {
    if m > 0 {
      RowsAscending(m - 1, ts);
      var a := Rows(m - 1, ts);
      var b := Prefixed(m - 1, ts);
      forall p, q | 0 <= p < q < |a + b| ensures LexLess((a + b)[p], (a + b)[q]) {
        if q < |a| {
          assert (a + b)[p] == a[p] && (a + b)[q] == a[q];
        } else if p < |a| {
          assert a[p] in a;
          RowsHas(m - 1, ts, a[p]);
          assert (a + b)[p] == a[p] && (a + b)[q] == b[q - |a|];
        } else {
          var x, y := b[p - |a|], b[q - |a|];
          assert x[1..] == ts[p - |a|] && y[1..] == ts[q - |a|];
          assert (a + b)[p] == x && (a + b)[q] == y;
        }
      }
    }
  }

  /** The enumeration visits tuples in strictly increasing lexicographic order, so it lists
      every tuple of `[0, n)^k` exactly once. */
  lemma {:induction false} TuplesAscending(n: nat, k: nat)
    ensures forall p, q :: 0 <= p < q < |Tuples(n, k)| ==> LexLess(Tuples(n, k)[p], Tuples(n, k)[q])
    ensures Distinct(Tuples(n, k))
  {
    if k > 0 {
      TuplesAscending(n, k - 1);
      RowsAscending(n, Tuples(n, k - 1));
    }
    forall p, q | 0 <= p < q < |Tuples(n, k)| ensures Tuples(n, k)[p] != Tuples(n, k)[q] {
      LexLessIrreflexive(Tuples(n, k)[p]);
    }
  }
}
