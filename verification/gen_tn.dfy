/** The `T_n` instance generator (scripts/gen_Tn.py): edge normalisation, the base graph `H`
    (a 4-cycle with one chord) and repeated random 2-lifts. The generator's sign bits are a
    parameter: `signs(s)` is the stream `random.Random(s).getrandbits(1)` produces, `true`
    standing for 1. */
module GenTn {
  import opened Wrappers
  import opened Sorting
  import opened GraphIO
  import TupleSpace

  /** The `ValueError("self-loop")` of `normalize_edges`. */
  datatype NormaliseError = SelfLoop

  /** A normalised edge list: strictly increasing, and the smaller end first in each edge. */
  predicate Normalised(es: seq<Edge>) {
    StrictlySortedBy(es, EdgeLeq) && forall i :: 0 <= i < |es| ==> es[i].0 < es[i].1
  }

  /** Some input edge joins the two ends of `e`, in one orientation or the other. */
  ghost predicate Joined(edges: seq<Edge>, e: Edge) {
    exists i :: 0 <= i < |edges| && (e == edges[i] || e == (edges[i].1, edges[i].0))
  }

  predicate HasSelfLoop(edges: seq<Edge>) {
    exists i | 0 <= i < |edges| :: edges[i].0 == edges[i].1
  }

  /** `normalize_edges`: fails on any self-loop; otherwise `sorted(set(...))` of the oriented
      edges. The result holds exactly the input edges, each in either orientation. */
  function NormalizeEdges(edges: seq<Edge>): (r: Result<seq<Edge>, NormaliseError>)
    ensures r.Failure? <==> exists i :: 0 <= i < |edges| && edges[i].0 == edges[i].1
    ensures r.Success? ==> Normalised(r.value)
    ensures r.Success? ==> forall e :: e in r.value <==> e.0 < e.1 && Joined(edges, e)
  {
    if HasSelfLoop(edges) then Failure(SelfLoop)
    else
      EdgeLeqTotal();
      var r := SortDedup(Oriented(edges), EdgeLeq);
      SortDedupOriented(edges);
      Success(r)
  }

  /** The sorted, de-duplicated oriented edges of a loop-free list hold exactly its edges,
      each smaller end first. */
  lemma SortDedupOriented(edges: seq<Edge>)
    requires !HasSelfLoop(edges) && TotalOrder(EdgeLeq)
    ensures forall e :: e in SortDedup(Oriented(edges), EdgeLeq) <==> e.0 < e.1 && Joined(edges, e)
  {
    var o := Oriented(edges);
    var r := SortDedup(o, EdgeLeq);
    forall e ensures e in r <==> e in o {
      assert e in r <==> e in Elems(r);
      assert e in o <==> e in Elems(o);
    }
    OrientedJoined(edges);
  }

  lemma OrientedJoined(edges: seq<Edge>)
    requires !HasSelfLoop(edges)
    ensures forall e :: e in Oriented(edges) <==> e.0 < e.1 && Joined(edges, e)
  {
    var o := Oriented(edges);
    forall e ensures e in o <==> e.0 < e.1 && Joined(edges, e) {
      if e in o {
        var i :| 0 <= i < |o| && o[i] == e;
      }
      if e.0 < e.1 && Joined(edges, e) {
        var i :| 0 <= i < |edges| && (e == edges[i] || e == (edges[i].1, edges[i].0));
        assert o[i] == e;
      }
    }
  }

  /** A normalised list is its own normal form, so normalising twice is normalising once. */
  lemma NormalisedFixed(es: seq<Edge>)
    requires Normalised(es)
    ensures NormalizeEdges(es) == Success(es)
  {
    EdgeLeqTotal();
    var r := NormalizeEdges(es);
    assert !HasSelfLoop(es);
    forall e ensures e in r.value <==> e in es {
      if e in es {
        var i :| 0 <= i < |es| && es[i] == e;
      }
      if e in r.value {
        var i :| 0 <= i < |es| && (e == es[i] || e == (es[i].1, es[i].0));
      }
    }
    assert Elems(r.value) == Elems(es);
    StrictlySortedUnique(r.value, es, EdgeLeq);
  }

  lemma NormalizeIdempotent(edges: seq<Edge>)
    ensures NormalizeEdges(edges).Success? ==>
      NormalizeEdges(NormalizeEdges(edges).value) == NormalizeEdges(edges)
  {
    if NormalizeEdges(edges).Success? {
      NormalisedFixed(NormalizeEdges(edges).value);
    }
  }

  /** Two loop-free edge lists normalise to the same list exactly when they describe the
      same undirected edges. */
  lemma NormalizeCanonical(a: seq<Edge>, b: seq<Edge>)
    requires NormalizeEdges(a).Success? && NormalizeEdges(b).Success?
    ensures NormalizeEdges(a) == NormalizeEdges(b) <==>
      forall e: Edge :: e.0 < e.1 ==> (Joined(a, e) <==> Joined(b, e))
  {
    EdgeLeqTotal();
    var ra, rb := NormalizeEdges(a).value, NormalizeEdges(b).value;
    if forall e: Edge :: e.0 < e.1 ==> (Joined(a, e) <==> Joined(b, e)) {
      assert Elems(ra) == Elems(rb);
      StrictlySortedUnique(ra, rb, EdgeLeq);
    }
  }

  /** The edges `base_graph_H` lists, in its order. */
  const ListedH: seq<Edge> := [(0, 1), (1, 2), (2, 3), (3, 0), (0, 2)]

  /** Their normal form. */
  const NormalH: seq<Edge> := [(0, 1), (0, 2), (0, 3), (1, 2), (2, 3)]

  lemma ListedHNormalises()
    ensures NormalizeEdges(ListedH) == Success(NormalH)
  {
    EdgeLeqTotal();
    assert !HasSelfLoop(ListedH);
    var o := Oriented(ListedH);
    assert o == [(0, 1), (1, 2), (2, 3), (0, 3), (0, 2)];
    assert Elems(o) == Elems(NormalH);
    assert Normalised(NormalH);
    var r := SortDedup(o, EdgeLeq);
    StrictlySortedUnique(r, NormalH, EdgeLeq);
  }

  /** `base_graph_H`: the 4-cycle 0-1-2-3-0 with the chord 0-2, as 4 vertices and 5
      normalised edges. */
  function BaseGraphH(): (r: (int, seq<Edge>))
    ensures r.0 == 4 && |r.1| == 5 && Normalised(r.1)
    ensures r.1 == [(0, 1), (0, 2), (0, 3), (1, 2), (2, 3)]
  {
    ListedHNormalises();
    (4, NormalizeEdges(ListedH).value)
  }

  lemma NormalisedElems(a: seq<Edge>, b: seq<Edge>)
    requires Normalised(a) && Normalised(b)
    requires forall e :: e in a <==> e in b
    ensures a == b
  {
    EdgeLeqTotal();
    assert Elems(a) == Elems(b);
    StrictlySortedUnique(a, b, EdgeLeq);
  }

  /* ---------- 2-lifts ---------- */

  /** `vid(u, bit)`: the copy `bit` of base vertex `u`. */
  function Vid(u: int, bit: nat): int {
    2 * u + bit
  }

  /** The two lifted edges of one base edge: copy `a` of `u` joined to copy `a` of `v` when the
      sign bit is 0, to copy `1 - a` when it is 1, each stored smaller end first. */
  function LiftEdge(e: Edge, sign: bool): (r: seq<Edge>)
    ensures |r| == 2
  {
    var (u, v) := e;
    var pairs := if !sign then [(Vid(u, 0), Vid(v, 0)), (Vid(u, 1), Vid(v, 1))]
                 else [(Vid(u, 0), Vid(v, 1)), (Vid(u, 1), Vid(v, 0))];
    [Normalise(pairs[0].0, pairs[0].1), Normalise(pairs[1].0, pairs[1].1)]
  }

  /** For a base edge `u < v`, lifted edge `a` runs from copy `a` of `u` to copy `a` (parallel)
      or copy `1 - a` (crossed) of `v`; halving its ends gives back `(u, v)`. */
  lemma LiftEdgeMeaning(e: Edge, sign: bool)
    requires e.0 < e.1
    ensures forall a :: 0 <= a < 2 ==>
      LiftEdge(e, sign)[a] == (Vid(e.0, a), Vid(e.1, if sign then 1 - a else a))
    ensures forall a :: 0 <= a < 2 ==>
      LiftEdge(e, sign)[a].0 < LiftEdge(e, sign)[a].1 &&
      LiftEdge(e, sign)[a].0 / 2 == e.0 && LiftEdge(e, sign)[a].1 / 2 == e.1
  {
  }

  /** The loop over the normalised base edges: edge `k` uses sign bit `k` and contributes
      positions `2k` and `2k + 1`. */
  function LiftPairs(es: seq<Edge>, signs: nat -> bool): (r: seq<Edge>)
    ensures |r| == 2 * |es|
  {
    seq(2 * |es|, p requires 0 <= p < 2 * |es| => LiftEdge(es[p / 2], signs(p / 2))[p % 2])
  }

  /** Over normalised base edges every lifted edge is oriented and projects onto its base
      edge, and no lifted edge appears twice. */
  lemma LiftPairsFacts(es: seq<Edge>, signs: nat -> bool)
    requires Normalised(es)
    ensures forall p :: 0 <= p < |LiftPairs(es, signs)| ==>
      LiftPairs(es, signs)[p].0 < LiftPairs(es, signs)[p].1 &&
      LiftPairs(es, signs)[p].0 / 2 == es[p / 2].0 && LiftPairs(es, signs)[p].1 / 2 == es[p / 2].1 &&
      LiftPairs(es, signs)[p].0 % 2 == p % 2
    ensures Distinct(LiftPairs(es, signs))
  {
    var r := LiftPairs(es, signs);
    forall p | 0 <= p < |r|
      ensures r[p].0 < r[p].1 && r[p].0 / 2 == es[p / 2].0 && r[p].1 / 2 == es[p / 2].1 && r[p].0 % 2 == p % 2
    {
      LiftEdgeMeaning(es[p / 2], signs(p / 2));
    }
    forall p, q | 0 <= p < q < |r| ensures r[p] != r[q] {
      if p / 2 != q / 2 {
        assert es[p / 2] != es[q / 2];
      }
    }
  }

  /** `lift_2`: normalise the base edges (failing on a self-loop), lift each with its sign
      bit, and normalise the lifted edges; the lifted graph has `2n` vertices. */
  function Lift2(n: int, edges: seq<Edge>, signs: nat -> bool): (r: Result<(int, seq<Edge>), NormaliseError>)
    ensures r.Failure? <==> NormalizeEdges(edges).Failure?
    ensures r.Success? ==> r.value.0 == 2 * n && Normalised(r.value.1)
    ensures r.Success? ==> |r.value.1| == 2 * |NormalizeEdges(edges).value|
  {
    match NormalizeEdges(edges)
    case Failure(e) => Failure(e)
    case Success(es) =>
      var lifted := LiftPairs(es, signs);
      LiftPairsFacts(es, signs);
      assert !HasSelfLoop(lifted);
      var out := NormalizeEdges(lifted).value;
      assert Elems(out) == Elems(lifted) by {
        forall e ensures e in out <==> e in lifted {
          if e in lifted {
            var p :| 0 <= p < |lifted| && lifted[p] == e;
            assert Joined(lifted, e);
          }
          if e in out {
            assert e.0 < e.1 && Joined(lifted, e);
          }
        }
      }
      DistinctCard(out);
      DistinctCard(lifted);
      Success((2 * n, out))
  }

  /** Copy `a` of `u` joined to its partner copy of `v`. */
  function LiftedCopy(e: Edge, sign: bool, a: nat): Edge
    requires a < 2
  {
    (Vid(e.0, a), Vid(e.1, if sign then 1 - a else a))
  }

  lemma HalfOf(k: nat, a: nat)
    requires a < 2
    ensures (2 * k + a) / 2 == k && (2 * k + a) % 2 == a
  {
  }

  /** Position `2k + a` of the lifted list holds copy `a` of base edge `k`. */
  lemma LiftPairsAt(es: seq<Edge>, signs: nat -> bool, k: nat, a: nat)
    requires Normalised(es) && k < |es| && a < 2
    ensures 2 * k + a < |LiftPairs(es, signs)|
    ensures LiftPairs(es, signs)[2 * k + a] == LiftedCopy(es[k], signs(k), a)
  {
    HalfOf(k, a);
    LiftEdgeMeaning(es[k], signs(k));
  }

  lemma LiftPairsHas(es: seq<Edge>, signs: nat -> bool, e: Edge)
    requires Normalised(es)
    ensures e in LiftPairs(es, signs) <==>
      exists k, a :: 0 <= k < |es| && 0 <= a < 2 && e == LiftedCopy(es[k], signs(k), a)
  {
    var lifted := LiftPairs(es, signs);
    if e in lifted {
      var p :| 0 <= p < |lifted| && lifted[p] == e;
      LiftPairsAt(es, signs, p / 2, p % 2);
    }
    if exists k, a :: 0 <= k < |es| && 0 <= a < 2 && e == LiftedCopy(es[k], signs(k), a) {
      var k, a :| 0 <= k < |es| && 0 <= a < 2 && e == LiftedCopy(es[k], signs(k), a);
      LiftPairsAt(es, signs, k, a);
    }
  }

  /** The final normalisation keeps the lifted edges as they are, as a set. */
  lemma Lift2Keeps(n: int, edges: seq<Edge>, signs: nat -> bool)
    requires NormalizeEdges(edges).Success?
    ensures forall e :: e in Lift2(n, edges, signs).value.1 <==> e in LiftPairs(NormalizeEdges(edges).value, signs)
  {
    var es := NormalizeEdges(edges).value;
    var lifted := LiftPairs(es, signs);
    LiftPairsFacts(es, signs);
    var out := Lift2(n, edges, signs).value.1;
    assert out == NormalizeEdges(lifted).value;
    forall e ensures e in out <==> e in lifted {
      if e in lifted {
        var p :| 0 <= p < |lifted| && lifted[p] == e;
        assert Joined(lifted, e);
      }
    }
  }

  /** The lifted edges are exactly, for each normalised base edge `k = (u, v)` and each copy
      `a` of `u`, the edge to copy `a` of `v` (sign bit 0) or copy `1 - a` (sign bit 1). */
  lemma Lift2Edges(n: int, edges: seq<Edge>, signs: nat -> bool, e: Edge)
    requires NormalizeEdges(edges).Success?
    ensures e in Lift2(n, edges, signs).value.1 <==>
      exists k, a :: 0 <= k < |NormalizeEdges(edges).value| && 0 <= a < 2 &&
        e == LiftedCopy(NormalizeEdges(edges).value[k], signs(k), a)
  {
    Lift2Keeps(n, edges, signs);
    LiftPairsHas(NormalizeEdges(edges).value, signs, e);
  }

  /** Lifted vertices stay in `[0, 2n)` when the base vertices are in `[0, n)`. */
  lemma Lift2Range(n: int, edges: seq<Edge>, signs: nat -> bool)
    requires forall i :: 0 <= i < |edges| ==> 0 <= edges[i].0 < n && 0 <= edges[i].1 < n
    requires NormalizeEdges(edges).Success?
    ensures forall e :: e in Lift2(n, edges, signs).value.1 ==> 0 <= e.0 < 2 * n && 0 <= e.1 < 2 * n
  {
    forall e | e in Lift2(n, edges, signs).value.1 ensures 0 <= e.0 < 2 * n && 0 <= e.1 < 2 * n {
      Lift2EdgeRange(n, edges, signs, e);
    }
  }

  lemma Lift2EdgeRange(n: int, edges: seq<Edge>, signs: nat -> bool, e: Edge)
    requires forall i :: 0 <= i < |edges| ==> 0 <= edges[i].0 < n && 0 <= edges[i].1 < n
    requires NormalizeEdges(edges).Success? && e in Lift2(n, edges, signs).value.1
    ensures 0 <= e.0 < 2 * n && 0 <= e.1 < 2 * n
  {
    var es := NormalizeEdges(edges).value;
    Lift2Edges(n, edges, signs, e);
    var k, a :| 0 <= k < |es| && 0 <= a < 2 && e == LiftedCopy(es[k], signs(k), a);
    NormalisedInRange(n, edges, es[k]);
    LiftedCopyRange(n, es[k], signs(k), a);
  }

  lemma NormalisedInRange(n: int, edges: seq<Edge>, e: Edge)
    requires forall i :: 0 <= i < |edges| ==> 0 <= edges[i].0 < n && 0 <= edges[i].1 < n
    requires NormalizeEdges(edges).Success? && e in NormalizeEdges(edges).value
    ensures 0 <= e.0 < n && 0 <= e.1 < n
  {
    var i :| 0 <= i < |edges| && (e == edges[i] || e == (edges[i].1, edges[i].0));
  }

  lemma LiftedCopyRange(n: int, e: Edge, sign: bool, a: nat)
    requires 0 <= e.0 < n && 0 <= e.1 < n && a < 2
    ensures 0 <= LiftedCopy(e, sign, a).0 < 2 * n && 0 <= LiftedCopy(e, sign, a).1 < 2 * n
  {
  }

  /** Lifting a normalised list succeeds and doubles both counts. */
  lemma LiftNormalised(n: int, es: seq<Edge>, signs: nat -> bool)
    requires Normalised(es)
    ensures Lift2(n, es, signs).Success?
    ensures Lift2(n, es, signs).value.0 == 2 * n && |Lift2(n, es, signs).value.1| == 2 * |es|
    ensures Normalised(Lift2(n, es, signs).value.1)
  {
    NormalisedFixed(es);
  }

  /* ---------- T_n ---------- */

  /** One entry of `meta["steps"]`. */
  datatype Step = Step(i: int, seed: int, n: int, m: nat)

  /** The metadata `generate_Tn` returns; `output` is added by `main` after writing. */
  datatype Meta = Meta(baseGraph: string, seed: int, t: int, steps: seq<Step>)

  /** The graph and the step records after `k` lifts; lift `i` draws its sign bits from the
      generator seeded with `seed + i`. Each lift doubles both the vertices and the edges. */
  function Lifts(k: nat, seed: int, signs: int -> nat -> bool): (r: (int, seq<Edge>, seq<Step>))
    ensures r.0 == 4 * TupleSpace.Pow(2, k) && |r.1| == 5 * TupleSpace.Pow(2, k)
    ensures Normalised(r.1) && |r.2| == k
    ensures forall j :: 0 <= j < k ==>
      r.2[j] == Step(j + 1, seed + j + 1, 4 * TupleSpace.Pow(2, j + 1), 5 * TupleSpace.Pow(2, j + 1))
    decreases k
  {
    if k == 0 then
      var (n, es) := BaseGraphH();
      (n, es, [])
    else
      var (n, es, steps) := Lifts(k - 1, seed, signs);
      LiftNormalised(n, es, signs(seed + k));
      var (n', es') := Lift2(n, es, signs(seed + k)).value;
      StepsGrow(k, seed, n, |es|, steps);
      (n', es', steps + [Step(k, seed + k, n', |es'|)])
  }

  /** Graph `g` is what `lift_2` makes of the graph of `prev` with sign bits `sign`. */
  predicate LiftOf(prev: (int, seq<Edge>, seq<Step>), sign: nat -> bool, g: (int, seq<Edge>)) {
    Lift2(prev.0, prev.1, sign).Success? && g == Lift2(prev.0, prev.1, sign).value
  }

  /** Lift `k` is `lift_2` of the graph after lift `k - 1`, with the sign bits of the generator
      seeded with `seed + k`; with no lift the graph is `H`. */
  lemma LiftsUseStepSeed(k: nat, seed: int, signs: int -> nat -> bool)
    ensures k == 0 ==> (Lifts(k, seed, signs).0, Lifts(k, seed, signs).1) == BaseGraphH()
    ensures k > 0 ==> LiftOf(Lifts(k - 1, seed, signs), signs(seed + k), (Lifts(k, seed, signs).0, Lifts(k, seed, signs).1))
  {
    if k > 0 {
      var prev := Lifts(k - 1, seed, signs);
      LiftNormalised(prev.0, prev.1, signs(seed + k));
    }
  }

  /** Record `k` of a run that doubled the counts of step `k - 1` is the expected one. */
  lemma StepsGrow(k: nat, seed: int, n: int, m: int, steps: seq<Step>)
    requires k > 0 && |steps| == k - 1
    requires n == 4 * TupleSpace.Pow(2, k - 1) && m == 5 * TupleSpace.Pow(2, k - 1)
    requires forall j :: 0 <= j < k - 1 ==>
      steps[j] == Step(j + 1, seed + j + 1, 4 * TupleSpace.Pow(2, j + 1), 5 * TupleSpace.Pow(2, j + 1))
    ensures 2 * n == 4 * TupleSpace.Pow(2, k) && 2 * m == 5 * TupleSpace.Pow(2, k)
    ensures var grown := steps + [Step(k, seed + k, 2 * n, 2 * m)];
      forall j :: 0 <= j < k ==> grown[j] == Step(j + 1, seed + j + 1, 4 * TupleSpace.Pow(2, j + 1), 5 * TupleSpace.Pow(2, j + 1))
  {
    assert TupleSpace.Pow(2, k) == 2 * TupleSpace.Pow(2, k - 1);
  }

  /** `generate_Tn`: `range(1, t + 1)` is empty for `t <= 0`, leaving the base graph. */
  function GenerateTn(t: int, seed: int, signs: int -> nat -> bool): (r: (int, seq<Edge>, Meta))
    ensures var k := if t < 0 then 0 else t;
      r.0 == 4 * TupleSpace.Pow(2, k) && |r.1| == 5 * TupleSpace.Pow(2, k) && |r.2.steps| == k
    ensures Normalised(r.1)
    ensures r.2.seed == seed && r.2.t == t
    ensures forall j :: 0 <= j < |r.2.steps| ==> r.2.steps[j].i == j + 1 && r.2.steps[j].seed == seed + j + 1
    ensures t <= 0 ==> (r.0, r.1) == BaseGraphH()
    ensures t > 0 ==> LiftOf(Lifts(t - 1, seed, signs), signs(seed + t), (r.0, r.1))
  {
    var k := if t < 0 then 0 else t;
    LiftsUseStepSeed(k, seed, signs);
    var (n, es, steps) := Lifts(k, seed, signs);
    (n, es, Meta("H4_cycle_plus_chord", seed, t, steps))
  }
}
