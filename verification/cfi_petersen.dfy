/** The fixed twisted double lift of the Petersen graph (scripts/cfi_petersen.py). Every base
    vertex v becomes the two vertices 2v and 2v+1; every base edge (u, v) becomes two lifted
    edges, each printed in both directions. With mode 1, an edge whose end labels add up to
    an even number is twisted: it joins 2u+a to 2v+(1-a) instead of 2v+a. */
module CfiPetersen {
  import opened Wrappers
  import GraphIO

  type Edge = GraphIO.Edge

  /** `petersen_edges()`: the outer 5-cycle, the inner pentagram, and the five spokes. */
  const Outer: seq<Edge> := [(0, 1), (1, 2), (2, 3), (3, 4), (4, 0)]
  const Inner: seq<Edge> := [(5, 7), (7, 9), (9, 6), (6, 8), (8, 5)]
  const Spokes: seq<Edge> := [(0, 5), (1, 6), (2, 7), (3, 8), (4, 9)]

  function PetersenEdges(): seq<Edge> {
    Outer + Inner + Spokes
  }

  /** Both ends of `e` are among the ten base vertices, and they differ. */
  predicate BaseEdge(e: Edge) {
    0 <= e.0 < 10 && 0 <= e.1 < 10 && e.0 != e.1
  }

  /** The base graph has fifteen edges on the vertices 0 .. 9, none a loop. */
  lemma PetersenEdgesBase()
    ensures |PetersenEdges()| == 15
    ensures forall k :: 0 <= k < 15 ==> BaseEdge(PetersenEdges()[k])
  {
  }

  /** No base edge is listed twice, in either orientation. */
  lemma PetersenSimple()
    ensures forall i, j :: 0 <= i < j < 15 ==>
      GraphIO.Normalise(PetersenEdges()[i].0, PetersenEdges()[i].1) != GraphIO.Normalise(PetersenEdges()[j].0, PetersenEdges()[j].1)
  {
  }

  /** `a ^ m` for a bit `a`: flipping the lowest bit of `m` in two's complement, as Python does
      for every integer, negative ones included. */
  function XorBit(a: nat, m: int): int
    requires a < 2
  {
    if a == 0 then m else if m % 2 == 0 then m + 1 else m - 1
  }

  /** The mask `mode if (u+v) % 2 == 0 else 0` applied to edge `e`. */
  function Shift(e: Edge, mode: int): int {
    if (e.0 + e.1) % 2 == 0 then mode else 0
  }

  /** The two lines printed for edge `e` and bit `a`: `2u+a 2v+b` and its reverse. */
  function Lines(e: Edge, a: nat, mode: int): seq<Edge>
    requires a < 2
  {
    var b := XorBit(a, Shift(e, mode));
    [(2 * e.0 + a, 2 * e.1 + b), (2 * e.1 + b, 2 * e.0 + a)]
  }

  /** Line `p` is one of the two printed for edge `e` and bit `a`. */
  predicate Printed(p: Edge, e: Edge, a: nat, mode: int)
    requires a < 2
  {
    var b := XorBit(a, Shift(e, mode));
    p == (2 * e.0 + a, 2 * e.1 + b) || p == (2 * e.1 + b, 2 * e.0 + a)
  }

  /** Every line the loop prints for `es`, in order. */
  function LiftLines(es: seq<Edge>, mode: int): seq<Edge> {
    if |es| == 0 then [] else Lines(es[0], 0, mode) + Lines(es[0], 1, mode) + LiftLines(es[1..], mode)
  }

  lemma {:induction false} LiftLinesHas(es: seq<Edge>, mode: int, p: Edge)
    ensures p in LiftLines(es, mode) <==> exists k, a :: 0 <= k < |es| && 0 <= a < 2 && Printed(p, es[k], a, mode)
  {
    if |es| > 0 {
      LiftLinesHas(es[1..], mode, p);
      assert LiftLines(es, mode) == Lines(es[0], 0, mode) + Lines(es[0], 1, mode) + LiftLines(es[1..], mode);
      if p in LiftLines(es[1..], mode) {
        var k, a :| 0 <= k < |es[1..]| && 0 <= a < 2 && Printed(p, es[1..][k], a, mode);
        assert Printed(p, es[k + 1], a, mode);
      } else if p in Lines(es[0], 0, mode) {
        assert Printed(p, es[0], 0, mode);
      } else if p in Lines(es[0], 1, mode) {
        assert Printed(p, es[0], 1, mode);
      }
      if exists k, a :: 0 <= k < |es| && 0 <= a < 2 && Printed(p, es[k], a, mode) {
        var k, a :| 0 <= k < |es| && 0 <= a < 2 && Printed(p, es[k], a, mode);
        if k > 0 {
          assert es[k] == es[1..][k - 1];
        }
      }
    }
  }

  /** Each line printed for some edge and bit is among the lines of the whole loop. */
  lemma LinePrinted(es: seq<Edge>, mode: int, k: nat, a: nat, p: Edge)
    requires k < |es| && a < 2 && Printed(p, es[k], a, mode)
    ensures p in LiftLines(es, mode)
  {
    LiftLinesHas(es, mode, p);
  }

  /** `main` as written: any integer mode is accepted. */
  function LiftAsWritten(mode: int): seq<Edge> {
    LiftLines(PetersenEdges(), mode)
  }

  /** With mode 2 the second inner edge (7, 9) prints `14 20`: vertex 20 is outside the twenty
      lifted vertices 0 .. 19, and it is the lift of no base vertex's fibre partner. */
  lemma ModeTwoLeavesRange()
    ensures (14, 20) in LiftAsWritten(2)
  {
    assert PetersenEdges()[6] == (7, 9);
    assert Printed((14, 20), PetersenEdges()[6], 0, 2);
    LinePrinted(PetersenEdges(), 2, 6, 0, (14, 20));
  }

  /** The usage line promises a mode of 0 or 1; anything else is refused here. */
  datatype ModeError = BadMode(mode: int)

  /** `main` with the mode checked against the usage line `{0|1}`. */
  function Lift(mode: int): (r: Result<seq<Edge>, ModeError>)
    ensures r.Failure? <==> mode != 0 && mode != 1
    ensures r.Success? ==> |r.value| == 60
    ensures r.Success? ==> Paired(r.value)
  {
    if mode != 0 && mode != 1 then Failure(BadMode(mode))
    else
      LiftLength(PetersenEdges(), mode);
      LiftPaired(mode);
      Success(LiftAsWritten(mode))
  }

  lemma {:induction false} LiftLength(es: seq<Edge>, mode: int)
    ensures |LiftLines(es, mode)| == 4 * |es|
  {
    if |es| > 0 {
      LiftLength(es[1..], mode);
    }
  }

  /** Whether base edge `e` is twisted under `mode`. */
  predicate Twisted(e: Edge, mode: int) {
    mode == 1 && (e.0 + e.1) % 2 == 0
  }

  /** For modes 0 and 1 the partner bit is `a`, or `1 - a` on a twisted edge. */
  lemma PartnerBit(e: Edge, a: nat, mode: int)
    requires a < 2 && (mode == 0 || mode == 1)
    ensures XorBit(a, Shift(e, mode)) == if Twisted(e, mode) then 1 - a else a
  {
  }

  /** Each base edge (u, v) lifts to a perfect matching between the fibres {2u, 2u+1} and
      {2v, 2v+1}: straight across, or crossed when the edge is twisted, printed both ways. */
  lemma LinesMatching(es: seq<Edge>, mode: int, k: nat, a: nat)
    requires (mode == 0 || mode == 1) && k < |es| && a < 2
    ensures var e := es[k];
      var b := if Twisted(e, mode) then 1 - a else a;
      (2 * e.0 + a, 2 * e.1 + b) in LiftLines(es, mode) && (2 * e.1 + b, 2 * e.0 + a) in LiftLines(es, mode)
  {
    var e := es[k];
    var b := XorBit(a, Shift(e, mode));
    PartnerBit(e, a, mode);
    assert Printed((2 * e.0 + a, 2 * e.1 + b), e, a, mode);
    assert Printed((2 * e.1 + b, 2 * e.0 + a), e, a, mode);
    LiftLinesHas(es, mode, (2 * e.0 + a, 2 * e.1 + b));
    LiftLinesHas(es, mode, (2 * e.1 + b, 2 * e.0 + a));
  }

  /** Line `p` joins the fibres of the ends of `e`, partner bits related by the twist. */
  predicate Matches(p: Edge, e: Edge, a: nat, mode: int) {
    var b := if Twisted(e, mode) then 1 - a else a;
    p == (2 * e.0 + a, 2 * e.1 + b) || p == (2 * e.1 + b, 2 * e.0 + a)
  }

  /** Conversely, every printed line is one of those. */
  lemma LinesOnlyMatching(es: seq<Edge>, mode: int, p: Edge)
    requires (mode == 0 || mode == 1) && p in LiftLines(es, mode)
    ensures exists k, a :: 0 <= k < |es| && 0 <= a < 2 && Matches(p, es[k], a, mode)
  {
    LiftLinesHas(es, mode, p);
    var k, a :| 0 <= k < |es| && 0 <= a < 2 && Printed(p, es[k], a, mode);
    PartnerBit(es[k], a, mode);
    assert Matches(p, es[k], a, mode);
  }

  lemma LiftMatching(mode: int, k: nat, a: nat)
    requires Lift(mode).Success? && k < 15 && a < 2
    ensures var e := PetersenEdges()[k];
      var b := if Twisted(e, mode) then 1 - a else a;
      (2 * e.0 + a, 2 * e.1 + b) in Lift(mode).value && (2 * e.1 + b, 2 * e.0 + a) in Lift(mode).value
  {
    PetersenEdgesBase();
    LinesMatching(PetersenEdges(), mode, k, a);
  }

  lemma LiftOnlyMatching(mode: int, p: Edge)
    requires Lift(mode).Success? && p in Lift(mode).value
    ensures exists k, a :: 0 <= k < 15 && 0 <= a < 2 && Matches(p, PetersenEdges()[k], a, mode)
  {
    PetersenEdgesBase();
    LinesOnlyMatching(PetersenEdges(), mode, p);
  }

  /** Every line is printed in both directions. */
  lemma LinesSymmetric(es: seq<Edge>, mode: int, p: Edge)
    requires p in LiftLines(es, mode)
    ensures (p.1, p.0) in LiftLines(es, mode)
  {
    LiftLinesHas(es, mode, p);
    var k, a :| 0 <= k < |es| && 0 <= a < 2 && Printed(p, es[k], a, mode);
    assert Printed((p.1, p.0), es[k], a, mode);
    LiftLinesHas(es, mode, (p.1, p.0));
  }

  lemma LiftSymmetric(mode: int, p: Edge)
    requires p in LiftAsWritten(mode)
    ensures (p.1, p.0) in LiftAsWritten(mode)
  {
    LinesSymmetric(PetersenEdges(), mode, p);
  }

  /** The lines come in consecutive pairs, each line followed at once by its reverse. */
  predicate Paired(s: seq<Edge>) {
    && |s| % 2 == 0
    && forall i :: 0 <= i < |s| - 1 && i % 2 == 0 ==> s[i + 1] == (s[i].1, s[i].0)
  }

  lemma {:induction false} LinesPaired(es: seq<Edge>, mode: int)
    ensures Paired(LiftLines(es, mode))
  {
    if |es| > 0 {
      LinesPaired(es[1..], mode);
      var head := Lines(es[0], 0, mode) + Lines(es[0], 1, mode);
      var rest := LiftLines(es[1..], mode);
      var s := LiftLines(es, mode);
      assert s == head + rest;
      assert |head| == 4;
      forall i | 0 <= i < |s| - 1 && i % 2 == 0
        ensures s[i + 1] == (s[i].1, s[i].0)
      {
        if i >= 4 {
          assert s[i] == rest[i - 4] && s[i + 1] == rest[i - 4 + 1];
        }
      }
    }
  }

  /** The second `print` of each iteration (line 28) is the reverse of the first (line 27),
      whatever the mode. */
  lemma LiftPaired(mode: int)
    ensures Paired(LiftAsWritten(mode))
  {
    LinesPaired(PetersenEdges(), mode);
  }

  /** For modes 0 and 1 every printed vertex is one of the twenty lifted vertices, and each line
      joins two different base vertices' fibres. */
  lemma LinesInRange(es: seq<Edge>, mode: int, p: Edge)
    requires (mode == 0 || mode == 1) && p in LiftLines(es, mode)
    requires forall k :: 0 <= k < |es| ==> BaseEdge(es[k])
    ensures 0 <= p.0 < 20 && 0 <= p.1 < 20
    ensures p.0 / 2 != p.1 / 2
  {
    LinesOnlyMatching(es, mode, p);
    var k, a :| 0 <= k < |es| && 0 <= a < 2 && Matches(p, es[k], a, mode);
    MatchesInRange(p, es[k], a, mode);
  }

  lemma MatchesInRange(p: Edge, e: Edge, a: nat, mode: int)
    requires BaseEdge(e) && a < 2 && Matches(p, e, a, mode)
    ensures 0 <= p.0 < 20 && 0 <= p.1 < 20
    ensures p.0 / 2 != p.1 / 2
  {
    var b := if Twisted(e, mode) then 1 - a else a;
    Fibre(e.0, a);
    Fibre(e.1, b);
  }

  /** Lifted vertex 2u+a lies over base vertex u, in layer a. */
  lemma Fibre(u: int, a: int)
    requires 0 <= a < 2
    ensures (2 * u + a) / 2 == u && (2 * u + a) % 2 == a
  {
  }

  lemma LiftInRange(mode: int, p: Edge)
    requires Lift(mode).Success? && p in Lift(mode).value
    ensures 0 <= p.0 < 20 && 0 <= p.1 < 20
    ensures p.0 / 2 != p.1 / 2
  {
    PetersenEdgesBase();
    LinesInRange(PetersenEdges(), mode, p);
  }

  /** Mode 0 keeps every line within one layer: the lift is two disjoint copies of the base. */
  lemma LinesLayered(es: seq<Edge>, p: Edge)
    requires p in LiftLines(es, 0)
    ensures p.0 % 2 == p.1 % 2
  {
    LinesOnlyMatching(es, 0, p);
    var k, a :| 0 <= k < |es| && 0 <= a < 2 && Matches(p, es[k], a, 0);
    MatchesLayered(p, es[k], a);
  }

  lemma MatchesLayered(p: Edge, e: Edge, a: nat)
    requires a < 2 && Matches(p, e, a, 0)
    ensures p.0 % 2 == p.1 % 2
  {
    Fibre(e.0, a);
    Fibre(e.1, a);
  }

  lemma ModeZeroLayered(p: Edge)
    requires p in LiftAsWritten(0)
    ensures p.0 % 2 == p.1 % 2
  {
    LinesLayered(PetersenEdges(), p);
  }

  /** The number of twisted edges in `es`. */
  function TwistCount(es: seq<Edge>, mode: int): nat {
    if |es| == 0 then 0 else (if Twisted(es[0], mode) then 1 else 0) + TwistCount(es[1..], mode)
  }

  lemma {:induction false} TwistCountAppend(xs: seq<Edge>, ys: seq<Edge>, mode: int)
    ensures TwistCount(xs + ys, mode) == TwistCount(xs, mode) + TwistCount(ys, mode)
  {
    if |xs| == 0 {
      assert xs + ys == ys;
    } else {
      assert (xs + ys)[1..] == xs[1..] + ys;
      TwistCountAppend(xs[1..], ys, mode);
    }
  }

  lemma InnerTwists()
    ensures TwistCount(Inner, 1) == 3
  {
  }

  lemma SpokeTwists()
    ensures TwistCount(Spokes, 1) == 0
  {
  }

  /** Mode 1 twists exactly one edge of the outer 5-cycle, an odd number, so the lift of that
      cycle does not split into two copies as it does under mode 0; four edges are twisted in
      all. */
  lemma ModeOneTwists()
    ensures TwistCount(Outer, 1) == 1 && TwistCount(Outer, 0) == 0
    ensures TwistCount(PetersenEdges(), 1) == 4
  {
    TwistCountAppend(Outer + Inner, Spokes, 1);
    TwistCountAppend(Outer, Inner, 1);
    InnerTwists();
    SpokeTwists();
  }
}
