/** Exact 3-dimensional refinement on ordered vertex triples (scripts/wl3_full.py). A triple
    `(a, b, c)` is the key `[a, b, c]`; a colouring is defined on exactly the triples over
    [0, n). */
module Wl3Full {
  import opened Wrappers
  import opened Sorting
  import opened TupleSpace
  import opened Colours
  import opened Refinement
  import Palette
  import GraphIO

  type Colouring = map<seq<nat>, Colour>

  /** The colouring is keyed by exactly the ordered triples over [0, n). */
  ghost predicate OnTriples(col: Colouring, n: nat) {
    forall t :: t in col <==> IsTriple(t, n)
  }

  function Bit(b: bool): int {
    if b then 1 else 0
  }

  /** `init_color`: three equality bits, then the adjacency of `(a,b)`, `(a,c)`, `(b,c)`. */
  function InitColour(adj: seq<seq<nat>>, a: nat, b: nat, c: nat): Colour
    requires a < |adj| && b < |adj|
  {
    Pattern([Bit(a == b), Bit(a == c), Bit(b == c),
             GraphIO.HasEdge(adj, a, b), GraphIO.HasEdge(adj, a, c), GraphIO.HasEdge(adj, b, c)])
  }

  /** Each of the six bits answers its question exactly, once the lists are sorted. */
  lemma InitColourMeaning(adj: seq<seq<nat>>, a: nat, b: nat, c: nat)
    requires a < |adj| && b < |adj|
    requires SortedBy(adj[a], GraphIO.NatLeq) && SortedBy(adj[b], GraphIO.NatLeq)
    ensures |InitColour(adj, a, b, c).bits| == 6
    ensures forall x :: x in InitColour(adj, a, b, c).bits ==> x == 0 || x == 1
    ensures InitColour(adj, a, b, c).bits[0] == 1 <==> a == b
    ensures InitColour(adj, a, b, c).bits[1] == 1 <==> a == c
    ensures InitColour(adj, a, b, c).bits[2] == 1 <==> b == c
    ensures InitColour(adj, a, b, c).bits[3] == 1 <==> b in adj[a]
    ensures InitColour(adj, a, b, c).bits[4] == 1 <==> c in adj[a]
    ensures InitColour(adj, a, b, c).bits[5] == 1 <==> c in adj[b]
  {
    GraphIO.HasEdgeMeansNeighbour(adj, a, b);
    GraphIO.HasEdgeMeansNeighbour(adj, a, c);
    GraphIO.HasEdgeMeansNeighbour(adj, b, c);
  }

  function InitColours(adj: seq<seq<nat>>): (col: Colouring)
    ensures OnTriples(col, |adj|)
    ensures forall t :: t in col ==> col[t] == InitColour(adj, t[0], t[1], t[2])
  {
    TriplesAll(|adj|);
    map t | t in Tuples(|adj|, 3) :: InitColour(adj, t[0], t[1], t[2])
  }

  /** `(base, tuple(M0), tuple(M1), tuple(M2))` with each `M` sorted. */
  datatype Signature = Signature(base: Colour, m0: seq<Colour>, m1: seq<Colour>, m2: seq<Colour>)

  /** The colours met by replacing coordinate `p` of `t` with each `w` in `range(n)`. */
  function Substitute(col: Colouring, n: nat, t: seq<nat>, p: nat): (m: seq<Colour>)
    requires OnTriples(col, n) && IsTriple(t, n) && p < 3
    ensures |m| == n
    ensures forall w :: 0 <= w < n ==> m[w] == col[t[p := w]]
  {
    seq(n, w requires 0 <= w < n => col[t[p := w]])
  }

  function Sig(col: Colouring, n: nat, t: seq<nat>): Signature
    requires OnTriples(col, n) && IsTriple(t, n)
  {
    ColourLeqTotal();
    Signature(col[t], Sort(Substitute(col, n, t, 0), ColourLeq),
      Sort(Substitute(col, n, t, 1), ColourLeq), Sort(Substitute(col, n, t, 2), ColourLeq))
  }

  /** Sorting makes the signature independent of the order `w` is visited in: two signatures
      agree iff the old colours agree and each substitution yields the same multiset. */
  lemma SigEqual(col: Colouring, n: nat, t: seq<nat>, t': seq<nat>)
    requires OnTriples(col, n) && IsTriple(t, n) && IsTriple(t', n)
    ensures Sig(col, n, t) == Sig(col, n, t') <==>
      (col[t] == col[t'] &&
       multiset(Substitute(col, n, t, 0)) == multiset(Substitute(col, n, t', 0)) &&
       multiset(Substitute(col, n, t, 1)) == multiset(Substitute(col, n, t', 1)) &&
       multiset(Substitute(col, n, t, 2)) == multiset(Substitute(col, n, t', 2)))
  {
    ColourLeqTotal();
    SortCanonical(Substitute(col, n, t, 0), Substitute(col, n, t', 0), ColourLeq);
    SortCanonical(Substitute(col, n, t, 1), Substitute(col, n, t', 1), ColourLeq);
    SortCanonical(Substitute(col, n, t, 2), Substitute(col, n, t', 2), ColourLeq);
  }

  /** The signature of every triple. */
  function Sigs(col: Colouring, n: nat): (s: map<seq<nat>, Signature>)
    requires OnTriples(col, n)
    ensures forall t :: t in s <==> IsTriple(t, n)
    ensures forall t :: t in s ==> s[t] == Sig(col, n, t)
  {
    TriplesAll(n);
    map t | t in Tuples(n, 3) :: Sig(col, n, t)
  }

  /** The signatures in the order the loops over `a`, `b`, `c` meet them. */
  function SigSeq(col: Colouring, n: nat): seq<Signature>
    requires OnTriples(col, n)
  {
    TriplesAll(n);
    Palette.Image(Tuples(n, 3), Sigs(col, n))
  }

  /** One round: each triple's new colour is the palette id of its signature. */
  function Refine(col: Colouring, n: nat): (r: Colouring)
    requires OnTriples(col, n)
    ensures OnTriples(r, n)
    ensures forall t :: t in r ==>
      (Sig(col, n, t) in Palette.Build(SigSeq(col, n)) && r[t] == Id(Palette.Build(SigSeq(col, n))[Sig(col, n, t)]))
    ensures forall t, t' :: t in r && t' in r ==> (r[t] == r[t'] <==> Sig(col, n, t) == Sig(col, n, t'))
    ensures forall t, t' :: t in r && t' in r && r[t] == r[t'] ==> col[t] == col[t']
  {
    TriplesAll(n);
    var ids := Palette.Recolour(Tuples(n, 3), Sigs(col, n));
    map t | t in ids :: Id(ids[t])
  }

  /** The new colours are exactly the ids below the number of distinct signatures. */
  lemma RefineDense(col: Colouring, n: nat)
    requires OnTriples(col, n)
    ensures forall k: nat :: Id(k) in Refine(col, n).Values <==> k < |Elems(SigSeq(col, n))|
  {
    TriplesAll(n);
    var dom, sig := Tuples(n, 3), Sigs(col, n);
    Palette.RecolourDense(dom, sig);
    var p := Palette.Build(Palette.Image(dom, sig));
    assert p.Keys == Elems(SigSeq(col, n));
    var ids := Palette.Recolour(dom, sig);
    forall k: nat ensures Id(k) in Refine(col, n).Values <==> k in ids.Values {
      if Id(k) in Refine(col, n).Values {
        var t :| t in Refine(col, n) && Refine(col, n)[t] == Id(k);
        assert ids[t] == k;
      }
      if k in ids.Values {
        var t :| t in ids && ids[t] == k;
        assert Refine(col, n)[t] == Id(k);
      }
    }
  }

  /** Ids are handed out in the order the loops first meet each signature. */
  lemma RefineFirstSeen(col: Colouring, n: nat, t: seq<nat>, t': seq<nat>)
    requires OnTriples(col, n) && IsTriple(t, n) && IsTriple(t', n)
    ensures Sig(col, n, t) in SigSeq(col, n) && Sig(col, n, t') in SigSeq(col, n)
    ensures Refine(col, n)[t].id < Refine(col, n)[t'].id <==>
      Palette.FirstIndex(SigSeq(col, n), Sig(col, n, t)) < Palette.FirstIndex(SigSeq(col, n), Sig(col, n, t'))
  {
    TriplesAll(n);
    var sig := Sigs(col, n);
    Palette.RecolourFirstSeenAt(Tuples(n, 3), sig, t, t');
    assert sig[t] == Sig(col, n, t) && sig[t'] == Sig(col, n, t');
  }

  /** The colouring after `rounds` rounds; `range` of a negative count is empty. */
  function RoundColours(adj: seq<seq<nat>>, rounds: int): (col: Colouring)
    ensures OnTriples(col, |adj|)
    decreases rounds
  {
    if rounds <= 0 then InitColours(adj) else Refine(RoundColours(adj, rounds - 1), |adj|)
  }

  /** Later rounds refine earlier ones. */
  lemma {:induction false} ColoursRefine(adj: seq<seq<nat>>, r1: int, r2: int)
    requires r1 <= r2
    ensures Covers(RoundColours(adj, r1), Tuples(|adj|, 3)) && Covers(RoundColours(adj, r2), Tuples(|adj|, 3))
    ensures Refines(RoundColours(adj, r2), RoundColours(adj, r1), Tuples(|adj|, 3))
    ensures |Classes(RoundColours(adj, r1), Tuples(|adj|, 3))| <= |Classes(RoundColours(adj, r2), Tuples(|adj|, 3))|
    decreases r2 - r1
  {
    TriplesAll(|adj|);
    var dom := Tuples(|adj|, 3);
    if r1 < r2 {
      ColoursRefine(adj, r1, r2 - 1);
      var mid := RoundColours(adj, r2 - 1);
      assert Refines(RoundColours(adj, r2), mid, dom);
      RefinesTransitive(RoundColours(adj, r2), mid, RoundColours(adj, r1), dom);
    }
    RefinesClassCount(RoundColours(adj, r2), RoundColours(adj, r1), dom);
  }

  /** `wl3_full`: the histogram of the final colours over all n * n * n triples. */
  function Wl3Histogram(adj: seq<seq<nat>>, rounds: int): (h: multiset<Colour>)
    ensures |h| == |adj| * |adj| * |adj|
    ensures rounds <= 0 ==> h == Histogram(InitColours(adj), Tuples(|adj|, 3))
    ensures forall x :: x in h <==> x in RoundColours(adj, rounds).Values
    ensures h == Histogram(RoundColours(adj, rounds), Tuples(|adj|, 3))
  {
    var col, dom := RoundColours(adj, rounds), Tuples(|adj|, 3);
    TriplesAll(|adj|);
    assert Pow(|adj|, 3) == |adj| * |adj| * |adj| by {
      assert Pow(|adj|, 1) == |adj|;
      assert Pow(|adj|, 2) == |adj| * |adj|;
    }
    assert forall x :: x in col.Values <==> exists t :: t in dom && col[t] == x by {
      forall x | x in col.Values ensures exists t :: t in dom && col[t] == x {
        var t :| t in col && col[t] == x;
        assert t in dom;
      }
    }
    Histogram(col, dom)
  }

  /** The largest instance `main` accepts. */
  const MaxVertices: nat := 18

  datatype Wl3Error = LoadFailed(load: GraphIO.LoadError) | TooLarge(n: nat)

  /** `main` after argument parsing: load the graph, refuse more than 18 vertices before any
      refinement, then count. */
  function Wl3Main(lines: seq<string>, rounds: int): (r: Result<multiset<Colour>, Wl3Error>)
    ensures GraphIO.ReadEdgelist(lines).Failure? <==> r.Failure? && r.error.LoadFailed?
    ensures r.Failure? && r.error.TooLarge? <==>
      (GraphIO.ReadEdgelist(lines).Success? && |GraphIO.ReadEdgelist(lines).value.0| > MaxVertices)
    ensures r.Failure? && r.error.TooLarge? ==> r.error.n == |GraphIO.ReadEdgelist(lines).value.0|
    ensures r.Success? ==> |GraphIO.ReadEdgelist(lines).value.0| <= MaxVertices
    ensures r.Success? ==> var n := |GraphIO.ReadEdgelist(lines).value.0|; |r.value| == n * n * n
    ensures r.Success? ==> GraphIO.LoadAdj(lines).Success? && r.value == Wl3Histogram(GraphIO.LoadAdj(lines).value, rounds)
  {
    match GraphIO.LoadAdj(lines)
    case Failure(e) => Failure(LoadFailed(e))
    case Success(adj) =>
      if |adj| > MaxVertices then Failure(TooLarge(|adj|))
      else Success(Wl3Histogram(adj, rounds))
  }
}
