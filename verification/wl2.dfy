/** Exact 2-dimensional refinement on ordered vertex pairs (scripts/wl2_full.py). A pair
    `(i, j)` is the key `[i, j]`; a colouring is defined on exactly the pairs over [0, n). */
module Wl2Full {
  import opened Wrappers
  import opened Sorting
  import opened TupleSpace
  import opened Colours
  import opened Refinement
  import Palette
  import GraphIO

  type Colouring = map<seq<nat>, Colour>

  /** The colouring is keyed by exactly the ordered pairs over [0, n). */
  ghost predicate OnPairs(c: Colouring, n: nat) {
    forall t :: t in c <==> IsPair(t, n)
  }

  /** Round 0: is the pair on the diagonal, and is it an edge. */
  function InitColour(adj: seq<seq<nat>>, i: nat, j: nat): Colour
    requires i < |adj|
  {
    Pattern([if i == j then 1 else 0, GraphIO.HasEdge(adj, i, j)])
  }

  /** The first bit marks the diagonal and the second the edges, once the lists are sorted. */
  lemma InitColourMeaning(adj: seq<seq<nat>>, i: nat, j: nat)
    requires i < |adj|
    requires SortedBy(adj[i], GraphIO.NatLeq)
    ensures |InitColour(adj, i, j).bits| == 2
    ensures InitColour(adj, i, j).bits[0] == 1 <==> i == j
    ensures InitColour(adj, i, j).bits[1] == 1 <==> j in adj[i]
    ensures forall b :: b in InitColour(adj, i, j).bits ==> b == 0 || b == 1
  {
    GraphIO.HasEdgeMeansNeighbour(adj, i, j);
  }

  function InitColours(adj: seq<seq<nat>>): (c: Colouring)
    ensures OnPairs(c, |adj|)
    ensures forall t :: t in c ==> c[t] == InitColour(adj, t[0], t[1])
  {
    PairsAll(|adj|);
    map t | t in Tuples(|adj|, 2) :: InitColour(adj, t[0], t[1])
  }

  /** The signature `(base, tuple(sorted(agg)))` of one pair. */
  datatype Signature = Signature(base: Colour, agg: seq<(Colour, Colour)>)

  /** `[(colors[(i,w)], colors[(w,j)]) for w in range(n)]`, before sorting. */
  function Agg(c: Colouring, n: nat, i: nat, j: nat): (a: seq<(Colour, Colour)>)
    requires OnPairs(c, n) && i < n && j < n
    ensures |a| == n
  {
    seq(n, w requires 0 <= w < n => (c[[i, w]], c[[w, j]]))
  }

  function Sig(c: Colouring, n: nat, t: seq<nat>): Signature
    requires OnPairs(c, n) && IsPair(t, n)
  {
    PairLeqTotal();
    Signature(c[t], Sort(Agg(c, n, t[0], t[1]), PairLeq))
  }

  /** Sorting makes the signature depend on the multiset of pairs only: two signatures agree
      iff the old colours agree and the pairs agree up to the order of `w`. */
  lemma SigEqual(c: Colouring, n: nat, t: seq<nat>, t': seq<nat>)
    requires OnPairs(c, n) && IsPair(t, n) && IsPair(t', n)
    ensures Sig(c, n, t) == Sig(c, n, t') <==>
      (c[t] == c[t'] && multiset(Agg(c, n, t[0], t[1])) == multiset(Agg(c, n, t'[0], t'[1])))
  {
    PairLeqTotal();
    SortCanonical(Agg(c, n, t[0], t[1]), Agg(c, n, t'[0], t'[1]), PairLeq);
  }

  /** The signature of every pair. */
  function Sigs(c: Colouring, n: nat): (s: map<seq<nat>, Signature>)
    requires OnPairs(c, n)
    ensures forall t :: t in s <==> IsPair(t, n)
    ensures forall t :: t in s ==> s[t] == Sig(c, n, t)
  {
    PairsAll(n);
    map t | t in Tuples(n, 2) :: Sig(c, n, t)
  }

  /** The signatures in the order the loops over `i` and `j` meet them. */
  function SigSeq(c: Colouring, n: nat): seq<Signature>
    requires OnPairs(c, n)
  {
    PairsAll(n);
    Palette.Image(Tuples(n, 2), Sigs(c, n))
  }

  /** One round: each pair's new colour is the palette id of its signature. */
  function Refine(c: Colouring, n: nat): (r: Colouring)
    requires OnPairs(c, n)
    ensures OnPairs(r, n)
    ensures forall t :: t in r ==>
      (Sig(c, n, t) in Palette.Build(SigSeq(c, n)) && r[t] == Id(Palette.Build(SigSeq(c, n))[Sig(c, n, t)]))
    ensures forall t, t' :: t in r && t' in r ==> (r[t] == r[t'] <==> Sig(c, n, t) == Sig(c, n, t'))
    ensures forall t, t' :: t in r && t' in r && r[t] == r[t'] ==> c[t] == c[t']
  {
    PairsAll(n);
    var ids := Palette.Recolour(Tuples(n, 2), Sigs(c, n));
    map t | t in ids :: Id(ids[t])
  }

  /** The new colours are exactly the ids below the number of distinct signatures. */
  lemma RefineDense(c: Colouring, n: nat)
    requires OnPairs(c, n)
    ensures forall k: nat :: Id(k) in Refine(c, n).Values <==> k < |Elems(SigSeq(c, n))|
  {
    PairsAll(n);
    var dom, sig := Tuples(n, 2), Sigs(c, n);
    Palette.RecolourDense(dom, sig);
    var p := Palette.Build(Palette.Image(dom, sig));
    assert p.Keys == Elems(SigSeq(c, n));
    var ids := Palette.Recolour(dom, sig);
    forall k: nat ensures Id(k) in Refine(c, n).Values <==> k in ids.Values {
      if Id(k) in Refine(c, n).Values {
        var t :| t in Refine(c, n) && Refine(c, n)[t] == Id(k);
        assert ids[t] == k;
      }
      if k in ids.Values {
        var t :| t in ids && ids[t] == k;
        assert Refine(c, n)[t] == Id(k);
      }
    }
  }

  /** Ids are handed out in the order the loops first meet each signature. */
  lemma RefineFirstSeen(c: Colouring, n: nat, t: seq<nat>, t': seq<nat>)
    requires OnPairs(c, n) && IsPair(t, n) && IsPair(t', n)
    ensures Sig(c, n, t) in SigSeq(c, n) && Sig(c, n, t') in SigSeq(c, n)
    ensures Refine(c, n)[t].id < Refine(c, n)[t'].id <==>
      Palette.FirstIndex(SigSeq(c, n), Sig(c, n, t)) < Palette.FirstIndex(SigSeq(c, n), Sig(c, n, t'))
  {
    PairsAll(n);
    var sig := Sigs(c, n);
    Palette.RecolourFirstSeenAt(Tuples(n, 2), sig, t, t');
    assert sig[t] == Sig(c, n, t) && sig[t'] == Sig(c, n, t');
  }

  /** The colouring after `rounds` rounds; `range` of a negative count is empty. */
  function RoundColours(adj: seq<seq<nat>>, rounds: int): (c: Colouring)
    ensures OnPairs(c, |adj|)
    decreases rounds
  {
    if rounds <= 0 then InitColours(adj) else Refine(RoundColours(adj, rounds - 1), |adj|)
  }

  /** Later rounds refine earlier ones. */
  lemma {:induction false} ColoursRefine(adj: seq<seq<nat>>, r1: int, r2: int)
    requires r1 <= r2
    ensures Covers(RoundColours(adj, r1), Tuples(|adj|, 2)) && Covers(RoundColours(adj, r2), Tuples(|adj|, 2))
    ensures Refines(RoundColours(adj, r2), RoundColours(adj, r1), Tuples(|adj|, 2))
    ensures |Classes(RoundColours(adj, r1), Tuples(|adj|, 2))| <= |Classes(RoundColours(adj, r2), Tuples(|adj|, 2))|
    decreases r2 - r1
  {
    PairsAll(|adj|);
    var dom := Tuples(|adj|, 2);
    if r1 < r2 {
      ColoursRefine(adj, r1, r2 - 1);
      var mid := RoundColours(adj, r2 - 1);
      assert Refines(RoundColours(adj, r2), mid, dom);
      RefinesTransitive(RoundColours(adj, r2), mid, RoundColours(adj, r1), dom);
    }
    RefinesClassCount(RoundColours(adj, r2), RoundColours(adj, r1), dom);
  }

  /** `wl2_full_from_adj`: the histogram of the final colours over all n * n pairs. */
  function Wl2FullFromAdj(adj: seq<seq<nat>>, rounds: int): (h: multiset<Colour>)
    ensures |h| == |adj| * |adj|
    ensures rounds <= 0 ==> h == Histogram(InitColours(adj), Tuples(|adj|, 2))
    ensures forall x :: x in h <==> x in RoundColours(adj, rounds).Values
    ensures h == Histogram(RoundColours(adj, rounds), Tuples(|adj|, 2))
  {
    var c, dom := RoundColours(adj, rounds), Tuples(|adj|, 2);
    PairsAll(|adj|);
    assert Pow(|adj|, 2) == |adj| * |adj| by {
      assert Pow(|adj|, 1) == |adj|;
    }
    assert forall x :: x in c.Values <==> exists t :: t in dom && c[t] == x by {
      forall x | x in c.Values ensures exists t :: t in dom && c[t] == x {
        var t :| t in c && c[t] == x;
        assert t in dom;
      }
    }
    Histogram(c, dom)
  }

  /** `main` after argument parsing: read the edge list, build the adjacency, count. */
  function Wl2Main(lines: seq<string>, rounds: int): (r: Result<multiset<Colour>, GraphIO.LoadError>)
    ensures r.Success? <==> GraphIO.ReadEdgelist(lines).Success?
    ensures r.Success? ==> |r.value| == |GraphIO.ReadEdgelist(lines).value.0| * |GraphIO.ReadEdgelist(lines).value.0|
    ensures r.Success? ==> GraphIO.LoadAdj(lines).Success? && r.value == Wl2FullFromAdj(GraphIO.LoadAdj(lines).value, rounds)
  {
    match GraphIO.LoadAdj(lines)
    case Failure(e) => Failure(e)
    case Success(adj) => Success(Wl2FullFromAdj(adj, rounds))
  }
}
