/** The "sampled" driver (scripts/wl3_sampled.py): a forgiving edge-list reader, 1-dimensional
    colour refinement over the sorted vertices, and signatures of randomly drawn vertex
    triples. The random generator is an abstract stream of raw draws. */
module Wl3Sampled {
  import opened Wrappers
  import opened Sorting
  import opened Text
  import opened Refinement
  import opened Sampling
  import Palette
  import GraphIO

  /* ---------- Reading ---------- */

  /** What one line contributes: nothing, or the pair of its first two fields. */
  datatype Verdict = Skipped | Accepted(u: int, v: int)

  /** One step of the reader: blank lines, lines of fewer than two fields and lines whose
      first two fields are not both integers are skipped. Nothing else is checked: comment
      lines fall out because `#` is not an integer, and self-loops are kept. */
  function Classify(line: string): Verdict {
    var s := Strip(line);
    if |s| == 0 then Skipped
    else
      var parts := Split(s);
      if |parts| < 2 then Skipped
      else
        match (ParseInt(parts[0]), ParseInt(parts[1]))
        case (Some(u), Some(v)) => Accepted(u, v)
        case _ => Skipped
  }

  /** A line is accepted with `(u, v)` exactly when its first two fields read as `u` and `v`. */
  lemma ClassifyMeaning(line: string, u: int, v: int)
    ensures Classify(line) == Accepted(u, v) <==> GraphIO.ParsesTo(line, u, v)
  {
    var s := Strip(line);
    if |s| == 0 {
      SplitKeepsText(s);
    }
  }

  /** The pairs of the accepted verdicts, in order. */
  function Pairs(vs: seq<Verdict>): seq<(int, int)> {
    if |vs| == 0 then []
    else
      var rest := Pairs(vs[..|vs| - 1]);
      match vs[|vs| - 1]
      case Skipped => rest
      case Accepted(u, v) => rest + [(u, v)]
  }

  function Verdicts(lines: seq<string>): seq<Verdict> {
    seq(|lines|, i requires 0 <= i < |lines| => Classify(lines[i]))
  }

  /** The pairs of the accepted lines, in file order. */
  function AcceptedPairs(lines: seq<string>): seq<(int, int)> {
    Pairs(Verdicts(lines))
  }

  /** The `defaultdict(set)` adjacency, each set listed in the order its members arrived. */
  type Adjacency = map<int, seq<int>>

  predicate Linked(adj: Adjacency, w: int, x: int) {
    w in adj && x in adj[w]
  }

  /** `adj[u].add(v)`: creates the entry on first use and ignores a repeated member. */
  function AddNeighbour(adj: Adjacency, u: int, v: int): (r: Adjacency)
    ensures r.Keys == adj.Keys + {u}
    ensures forall w, x :: Linked(r, w, x) <==> Linked(adj, w, x) || (w == u && x == v)
    ensures (forall w :: w in adj ==> Distinct(adj[w])) ==> forall w :: w in r ==> Distinct(r[w])
  {
    if u !in adj then adj[u := [v]]
    else if v in adj[u] then adj
    else adj[u := adj[u] + [v]]
  }

  /** The two `add` calls of one accepted line. */
  function LinkBoth(adj: Adjacency, u: int, v: int): (r: Adjacency)
    requires forall w :: w in adj ==> |adj[w]| > 0 && Distinct(adj[w])
    ensures forall w :: w in r ==> |r[w]| > 0 && Distinct(r[w])
    ensures forall w, x :: Linked(r, w, x) <==> Linked(adj, w, x) || (w == u && x == v) || (w == v && x == u)
  {
    AddNeighbour(AddNeighbour(adj, u, v), v, u)
  }

  /** The reader's loop over the verdicts of the lines. */
  function Collect(vs: seq<Verdict>): (r: (Adjacency, nat))
    ensures r.1 + |Pairs(vs)| == |vs|
    ensures forall w, x :: Linked(r.0, w, x) <==> ((w, x) in Pairs(vs) || (x, w) in Pairs(vs))
    ensures forall w :: w in r.0 ==> |r.0[w]| > 0 && Distinct(r.0[w])
  {
    if |vs| == 0 then (map[], 0)
    else
      var prefix := vs[..|vs| - 1];
      var (adj, skipped) := Collect(prefix);
      match vs[|vs| - 1]
      case Skipped =>
        assert Pairs(vs) == Pairs(prefix);
        (adj, skipped + 1)
      case Accepted(u, v) =>
        var ps := Pairs(prefix);
        assert Pairs(vs) == ps + [(u, v)];
        assert forall p :: p in ps + [(u, v)] <==> p in ps || p == (u, v);
        (LinkBoth(adj, u, v), skipped)
  }

  /** `read_edgelist`: the adjacency and the number of skipped lines. Each accepted line
      links its two vertices both ways; every other line counts as skipped. */
  function ReadEdgelist(lines: seq<string>): (r: (Adjacency, nat))
    ensures r.1 + |AcceptedPairs(lines)| == |lines|
    ensures forall w, x :: Linked(r.0, w, x) <==>
      ((w, x) in AcceptedPairs(lines) || (x, w) in AcceptedPairs(lines))
    ensures forall w :: w in r.0 ==> |r.0[w]| > 0 && Distinct(r.0[w])
  {
    Collect(Verdicts(lines))
  }

  /** Every listed neighbour is itself a vertex. */
  ghost predicate Closed(adj: Adjacency) {
    forall w, x :: w in adj && x in adj[w] ==> x in adj
  }

  /** Each accepted line links both ways, so the adjacency is symmetric and closed. */
  lemma ReadSymmetric(lines: seq<string>)
    ensures forall w, x :: Linked(ReadEdgelist(lines).0, w, x) <==> Linked(ReadEdgelist(lines).0, x, w)
    ensures Closed(ReadEdgelist(lines).0)
  {
    var adj := ReadEdgelist(lines).0;
    forall w, x | w in adj && x in adj[w] ensures x in adj {
      assert Linked(adj, w, x) && Linked(adj, x, w);
    }
  }

  /** The graph has no vertex exactly when no line was accepted. */
  lemma ReadEmpty(lines: seq<string>)
    ensures |ReadEdgelist(lines).0| == 0 <==> AcceptedPairs(lines) == []
  {
    var adj := ReadEdgelist(lines).0;
    if AcceptedPairs(lines) != [] {
      var (u, v) := AcceptedPairs(lines)[0];
      assert Linked(adj, u, v);
    } else {
      assert adj.Keys == {} by {
        forall w | w in adj ensures false {
          assert Linked(adj, w, adj[w][0]);
        }
      }
    }
  }

  /* ---------- Sorted vertices ---------- */

  lemma Pick<T>(s: set<T>) returns (y: T)
    requires s != {}
    ensures y in s
  {
    y :| y in s;
  }

  lemma {:induction false} LeastOf(s: set<int>) returns (m: int)
    requires s != {}
    ensures m in s && forall x :: x in s ==> m <= x
    decreases |s|
  {
    var y := Pick(s);
    var t := s - {y};
    assert s == t + {y};
    if t == {} {
      m := y;
    } else {
      var k := LeastOf(t);
      m := if y < k then y else k;
      forall x | x in s ensures m <= x {
        if x != y {
          assert x in t;
        }
      }
    }
  }

  lemma MinExists(s: set<int>)
    requires s != {}
    ensures exists m :: m in s && forall x :: x in s ==> m <= x
  {
    var m := LeastOf(s);
  }

  function Min(s: set<int>): (m: int)
    requires s != {}
    ensures m in s && forall x :: x in s ==> m <= x
  {
    MinExists(s);
    var m :| m in s && forall x :: x in s ==> m <= x;
    m
  }

  /** `sorted(adj.keys())`. */
  function SortedKeys(s: set<int>): (r: seq<int>)
    ensures forall x :: x in r <==> x in s
    ensures |r| == |s|
    ensures StrictlySortedBy(r, IntLeq)
    decreases |s|
  {
    if s == {} then []
    else
      var m := Min(s);
      var rest := SortedKeys(s - {m});
      assert forall x :: x in [m] + rest <==> x == m || x in rest;
      [m] + rest
  }

  /* ---------- Vertex refinement ---------- */

  type VertexColouring = map<int, nat>

  /** `color[u] for u in xs`, in the order of `xs`. */
  function ColoursOf(col: VertexColouring, xs: seq<int>): (cs: seq<nat>)
    requires forall x :: x in xs ==> x in col
    ensures |cs| == |xs|
  {
    if |xs| == 0 then []
    else
      var x := xs[0];
      assert x in xs;
      assert x in col;
      [col[x]] + ColoursOf(col, xs[1..])
  }

  lemma {:induction false} ColoursOfAppend(col: VertexColouring, a: seq<int>, b: seq<int>)
    requires forall x :: x in a + b ==> x in col
    ensures ColoursOf(col, a + b) == ColoursOf(col, a) + ColoursOf(col, b)
    decreases |a|
  {
    if |a| == 0 {
      assert a + b == b;
    } else {
      assert (a + b)[1..] == a[1..] + b;
      assert forall x :: x in a[1..] + b ==> x in a + b;
      ColoursOfAppend(col, a[1..], b);
      assert (a + b)[0] == a[0];
    }
  }

  lemma ColoursOfRemoveAt(col: VertexColouring, ys: seq<int>, i: nat)
    requires i < |ys| && forall y :: y in ys ==> y in col
    ensures multiset(ColoursOf(col, ys)) == multiset(ColoursOf(col, RemoveAt(ys, i))) + multiset{col[ys[i]]}
  {
    assert ys == ys[..i] + ([ys[i]] + ys[i + 1..]);
    ColoursOfAppend(col, ys[..i], [ys[i]] + ys[i + 1..]);
    ColoursOfAppend(col, [ys[i]], ys[i + 1..]);
    ColoursOfAppend(col, ys[..i], ys[i + 1..]);
    assert ColoursOf(col, [ys[i]]) == [col[ys[i]]];
  }

  lemma UnionSwap<T>(a: multiset<T>, b: multiset<T>, c: multiset<T>)
    requires b == c
    ensures a + b == c + a
  {
  }

  /** Listing the same vertices in another order lists the same colours in another order. */
  lemma {:induction false} ColoursOfPermutation(col: VertexColouring, xs: seq<int>, ys: seq<int>)
    requires forall x :: x in xs ==> x in col
    requires forall y :: y in ys ==> y in col
    requires multiset(xs) == multiset(ys)
    ensures multiset(ColoursOf(col, xs)) == multiset(ColoursOf(col, ys))
    decreases |xs|
  {
    if |xs| == 0 {
      assert |ys| == |multiset(ys)|;
    } else {
      var x := xs[0];
      assert x in multiset(ys);
      var i :| 0 <= i < |ys| && ys[i] == x;
      var rest := RemoveAt(ys, i);
      assert multiset(xs[1..]) == multiset(rest) by {
        assert xs == [x] + xs[1..];
      }
      assert forall z :: z in xs[1..] ==> z in xs;
      ColoursOfPermutation(col, xs[1..], rest);
      ColoursOfRemoveAt(col, ys, i);
      var tail, left := ColoursOf(col, xs[1..]), ColoursOf(col, rest);
      var m := multiset{col[x]};
      assert ColoursOf(col, xs) == [col[x]] + tail;
      assert multiset(ColoursOf(col, xs)) == m + multiset(tail);
      assert multiset(ColoursOf(col, ys)) == multiset(left) + m;
      UnionSwap(m, multiset(tail), multiset(left));
    }
  }

  /** A duplicate-free list holds each of its members once. */
  lemma {:induction false} DistinctMultiset(xs: seq<int>)
    requires Distinct(xs)
    ensures forall z :: multiset(xs)[z] == if z in xs then 1 else 0
    decreases |xs|
  {
    if |xs| > 0 {
      assert xs == [xs[0]] + xs[1..];
      DistinctMultiset(xs[1..]);
      assert xs[0] !in xs[1..];
    }
  }

  /** A colouring of exactly the vertices. */
  ghost predicate SameKeys<V>(col: map<int, V>, adj: Adjacency) {
    forall v :: v in col <==> v in adj
  }

  /** `sorted(color[u] for u in xs)`. */
  function SortedColours(col: VertexColouring, xs: seq<int>): seq<nat>
    requires forall x :: x in xs ==> x in col
  {
    GraphIO.NatLeqTotal();
    Sort(ColoursOf(col, xs), GraphIO.NatLeq)
  }

  /** `sorted(color[u] for u in adj[v])` does not depend on the order in which the set
      `adj[v]` is iterated: any duplicate-free listing of the same members gives the same
      sorted colours. */
  lemma NeighbourOrderFree(col: VertexColouring, xs: seq<int>, ys: seq<int>)
    requires forall x :: x in xs ==> x in col
    requires Distinct(xs) && Distinct(ys) && Elems(xs) == Elems(ys)
    ensures forall y :: y in ys ==> y in col
    ensures SortedColours(col, xs) == SortedColours(col, ys)
  {
    GraphIO.NatLeqTotal();
    DistinctMultiset(xs);
    DistinctMultiset(ys);
    assert forall z :: z in xs <==> z in ys by {
      forall z ensures z in xs <==> z in ys {
        assert z in xs <==> z in Elems(xs);
        assert z in ys <==> z in Elems(ys);
      }
    }
    assert multiset(xs) == multiset(ys);
    assert forall y :: y in ys ==> y in xs;
    ColoursOfPermutation(col, xs, ys);
    SortCanonical(ColoursOf(col, xs), ColoursOf(col, ys), GraphIO.NatLeq);
  }

  /** `sorted(color[u] for u in adj[v])`. */
  function NeighbourColours(adj: Adjacency, col: VertexColouring, v: int): seq<nat>
    requires Closed(adj) && SameKeys(col, adj) && v in adj
  {
    SortedColours(col, adj[v])
  }

  /** `(color[v], tuple(neigh_colors))`. */
  datatype VertexSig = VertexSig(own: nat, neighbours: seq<nat>)

  function VertexSigs(adj: Adjacency, col: VertexColouring): (s: map<int, VertexSig>)
    requires Closed(adj) && SameKeys(col, adj)
    ensures forall v :: v in s <==> v in adj
    ensures forall v :: v in s ==> s[v] == VertexSig(col[v], NeighbourColours(adj, col, v))
  {
    map v | v in adj :: VertexSig(col[v], NeighbourColours(adj, col, v))
  }

  /** `nodes` lists exactly the vertices. */
  ghost predicate Lists(nodes: seq<int>, adj: Adjacency) {
    forall v :: v in nodes <==> v in adj
  }

  /** The signatures in the order `for v in nodes` meets them. */
  function VertexSigSeq(adj: Adjacency, nodes: seq<int>, col: VertexColouring): seq<VertexSig>
    requires Closed(adj) && SameKeys(col, adj) && Lists(nodes, adj)
  {
    Palette.Image(nodes, VertexSigs(adj, col))
  }

  lemma ListedSigned(adj: Adjacency, nodes: seq<int>, col: VertexColouring)
    requires Closed(adj) && SameKeys(col, adj) && Lists(nodes, adj)
    ensures Covers(VertexSigs(adj, col), nodes)
  {
    forall v | v in nodes ensures v in VertexSigs(adj, col) {
      assert v in adj;
    }
  }

  /** One round over `nodes` with a fresh palette. */
  function RefineVertices(adj: Adjacency, nodes: seq<int>, col: VertexColouring): (r: VertexColouring)
    requires Closed(adj) && SameKeys(col, adj) && Lists(nodes, adj)
    ensures SameKeys(r, adj)
    ensures forall v :: v in r ==>
      (VertexSigs(adj, col)[v] in Palette.Build(VertexSigSeq(adj, nodes, col)) &&
       r[v] == Palette.Build(VertexSigSeq(adj, nodes, col))[VertexSigs(adj, col)[v]])
    ensures forall v, w :: v in r && w in r ==> (r[v] == r[w] <==> VertexSigs(adj, col)[v] == VertexSigs(adj, col)[w])
    ensures forall v, w :: v in r && w in r && r[v] == r[w] ==> col[v] == col[w]
  {
    Palette.Recolour(nodes, VertexSigs(adj, col))
  }

  /** The new colours are exactly `0 .. next_id - 1`, one per distinct signature. */
  lemma RefineVerticesDense(adj: Adjacency, nodes: seq<int>, col: VertexColouring)
    requires Closed(adj) && SameKeys(col, adj) && Lists(nodes, adj)
    ensures forall k :: k in RefineVertices(adj, nodes, col).Values <==>
      0 <= k < |Elems(VertexSigSeq(adj, nodes, col))|
  {
    var sig := VertexSigs(adj, col);
    ListedSigned(adj, nodes, col);
    Palette.RecolourDense(nodes, sig);
    Palette.BuildSize(Palette.Image(nodes, sig));
  }

  /** Ids follow the order in which `nodes` first shows each signature. */
  lemma RefineVerticesFirstSeen(adj: Adjacency, nodes: seq<int>, col: VertexColouring, v: int, w: int)
    requires Closed(adj) && SameKeys(col, adj) && Lists(nodes, adj)
    requires v in adj && w in adj
    ensures VertexSigs(adj, col)[v] in VertexSigSeq(adj, nodes, col)
    ensures VertexSigs(adj, col)[w] in VertexSigSeq(adj, nodes, col)
    ensures RefineVertices(adj, nodes, col)[v] < RefineVertices(adj, nodes, col)[w] <==>
      Palette.FirstIndex(VertexSigSeq(adj, nodes, col), VertexSigs(adj, col)[v]) <
      Palette.FirstIndex(VertexSigSeq(adj, nodes, col), VertexSigs(adj, col)[w])
  {
    ListedSigned(adj, nodes, col);
    Palette.RecolourFirstSeenAt(nodes, VertexSigs(adj, col), v, w);
  }

  /** The colouring after `iters` rounds, starting from colour 0 everywhere. */
  function VertexColours(adj: Adjacency, nodes: seq<int>, iters: int): (col: VertexColouring)
    requires Closed(adj) && Lists(nodes, adj)
    ensures SameKeys(col, adj)
    ensures iters <= 0 ==> forall v :: v in col ==> col[v] == 0
    decreases iters
  {
    if iters <= 0 then map v | v in adj :: 0
    else RefineVertices(adj, nodes, VertexColours(adj, nodes, iters - 1))
  }

  /** A colouring of the vertices is defined on all of `nodes`. */
  lemma ListedCovered(adj: Adjacency, nodes: seq<int>, col: VertexColouring)
    requires SameKeys(col, adj) && Lists(nodes, adj)
    ensures Covers(col, nodes)
  {
    forall v | v in nodes ensures v in col {
      assert v in adj;
    }
  }

  /** One round never merges vertices that had different colours. */
  lemma RefineVerticesRefines(adj: Adjacency, nodes: seq<int>, col: VertexColouring)
    requires Closed(adj) && SameKeys(col, adj) && Lists(nodes, adj)
    ensures Covers(RefineVertices(adj, nodes, col), nodes) && Covers(col, nodes)
    ensures Refines(RefineVertices(adj, nodes, col), col, nodes)
  {
    var r := RefineVertices(adj, nodes, col);
    ListedCovered(adj, nodes, col);
    ListedCovered(adj, nodes, r);
    forall v, w | v in nodes && w in nodes && r[v] == r[w] ensures col[v] == col[w] {
      assert v in r && w in r;
    }
  }

  /** Every round refines the one before, so the number of colours never drops. */
  lemma {:induction false} VertexColoursRefine(adj: Adjacency, nodes: seq<int>, i1: int, i2: int)
    requires Closed(adj) && Lists(nodes, adj) && i1 <= i2
    ensures Covers(VertexColours(adj, nodes, i1), nodes) && Covers(VertexColours(adj, nodes, i2), nodes)
    ensures Refines(VertexColours(adj, nodes, i2), VertexColours(adj, nodes, i1), nodes)
    ensures |Classes(VertexColours(adj, nodes, i1), nodes)| <= |Classes(VertexColours(adj, nodes, i2), nodes)|
    decreases i2 - i1
  {
    var fine, coarse := VertexColours(adj, nodes, i2), VertexColours(adj, nodes, i1);
    ListedCovered(adj, nodes, fine);
    ListedCovered(adj, nodes, coarse);
    if i1 < i2 {
      VertexColoursRefine(adj, nodes, i1, i2 - 1);
      var mid := VertexColours(adj, nodes, i2 - 1);
      RefineVerticesRefines(adj, nodes, mid);
      RefinesTransitive(fine, mid, coarse, nodes);
    }
    RefinesClassCount(fine, coarse, nodes);
  }

  /** The `k`-th sample consumes raw draws `3k`, `3k + 1` and `3k + 2`. */
  function Triple(nodes: seq<int>, draw: nat -> nat, k: nat): (int, int, int)
    requires |nodes| > 0
  {
    SampleThree(nodes, draw(3 * k), draw(3 * k + 1), draw(3 * k + 2))
  }

  /** `(color[a], color[b], color[c], sorted neighbour colours of a, of b, of c)`; the model
      keeps the tuple where the program keeps only its `hash`. */
  datatype SampleSig = SampleSig(ca: nat, cb: nat, cc: nat, na: seq<nat>, nb: seq<nat>, nc: seq<nat>)

  function TripleSig(adj: Adjacency, col: VertexColouring, t: (int, int, int)): SampleSig
    requires Closed(adj) && SameKeys(col, adj) && t.0 in adj && t.1 in adj && t.2 in adj
  {
    var (a, b, c) := t;
    assert a in adj && b in adj && c in adj;
    SampleSig(col[a], col[b], col[c],
      NeighbourColours(adj, col, t.0), NeighbourColours(adj, col, t.1), NeighbourColours(adj, col, t.2))
  }

  /** Drawn triples are vertices, pairwise distinct when there are at least three. */
  lemma TripleDrawn(adj: Adjacency, nodes: seq<int>, draw: nat -> nat, k: nat)
    requires Lists(nodes, adj) && Distinct(nodes) && |nodes| > 0
    ensures Triple(nodes, draw, k).0 in adj && Triple(nodes, draw, k).1 in adj && Triple(nodes, draw, k).2 in adj
    ensures |adj| >= 3 ==>
      (Triple(nodes, draw, k).0 != Triple(nodes, draw, k).1 && Triple(nodes, draw, k).0 != Triple(nodes, draw, k).2 &&
       Triple(nodes, draw, k).1 != Triple(nodes, draw, k).2)
  {
    var t := Triple(nodes, draw, k);
    assert t.0 in nodes && t.1 in nodes && t.2 in nodes;
    if |adj| >= 3 {
      forall v ensures v in adj.Keys <==> v in Elems(nodes) {
        assert v in nodes <==> v in adj;
      }
      assert adj.Keys == Elems(nodes);
      DistinctCard(nodes);
    }
  }

  /** The sample loop: `m` signatures, the `k`-th over the `k`-th drawn triple. */
  function DrawSamples(adj: Adjacency, nodes: seq<int>, col: VertexColouring, m: nat, draw: nat -> nat): (r: seq<SampleSig>)
    requires Closed(adj) && SameKeys(col, adj) && Lists(nodes, adj) && Distinct(nodes) && |nodes| > 0
    ensures |r| == m
  {
    seq(m, k requires 0 <= k < m =>
      TripleDrawn(adj, nodes, draw, k);
      TripleSig(adj, col, Triple(nodes, draw, k)))
  }

  /** `wl3_sampled` without `depth`, which the program never reads: the signatures of
      `samples` triples drawn after `iters` rounds over the sorted vertices, and no samples
      at all for an empty graph. */
  function Wl3Sampled(adj: Adjacency, iters: int, samples: int, draw: nat -> nat): (r: seq<SampleSig>)
    requires Closed(adj)
    ensures |adj| == 0 ==> r == []
    ensures |adj| > 0 ==> |r| == if samples < 0 then 0 else samples
  {
    var nodes := SortedKeys(adj.Keys);
    if |nodes| == 0 then []
    else
      var m := if samples < 0 then 0 else samples;
      DrawSamples(adj, nodes, VertexColours(adj, nodes, iters), m, draw)
  }

  /** What the `k`-th sample is: the signature, under the colouring after `iters` rounds, of
      the `k`-th triple drawn from the sorted vertices. */
  lemma Wl3SampledAt(adj: Adjacency, iters: int, samples: int, draw: nat -> nat, k: nat)
    requires Closed(adj) && |adj| > 0 && k < samples
    ensures var nodes := SortedKeys(adj.Keys);
      |nodes| > 0 && k < |Wl3Sampled(adj, iters, samples, draw)| &&
      Triple(nodes, draw, k).0 in adj && Triple(nodes, draw, k).1 in adj && Triple(nodes, draw, k).2 in adj &&
      Wl3Sampled(adj, iters, samples, draw)[k] == TripleSig(adj, VertexColours(adj, nodes, iters), Triple(nodes, draw, k))
  {
    var nodes := SortedKeys(adj.Keys);
    assert Lists(nodes, adj);
    TripleDrawn(adj, nodes, draw, k);
  }

  /* ---------- Counting ---------- */

  /** `collapsed[k] = 1 for k in Counter(samples_out)`: the keys of the raw counter, each
      counted once. */
  function Collapse<T(!new)>(raw: seq<T>): (c: map<T, nat>)
    ensures forall x :: x in c <==> multiset(raw)[x] > 0
    ensures forall x :: x in c ==> c[x] == 1
  {
    map x | x in raw :: 1
  }

  /** The collapsed counter depends only on the multiset of samples, not on their order. */
  lemma CollapseOrderFree<T(!new)>(a: seq<T>, b: seq<T>)
    requires multiset(a) == multiset(b)
    ensures Collapse(a) == Collapse(b)
  {
    assert forall x :: x in Collapse(a) <==> x in Collapse(b);
  }

  /** `main` after argument parsing: read, refine, sample, collapse. */
  function Wl3SampledMain(lines: seq<string>, iters: int, samples: int, draw: nat -> nat): (r: map<SampleSig, nat>)
    ensures forall x :: x in r ==> r[x] == 1
    ensures AcceptedPairs(lines) == [] ==> r == map[]
    ensures AcceptedPairs(lines) != [] && samples > 0 ==> |r| > 0
    ensures Closed(ReadEdgelist(lines).0) && r == Collapse(Wl3Sampled(ReadEdgelist(lines).0, iters, samples, draw))
  {
    var adj := ReadEdgelist(lines).0;
    ReadSymmetric(lines);
    ReadEmpty(lines);
    var raw := Wl3Sampled(adj, iters, samples, draw);
    assert samples > 0 && |adj| > 0 ==> raw[0] in Collapse(raw);
    Collapse(raw)
  }
}
