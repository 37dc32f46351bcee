/** The Cai–Fürer–Immerman construction over a cubic base graph (scripts/cfi.py).

    Every base vertex u becomes a gadget with two kinds of vertex. There are four middle vertices
    `G(u, mask)`, one per 3-bit mask of even weight. There are two end vertices `X(u, e, 0)` and
    `X(u, e, 1)` for each edge e at u. A middle vertex is joined to the end vertex of its i-th
    edge that bit i of its mask selects. Each base edge joins the end vertices of its two gadgets,
    either straight across or crossed when the edge is twisted. An odd parity twists the smallest
    base edge. Output vertices are numbered in the order the builder first names them. */
module Cfi {
  import opened Wrappers
  import opened Sorting
  import opened GraphIO
  import Palette

  /** `EVEN_MASKS_DEG3`. */
  const EvenMasks: seq<nat> := [0, 3, 5, 6]

  /** `2 ** i`, the divisor that `mask >> i` stands for. */
  function TwoTo(i: nat): (p: nat)
    ensures p > 0
  {
    if i == 0 then 1 else 2 * TwoTo(i - 1)
  }

  /** `(mask >> i) & 1` for a non-negative mask. */
  function Bit(mask: nat, i: nat): (b: nat)
    ensures b == 0 || b == 1
  {
    (mask / TwoTo(i)) % 2
  }

  /** The number of ones among the low three bits. */
  function Weight(mask: nat): nat {
    Bit(mask, 0) + Bit(mask, 1) + Bit(mask, 2)
  }

  /** The gadget's masks are exactly the 3-bit masks of even weight. */
  lemma EvenMasksExact(mask: nat)
    requires mask < 8
    ensures mask in EvenMasks <==> Weight(mask) % 2 == 0
  {
    assert TwoTo(0) == 1 && TwoTo(1) == 2 && TwoTo(2) == 4;
  }

  /** Why the builder stops: the reader's `ValueError`, the `KeyError` of `build_adj` (which
      a graph read from a file never raises), the `SystemExit` of the degree check, or the
      `IndexError` of `E[0]` when an odd parity asks to twist an edge of an empty graph. */
  datatype CfiError =
    | Unreadable(read: ReadError)
    | UnknownEndpoint(adj: AdjError)
    | NotCubic(u: int, deg: nat)
    | NoEdgeToTwist

  /** The position of the first vertex whose degree is not 3, or `|adj|` when there is none. */
  function FirstIrregular(adj: seq<seq<nat>>): (i: nat)
    ensures i <= |adj|
    ensures forall k :: 0 <= k < i ==> |adj[k]| == 3
    ensures i < |adj| ==> |adj[i]| != 3
  {
    if |adj| == 0 then 0
    else if |adj[0]| != 3 then 0
    else 1 + FirstIrregular(adj[1..])
  }

  /** What the vertex loop relies on: one list per vertex, three neighbours each, all in range. */
  predicate Cubic(nodes: seq<int>, adj: seq<seq<nat>>) {
    && |adj| == |nodes|
    && (forall i :: 0 <= i < |adj| ==> |adj[i]| == 3)
    && (forall i, j :: 0 <= i < |adj| && j in adj[i] ==> j < |nodes|)
  }

  /** `neigh[u]`: the labels of the neighbours of `nodes[i]`, ascending. */
  function Neigh(nodes: seq<int>, adj: seq<seq<nat>>, i: nat): (r: seq<int>)
    requires Cubic(nodes, adj) && i < |adj|
    ensures |r| == 3 && SortedBy(r, IntLeq)
  {
    IntLeqTotal();
    assert forall k :: 0 <= k < 3 ==> adj[i][k] in adj[i];
    Sort(seq(3, k requires 0 <= k < 3 => nodes[adj[i][k]]), IntLeq)
  }

  /** The labels in `neigh[u]` are those of the neighbours of `nodes[i]`. */
  lemma NeighHas(nodes: seq<int>, adj: seq<seq<nat>>, i: nat, x: int)
    requires Cubic(nodes, adj) && i < |adj|
    ensures x in Neigh(nodes, adj, i) <==> exists j :: j in adj[i] && x == nodes[j]
  {
    assert forall k :: 0 <= k < 3 ==> adj[i][k] in adj[i];
    var labels := seq(3, k requires 0 <= k < 3 => nodes[adj[i][k]]);
    IntLeqTotal();
    assert Neigh(nodes, adj, i) == Sort(labels, IntLeq);
    assert x in Neigh(nodes, adj, i) <==> x in labels by {
      assert x in Neigh(nodes, adj, i) <==> x in multiset(Neigh(nodes, adj, i));
    }
    if exists j :: j in adj[i] && x == nodes[j] {
      var j :| j in adj[i] && x == nodes[j];
      var k :| 0 <= k < 3 && adj[i][k] == j;
      assert labels[k] == x;
    }
  }

  /** `inc_edges`: the edge to each neighbour, in neighbour order. */
  function Incident(nodes: seq<int>, adj: seq<seq<nat>>, i: nat): (inc: seq<Edge>)
    requires Cubic(nodes, adj) && i < |adj|
    ensures |inc| == 3
  {
    var nu := Neigh(nodes, adj, i);
    [Normalise(nodes[i], nu[0]), Normalise(nodes[i], nu[1]), Normalise(nodes[i], nu[2])]
  }

  /** One list of three incident edges per vertex. */
  predicate Shaped(us: seq<int>, incs: seq<seq<Edge>>) {
    |incs| == |us| && forall i :: 0 <= i < |incs| ==> |incs[i]| == 3
  }

  /** `inc_edges` of every vertex. */
  function Incidence(nodes: seq<int>, adj: seq<seq<nat>>): (incs: seq<seq<Edge>>)
    requires Cubic(nodes, adj)
    ensures Shaped(nodes, incs)
    ensures forall i :: 0 <= i < |nodes| ==> incs[i] == Incident(nodes, adj, i)
  {
    seq(|nodes|, i requires 0 <= i < |nodes| => Incident(nodes, adj, i))
  }

  /** `E`: the base edges, each smaller end first, sorted and without repeats. */
  function CanonicalEdges(edges: seq<Edge>): (es: seq<Edge>)
    ensures StrictlySortedBy(es, EdgeLeq)
    ensures forall e :: e in es <==> e in Oriented(edges)
    ensures forall e :: e in es ==> e.0 <= e.1
  {
    EdgeLeqTotal();
    var es := SortDedup(Oriented(edges), EdgeLeq);
    assert forall e :: e in es <==> e in Elems(es);
    es
  }

  /** An odd parity can only be met when there is an edge to twist. */
  predicate TwistPossible(edges: seq<Edge>, parity: int) {
    parity % 2 == 1 ==> |CanonicalEdges(edges)| > 0
  }

  /** `twist`: the smallest edge when the parity is odd, nothing otherwise. Python's `%` agrees
      with Dafny's for a positive divisor. */
  function Twist(es: seq<Edge>, parity: int): set<Edge>
    requires parity % 2 == 1 ==> |es| > 0
  {
    if parity % 2 == 1 then {es[0]} else {}
  }

  /** An odd parity twists one edge, an even one none. */
  lemma TwistSize(es: seq<Edge>, parity: int)
    requires parity % 2 == 1 ==> |es| > 0
    ensures |Twist(es, parity)| == parity % 2
  {
  }

  /** The tuples `nid` names: `("G", u, mask)` and `("X", u, e, b)`. */
  datatype Tag = G(u: int, mask: nat) | X(u: int, e: Edge, b: nat)

  /** The tags the vertex loop names for `u`: the four middle vertices, then both end vertices
      of each incident edge. */
  function VertexTags(u: int, inc: seq<Edge>): seq<Tag>
    requires |inc| == 3
  {
    [G(u, EvenMasks[0]), G(u, EvenMasks[1]), G(u, EvenMasks[2]), G(u, EvenMasks[3]),
     X(u, inc[0], 0), X(u, inc[0], 1), X(u, inc[1], 0), X(u, inc[1], 1), X(u, inc[2], 0), X(u, inc[2], 1)]
  }

  /** The tags the edge loop names for `e = (a, b)`: `xa0, xa1, xb0, xb1`. */
  function EdgeTags(e: Edge): seq<Tag> {
    [X(e.0, e, 0), X(e.0, e, 1), X(e.1, e, 0), X(e.1, e, 1)]
  }

  /** Concatenation of a list of lists. */
  function Flatten<T>(xss: seq<seq<T>>): seq<T> {
    if |xss| == 0 then [] else xss[0] + Flatten(xss[1..])
  }

  lemma {:induction false} FlattenHas<T>(xss: seq<seq<T>>, x: T)
    ensures x in Flatten(xss) <==> exists i :: 0 <= i < |xss| && x in xss[i]
  {
    if |xss| > 0 {
      FlattenHas(xss[1..], x);
      assert forall i :: 1 <= i < |xss| ==> xss[i] == xss[1..][i - 1];
      if x in Flatten(xss[1..]) {
        var i :| 0 <= i < |xss[1..]| && x in xss[1..][i];
        assert x in xss[i + 1];
      }
    }
  }

  /** Every block of length `len` contributes `len` entries. */
  lemma {:induction false} FlattenLength<T>(xss: seq<seq<T>>, len: nat)
    requires forall i :: 0 <= i < |xss| ==> |xss[i]| == len
    ensures |Flatten(xss)| == len * |xss|
  {
    if |xss| > 0 {
      FlattenLength(xss[1..], len);
    }
  }

  /** One block of tags per base vertex, and one per base edge. */
  function VertexBlocks(us: seq<int>, incs: seq<seq<Edge>>): (r: seq<seq<Tag>>)
    requires Shaped(us, incs)
    ensures |r| == |us|
    ensures forall i :: 0 <= i < |us| ==> r[i] == VertexTags(us[i], incs[i])
  {
    seq(|us|, i requires 0 <= i < |us| => VertexTags(us[i], incs[i]))
  }

  function EdgeBlocks(es: seq<Edge>): (r: seq<seq<Tag>>)
    ensures |r| == |es|
    ensures forall k :: 0 <= k < |es| ==> r[k] == EdgeTags(es[k])
  {
    seq(|es|, k requires 0 <= k < |es| => EdgeTags(es[k]))
  }

  /** Every tag `nid` sees, in call order: the vertex loop, then the edge loop. */
  function VertexTagSeq(us: seq<int>, incs: seq<seq<Edge>>): seq<Tag>
    requires Shaped(us, incs)
  {
    Flatten(VertexBlocks(us, incs))
  }

  function EdgeTagSeq(es: seq<Edge>): seq<Tag> {
    Flatten(EdgeBlocks(es))
  }

  function AllTags(us: seq<int>, incs: seq<seq<Edge>>, es: seq<Edge>): seq<Tag>
    requires Shaped(us, incs)
  {
    VertexTagSeq(us, incs) + EdgeTagSeq(es)
  }

  /** The gadget call for mask `EvenMasks[q]` and position `k`: the middle vertex and the end
      vertex of edge `k` that bit `k` selects. */
  function Spoke(u: int, inc: seq<Edge>, q: nat, k: nat): (Tag, Tag)
    requires |inc| == 3 && q < 4 && k < 3
  {
    (G(u, EvenMasks[q]), X(u, inc[k], Bit(EvenMasks[q], k)))
  }

  /** The gadget calls of `add` for `u`: for each mask, for each position. */
  function GadgetCalls(u: int, inc: seq<Edge>): seq<(Tag, Tag)>
    requires |inc| == 3
  {
    [Spoke(u, inc, 0, 0), Spoke(u, inc, 0, 1), Spoke(u, inc, 0, 2),
     Spoke(u, inc, 1, 0), Spoke(u, inc, 1, 1), Spoke(u, inc, 1, 2),
     Spoke(u, inc, 2, 0), Spoke(u, inc, 2, 1), Spoke(u, inc, 2, 2),
     Spoke(u, inc, 3, 0), Spoke(u, inc, 3, 1), Spoke(u, inc, 3, 2)]
  }

  lemma GadgetCallsHas(u: int, inc: seq<Edge>, c: (Tag, Tag))
    requires |inc| == 3
    ensures c in GadgetCalls(u, inc) <==> exists q, k :: 0 <= q < 4 && 0 <= k < 3 && c == Spoke(u, inc, q, k)
  {
    if exists q, k :: 0 <= q < 4 && 0 <= k < 3 && c == Spoke(u, inc, q, k) {
      var q, k :| 0 <= q < 4 && 0 <= k < 3 && c == Spoke(u, inc, q, k);
      assert GadgetCalls(u, inc)[3 * q + k] == c;
    }
  }

  /** The two connector calls of `add` for `e = (a, b)`, crossed when `e` is twisted. */
  function ConnectorCalls(e: Edge, twisted: bool): seq<(Tag, Tag)> {
    if twisted then [(X(e.0, e, 0), X(e.1, e, 1)), (X(e.0, e, 1), X(e.1, e, 0))]
    else [(X(e.0, e, 0), X(e.1, e, 0)), (X(e.0, e, 1), X(e.1, e, 1))]
  }

  /** The calls of the vertex loop, one block per base vertex, and of the edge loop, one
      block per base edge. */
  function GadgetBlocks(us: seq<int>, incs: seq<seq<Edge>>): (r: seq<seq<(Tag, Tag)>>)
    requires Shaped(us, incs)
    ensures |r| == |us|
    ensures forall i :: 0 <= i < |us| ==> r[i] == GadgetCalls(us[i], incs[i])
  {
    seq(|us|, i requires 0 <= i < |us| => GadgetCalls(us[i], incs[i]))
  }

  function ConnectorBlocks(es: seq<Edge>, twist: set<Edge>): (r: seq<seq<(Tag, Tag)>>)
    ensures |r| == |es|
    ensures forall k :: 0 <= k < |es| ==> r[k] == ConnectorCalls(es[k], es[k] in twist)
  {
    seq(|es|, k requires 0 <= k < |es| => ConnectorCalls(es[k], es[k] in twist))
  }

  function TagCalls(us: seq<int>, incs: seq<seq<Edge>>, es: seq<Edge>, twist: set<Edge>): seq<(Tag, Tag)>
    requires Shaped(us, incs)
  {
    Flatten(GadgetBlocks(us, incs)) + Flatten(ConnectorBlocks(es, twist))
  }

  /** Both tags of every call have been named. */
  predicate Named(tags: seq<Tag>, calls: seq<(Tag, Tag)>) {
    forall k :: 0 <= k < |calls| ==> calls[k].0 in tags && calls[k].1 in tags
  }

  /** `add` over a run of calls: a pair of equal ids is dropped, any other pair is stored with
      the smaller id first. */
  function Added(calls: seq<(nat, nat)>): (out: seq<Edge>)
    ensures forall e :: e in out ==> e.0 < e.1
    ensures forall e :: e in out <==>
      exists k :: 0 <= k < |calls| && calls[k].0 != calls[k].1 && e == Normalise(calls[k].0, calls[k].1)
    decreases |calls|
  {
    if |calls| == 0 then []
    else
      var last := calls[|calls| - 1];
      var prefix := calls[..|calls| - 1];
      var out := Added(prefix) + if last.0 == last.1 then [] else [Normalise(last.0, last.1)];
      assert forall k :: 0 <= k < |prefix| ==> prefix[k] == calls[k];
      out
  }

  /** The ids `nid` gives the two tags of every call. */
  function IdCalls(tags: seq<Tag>, calls: seq<(Tag, Tag)>): (ids: seq<(nat, nat)>)
    requires Named(tags, calls)
    ensures |ids| == |calls|
  {
    var names := Palette.Build(tags);
    seq(|calls|, k requires 0 <= k < |calls| => (names[calls[k].0], names[calls[k].1]))
  }

  /** The result: `next_id` vertices, the sorted deduplicated `out_edges`, and `len(twist)`. */
  datatype CfiGraph = CfiGraph(n: nat, edges: seq<Edge>, twists: nat)

  /** `sorted(set(out_edges))` after both loops: every call's two ids, through `add`. */
  function Wired(tags: seq<Tag>, calls: seq<(Tag, Tag)>): (out: seq<Edge>)
    requires Named(tags, calls)
    ensures StrictlySortedBy(out, EdgeLeq)
    ensures forall e :: e in out ==> 0 <= e.0 < e.1 < |Palette.Build(tags)|
  {
    EdgeLeqTotal();
    var ids := IdCalls(tags, calls);
    var out := SortDedup(Added(ids), EdgeLeq);
    forall e | e in out ensures 0 <= e.0 < e.1 < |Palette.Build(tags)| {
      assert e in Elems(Added(ids));
      var k :| 0 <= k < |ids| && ids[k].0 != ids[k].1 && e == Normalise(ids[k].0, ids[k].1);
      assert ids[k].0 < |Palette.Build(tags)| && ids[k].1 < |Palette.Build(tags)|;
    }
    out
  }

  /** A call of two different tags leaves the edge between their ids in the output. */
  lemma CallWired(tags: seq<Tag>, calls: seq<(Tag, Tag)>, c: (Tag, Tag))
    requires Named(tags, calls) && c in calls && c.0 != c.1
    ensures c.0 in Palette.Build(tags) && c.1 in Palette.Build(tags)
    ensures Normalise(Palette.Build(tags)[c.0], Palette.Build(tags)[c.1]) in Wired(tags, calls)
  {
    Palette.BuildInjective(tags);
    var k :| 0 <= k < |calls| && calls[k] == c;
    var ids := IdCalls(tags, calls);
    assert ids[k].0 != ids[k].1;
    assert Normalise(ids[k].0, ids[k].1) in Elems(Added(ids));
  }

  /** Every output edge joins the ids of the two different tags of some call. */
  lemma WiredFromCall(tags: seq<Tag>, calls: seq<(Tag, Tag)>, e: Edge)
    requires Named(tags, calls) && e in Wired(tags, calls)
    ensures exists c :: (c in calls && c.0 != c.1
      && e == Normalise(Palette.Build(tags)[c.0], Palette.Build(tags)[c.1]))
  {
    EdgeLeqTotal();
    var ids := IdCalls(tags, calls);
    assert e in Elems(Added(ids));
    var k :| 0 <= k < |ids| && ids[k].0 != ids[k].1 && e == Normalise(ids[k].0, ids[k].1);
    assert calls[k].0 != calls[k].1;
  }

  /** The gadget call for mask `q` and position `k` of vertex `i` is made. */
  lemma SpokeMade(us: seq<int>, incs: seq<seq<Edge>>, es: seq<Edge>, twist: set<Edge>, i: nat, q: nat, k: nat)
    requires Shaped(us, incs) && i < |us| && q < 4 && k < 3
    ensures Spoke(us[i], incs[i], q, k) in TagCalls(us, incs, es, twist)
  {
    var gadgets := GadgetBlocks(us, incs);
    var c := Spoke(us[i], incs[i], q, k);
    GadgetCallsHas(us[i], incs[i], c);
    FlattenHas(gadgets, c);
  }

  /** Both connector calls of edge `k` are made. */
  lemma ConnectorCallMade(us: seq<int>, incs: seq<seq<Edge>>, es: seq<Edge>, twist: set<Edge>, k: nat, c: nat)
    requires Shaped(us, incs) && k < |es| && c < 2
    ensures ConnectorCalls(es[k], es[k] in twist)[c] in TagCalls(us, incs, es, twist)
  {
    var connectors := ConnectorBlocks(es, twist);
    FlattenHas(connectors, connectors[k][c]);
  }

  /** A tag of vertex `i`'s block, or of edge `k`'s block, is named. */
  lemma VertexTagNamed(us: seq<int>, incs: seq<seq<Edge>>, i: nat, t: Tag)
    requires Shaped(us, incs) && i < |us| && t in VertexTags(us[i], incs[i])
    ensures t in VertexTagSeq(us, incs)
  {
    FlattenHas(VertexBlocks(us, incs), t);
  }

  lemma EdgeTagNamed(es: seq<Edge>, k: nat, t: Tag)
    requires k < |es| && t in EdgeTags(es[k])
    ensures t in EdgeTagSeq(es)
  {
    FlattenHas(EdgeBlocks(es), t);
  }

  /** Both tags of a gadget call are among the tags its vertex names. */
  lemma SpokeTags(u: int, inc: seq<Edge>, q: nat, k: nat)
    requires |inc| == 3 && q < 4 && k < 3
    ensures Spoke(u, inc, q, k).0 in VertexTags(u, inc)
    ensures Spoke(u, inc, q, k).1 in VertexTags(u, inc)
  {
    var vt := VertexTags(u, inc);
    assert vt[q] == G(u, EvenMasks[q]);
    var b := Bit(EvenMasks[q], k);
    assert vt[4 + 2 * k + b] == X(u, inc[k], b);
  }

  /** A call made by the vertex loop: the spoke for some vertex, mask and position. */
  predicate FromGadget(us: seq<int>, incs: seq<seq<Edge>>, c: (Tag, Tag))
    requires Shaped(us, incs)
  {
    exists i, q, k :: 0 <= i < |us| && 0 <= q < 4 && 0 <= k < 3 && c == Spoke(us[i], incs[i], q, k)
  }

  /** A call made by the edge loop. */
  predicate FromConnector(es: seq<Edge>, twist: set<Edge>, c: (Tag, Tag)) {
    exists j :: 0 <= j < |es| && c in ConnectorCalls(es[j], es[j] in twist)
  }

  /** Each call is a gadget call of some vertex or a connector call of some edge. */
  lemma CallOrigin(us: seq<int>, incs: seq<seq<Edge>>, es: seq<Edge>, twist: set<Edge>, c: (Tag, Tag))
    requires Shaped(us, incs) && c in TagCalls(us, incs, es, twist)
    ensures FromGadget(us, incs, c) || FromConnector(es, twist, c)
  {
    var gadgets, connectors := GadgetBlocks(us, incs), ConnectorBlocks(es, twist);
    if c in Flatten(gadgets) {
      FlattenHas(gadgets, c);
      var i :| 0 <= i < |gadgets| && c in gadgets[i];
      GadgetCallsHas(us[i], incs[i], c);
    } else {
      FlattenHas(connectors, c);
    }
  }

  /** The tags of a call are among the tags named before it. */
  lemma OriginNamed(us: seq<int>, incs: seq<seq<Edge>>, es: seq<Edge>, twist: set<Edge>, c: (Tag, Tag))
    requires Shaped(us, incs) && (FromGadget(us, incs, c) || FromConnector(es, twist, c))
    ensures c.0 in AllTags(us, incs, es) && c.1 in AllTags(us, incs, es)
  {
    if FromGadget(us, incs, c) {
      var i, q, k :| 0 <= i < |us| && 0 <= q < 4 && 0 <= k < 3 && c == Spoke(us[i], incs[i], q, k);
      SpokeTags(us[i], incs[i], q, k);
      VertexTagNamed(us, incs, i, c.0);
      VertexTagNamed(us, incs, i, c.1);
    } else {
      var j :| 0 <= j < |es| && c in ConnectorCalls(es[j], es[j] in twist);
      EdgeTagNamed(es, j, c.0);
      EdgeTagNamed(es, j, c.1);
    }
  }

  /** `nid` has named both tags of a call by the time `add` needs them. */
  lemma CallNamed(us: seq<int>, incs: seq<seq<Edge>>, es: seq<Edge>, twist: set<Edge>, c: (Tag, Tag))
    requires Shaped(us, incs) && c in TagCalls(us, incs, es, twist)
    ensures c.0 in AllTags(us, incs, es) && c.1 in AllTags(us, incs, es)
  {
    CallOrigin(us, incs, es, twist, c);
    OriginNamed(us, incs, es, twist, c);
  }

  lemma CallsNamed(us: seq<int>, incs: seq<seq<Edge>>, es: seq<Edge>, twist: set<Edge>)
    requires Shaped(us, incs)
    ensures Named(AllTags(us, incs, es), TagCalls(us, incs, es, twist))
  {
    var calls := TagCalls(us, incs, es, twist);
    forall j | 0 <= j < |calls|
      ensures calls[j].0 in AllTags(us, incs, es) && calls[j].1 in AllTags(us, incs, es)
    {
      CallNamed(us, incs, es, twist, calls[j]);
    }
  }

  /** The loops of `build_cfi` over labelled vertices `us` with incident edges `incs` and the
      canonical edge list `es`: name the vertices, wire the gadgets and the connectors, sort. */
  function Assemble(us: seq<int>, incs: seq<seq<Edge>>, es: seq<Edge>, parity: int): (r: CfiGraph)
    requires Shaped(us, incs) && (parity % 2 == 1 ==> |es| > 0)
    ensures r.n == |Palette.Build(AllTags(us, incs, es))|
    ensures r.twists == parity % 2
    ensures StrictlySortedBy(r.edges, EdgeLeq)
    ensures forall e :: e in r.edges ==> 0 <= e.0 < e.1 < r.n
  {
    var twist := Twist(es, parity);
    var tags := AllTags(us, incs, es);
    CallsNamed(us, incs, es, twist);
    TwistSize(es, parity);
    CfiGraph(|Palette.Build(tags)|, Wired(tags, TagCalls(us, incs, es, twist)), |twist|)
  }

  /** Tags `a` and `b` both have ids, and the edge between those ids is in `edges`. */
  predicate Joined(names: map<Tag, nat>, edges: seq<Edge>, a: Tag, b: Tag) {
    a in names && b in names && Normalise(names[a], names[b]) in edges
  }

  /** The output edges are the wiring of the builder's calls under its naming. */
  lemma AssembleWired(us: seq<int>, incs: seq<seq<Edge>>, es: seq<Edge>, parity: int)
    requires Shaped(us, incs) && (parity % 2 == 1 ==> |es| > 0)
    ensures Named(AllTags(us, incs, es), TagCalls(us, incs, es, Twist(es, parity)))
    ensures Assemble(us, incs, es, parity).edges == Wired(AllTags(us, incs, es), TagCalls(us, incs, es, Twist(es, parity)))
  {
    CallsNamed(us, incs, es, Twist(es, parity));
  }

  /** Middle vertex `G(u, mask)` is joined to the end vertex of the k-th incident edge that bit
      k of the mask selects. */
  lemma GadgetWired(us: seq<int>, incs: seq<seq<Edge>>, es: seq<Edge>, parity: int, i: nat, q: nat, k: nat)
    requires Shaped(us, incs) && (parity % 2 == 1 ==> |es| > 0)
    requires i < |us| && q < 4 && k < 3
    ensures var names := Palette.Build(AllTags(us, incs, es));
      var g := G(us[i], EvenMasks[q]);
      var x := X(us[i], incs[i][k], Bit(EvenMasks[q], k));
      Joined(names, Assemble(us, incs, es, parity).edges, g, x)
  {
    var twist := Twist(es, parity);
    AssembleWired(us, incs, es, parity);
    SpokeMade(us, incs, es, twist, i, q, k);
    CallWired(AllTags(us, incs, es), TagCalls(us, incs, es, twist), Spoke(us[i], incs[i], q, k));
  }

  /** The four masks are different numbers. */
  lemma EvenMasksDistinct()
    ensures Distinct(EvenMasks)
  {
  }

  /** A spoke that starts at `G(us[i], EvenMasks[q])` belongs to vertex `i` and mask `q`. */
  lemma SpokeFrom(us: seq<int>, incs: seq<seq<Edge>>, i: nat, q: nat, i': nat, q': nat, k: nat)
    requires Shaped(us, incs) && Distinct(us)
    requires i < |us| && q < 4 && i' < |us| && q' < 4 && k < 3
    requires Spoke(us[i'], incs[i'], q', k).0 == G(us[i], EvenMasks[q])
    ensures i' == i && q' == q
  {
    EvenMasksDistinct();
  }

  /** Every call that involves `G(us[i], EvenMasks[q])` joins it to one of its three end
      vertices. */
  lemma CallsAtMiddle(us: seq<int>, incs: seq<seq<Edge>>, es: seq<Edge>, twist: set<Edge>, i: nat, q: nat, c: (Tag, Tag))
    requires Shaped(us, incs) && Distinct(us)
    requires i < |us| && q < 4
    requires FromGadget(us, incs, c) || FromConnector(es, twist, c)
    requires c.0 == G(us[i], EvenMasks[q]) || c.1 == G(us[i], EvenMasks[q])
    ensures exists k :: 0 <= k < 3 && c == Spoke(us[i], incs[i], q, k)
  {
    if FromGadget(us, incs, c) {
      var i', q', k :| 0 <= i' < |us| && 0 <= q' < 4 && 0 <= k < 3 && c == Spoke(us[i'], incs[i'], q', k);
      SpokeFrom(us, incs, i, q, i', q', k);
      assert c == Spoke(us[i], incs[i], q, k);
    }
  }

  /** An output edge at the id of tag `g` comes from a call that involves `g`. */
  lemma WiredAt(tags: seq<Tag>, calls: seq<(Tag, Tag)>, g: Tag, e: Edge)
    requires Named(tags, calls) && e in Wired(tags, calls)
    requires g in Palette.Build(tags) && (Palette.Build(tags)[g] == e.0 || Palette.Build(tags)[g] == e.1)
    ensures exists c :: (c in calls && (c.0 == g || c.1 == g)
      && {e.0, e.1} == {Palette.Build(tags)[c.0], Palette.Build(tags)[c.1]})
  {
    var names := Palette.Build(tags);
    WiredFromCall(tags, calls, e);
    var c :| c in calls && c.0 != c.1 && e == Normalise(names[c.0], names[c.1]);
    assert {e.0, e.1} == {names[c.0], names[c.1]};
    if c.0 != g && c.1 != g {
      var k :| 0 <= k < |calls| && calls[k] == c;
      NamesDiffer(tags, g, c.0);
      NamesDiffer(tags, g, c.1);
    }
  }

  /** Different tags get different ids. */
  lemma NamesDiffer(tags: seq<Tag>, a: Tag, b: Tag)
    requires a in Palette.Build(tags) && b in Palette.Build(tags) && a != b
    ensures Palette.Build(tags)[a] != Palette.Build(tags)[b]
  {
    Palette.BuildInjective(tags);
  }

  /** Conversely, every output edge at a middle vertex `G(u, mask)` leads to one of those three
      end vertices. With `GadgetWired`, a middle vertex has exactly these neighbours. */
  lemma GadgetOnlyWired(us: seq<int>, incs: seq<seq<Edge>>, es: seq<Edge>, parity: int, i: nat, q: nat, e: Edge)
    requires Shaped(us, incs) && (parity % 2 == 1 ==> |es| > 0) && Distinct(us)
    requires i < |us| && q < 4
    requires e in Assemble(us, incs, es, parity).edges
    ensures G(us[i], EvenMasks[q]) in Palette.Build(AllTags(us, incs, es))
    ensures var names := Palette.Build(AllTags(us, incs, es));
      var g := names[G(us[i], EvenMasks[q])];
      g == e.0 || g == e.1 ==> exists k :: (0 <= k < 3
        && X(us[i], incs[i][k], Bit(EvenMasks[q], k)) in names
        && {e.0, e.1} == {g, names[X(us[i], incs[i][k], Bit(EvenMasks[q], k))]})
  {
    var twist := Twist(es, parity);
    var tags, calls := AllTags(us, incs, es), TagCalls(us, incs, es, twist);
    var names := Palette.Build(tags);
    var gt := G(us[i], EvenMasks[q]);
    GadgetWired(us, incs, es, parity, i, q, 0);
    if names[gt] == e.0 || names[gt] == e.1 {
      AssembleWired(us, incs, es, parity);
      WiredAt(tags, calls, gt, e);
      var c :| c in calls && (c.0 == gt || c.1 == gt) && {e.0, e.1} == {names[c.0], names[c.1]};
      CallOrigin(us, incs, es, twist, c);
      CallsAtMiddle(us, incs, es, twist, i, q, c);
      var k :| 0 <= k < 3 && c == Spoke(us[i], incs[i], q, k);
      SpokeTags(us[i], incs[i], q, k);
      VertexTagNamed(us, incs, i, c.1);
    }
  }

  /** Base edge `e = (a, b)` joins `X(a, e, c)` to `X(b, e, c)`, or to `X(b, e, 1 - c)` when `e`
      is twisted. */
  lemma ConnectorWired(us: seq<int>, incs: seq<seq<Edge>>, es: seq<Edge>, parity: int, j: nat, c: nat)
    requires Shaped(us, incs) && (parity % 2 == 1 ==> |es| > 0)
    requires j < |es| && c < 2 && es[j].0 != es[j].1
    ensures var names := Palette.Build(AllTags(us, incs, es));
      var e := es[j];
      var c' := if e in Twist(es, parity) then 1 - c else c;
      Joined(names, Assemble(us, incs, es, parity).edges, X(e.0, e, c), X(e.1, e, c'))
  {
    var twist := Twist(es, parity);
    var e := es[j];
    var c' := if e in twist then 1 - c else c;
    var call := ConnectorCalls(e, e in twist)[c];
    assert call == (X(e.0, e, c), X(e.1, e, c'));
    AssembleWired(us, incs, es, parity);
    ConnectorCallMade(us, incs, es, twist, j, c);
    CallWired(AllTags(us, incs, es), TagCalls(us, incs, es, twist), call);
  }

  /** An odd parity twists exactly the smallest base edge; an even one twists nothing. */
  lemma TwistSmallest(es: seq<Edge>, parity: int)
    requires StrictlySortedBy(es, EdgeLeq) && (parity % 2 == 1 ==> |es| > 0)
    ensures |Twist(es, parity)| == parity % 2
    ensures forall e :: e in Twist(es, parity) <==> parity % 2 == 1 && e == es[0]
    ensures forall e, f :: e in Twist(es, parity) && f in es ==> EdgeLeq(e, f)
  {
    forall e, f | e in Twist(es, parity) && f in es ensures EdgeLeq(e, f) {
      var k :| 0 <= k < |es| && es[k] == f;
      if k > 0 {
        assert EdgeLeq(es[0], es[k]);
      }
    }
  }

  /** Every output edge is a spoke of a gadget or a connector of a base edge, between the ids
      of its two different tags. With `AssembleHasAll`, the output is exactly these edges. */
  lemma AssembleHasOnly(us: seq<int>, incs: seq<seq<Edge>>, es: seq<Edge>, parity: int, e: Edge)
    requires Shaped(us, incs) && (parity % 2 == 1 ==> |es| > 0)
    requires e in Assemble(us, incs, es, parity).edges
    ensures var names := Palette.Build(AllTags(us, incs, es));
      exists c :: ((FromGadget(us, incs, c) || FromConnector(es, Twist(es, parity), c))
        && c.0 in names && c.1 in names && c.0 != c.1 && e == Normalise(names[c.0], names[c.1]))
  {
    var twist := Twist(es, parity);
    var tags, calls := AllTags(us, incs, es), TagCalls(us, incs, es, twist);
    var names := Palette.Build(tags);
    AssembleWired(us, incs, es, parity);
    WiredFromCall(tags, calls, e);
    var c :| c in calls && c.0 != c.1 && e == Normalise(names[c.0], names[c.1]);
    CallOrigin(us, incs, es, twist, c);
  }

  /** Every spoke and every connector between two different tags is an output edge. */
  lemma AssembleHasAll(us: seq<int>, incs: seq<seq<Edge>>, es: seq<Edge>, parity: int, c: (Tag, Tag))
    requires Shaped(us, incs) && (parity % 2 == 1 ==> |es| > 0)
    requires FromGadget(us, incs, c) || FromConnector(es, Twist(es, parity), c)
    requires c.0 != c.1
    ensures var names := Palette.Build(AllTags(us, incs, es));
      Joined(names, Assemble(us, incs, es, parity).edges, c.0, c.1)
  {
    var twist := Twist(es, parity);
    AssembleWired(us, incs, es, parity);
    OriginMade(us, incs, es, twist, c);
    CallWired(AllTags(us, incs, es), TagCalls(us, incs, es, twist), c);
  }

  /** Every spoke and every connector is a call the builder makes. */
  lemma OriginMade(us: seq<int>, incs: seq<seq<Edge>>, es: seq<Edge>, twist: set<Edge>, c: (Tag, Tag))
    requires Shaped(us, incs) && (FromGadget(us, incs, c) || FromConnector(es, twist, c))
    ensures c in TagCalls(us, incs, es, twist)
  {
    if FromGadget(us, incs, c) {
      var i, q, k :| 0 <= i < |us| && 0 <= q < 4 && 0 <= k < 3 && c == Spoke(us[i], incs[i], q, k);
      SpokeMade(us, incs, es, twist, i, q, k);
    } else {
      var j :| 0 <= j < |es| && c in ConnectorCalls(es[j], es[j] in twist);
      var p :| 0 <= p < 2 && ConnectorCalls(es[j], es[j] in twist)[p] == c;
      ConnectorCallMade(us, incs, es, twist, j, p);
    }
  }

  /** The vertex loop already names both end vertices of edge `nodes[iu]`–`nodes[iv]` at
      `nodes[iu]`, so `neigh[a].index(b)` finds its neighbour. */
  lemma EndNamed(nodes: seq<int>, adj: seq<seq<nat>>, iu: nat, iv: nat, c: nat)
    requires Cubic(nodes, adj) && iu < |nodes| && iv in adj[iu] && c < 2
    ensures nodes[iv] in Neigh(nodes, adj, iu)
    ensures X(nodes[iu], Normalise(nodes[iu], nodes[iv]), c) in VertexTagSeq(nodes, Incidence(nodes, adj))
  {
    NeighHas(nodes, adj, iu, nodes[iv]);
    var nu := Neigh(nodes, adj, iu);
    var m :| 0 <= m < 3 && nu[m] == nodes[iv];
    var inc := Incident(nodes, adj, iu);
    assert inc[m] == Normalise(nodes[iu], nodes[iv]);
    assert VertexTags(nodes[iu], inc)[4 + 2 * m + c] == X(nodes[iu], inc[m], c);
    VertexTagNamed(nodes, Incidence(nodes, adj), iu, X(nodes[iu], inc[m], c));
  }

  /** The two ends of every base edge of `E` are adjacent in the adjacency lists. */
  lemma BaseEdgeAdjacent(nodes: seq<int>, edges: seq<Edge>, k: nat)
    requires BuildAdj(nodes, edges).Success? && k < |CanonicalEdges(edges)|
    ensures var e := CanonicalEdges(edges)[k];
      var adj := BuildAdj(nodes, edges).value.1;
      && e.0 in IndexOf(nodes) && e.1 in IndexOf(nodes)
      && IndexOf(nodes)[e.1] in adj[IndexOf(nodes)[e.0]] && IndexOf(nodes)[e.0] in adj[IndexOf(nodes)[e.1]]
  {
    var idx := IndexOf(nodes);
    var e := CanonicalEdges(edges)[k];
    var o := Oriented(edges);
    assert e in CanonicalEdges(edges);
    var j :| 0 <= j < |o| && o[j] == e;
    var (u, v) := edges[j];
    assert edges[j] in edges;
    assert Joins(idx, edges, idx[e.0], idx[e.1]) && Joins(idx, edges, idx[e.1], idx[e.0]);
  }

  /** Every base edge `(a, b)` of `E` has `b` among the neighbours of `a` and `a` among those of
      `b`, and the edge loop names no tag that the vertex loop has not named already. */
  lemma ConnectorEndsKnown(nodes: seq<int>, edges: seq<Edge>, k: nat)
    requires BuildAdj(nodes, edges).Success? && Cubic(nodes, BuildAdj(nodes, edges).value.1)
    requires k < |CanonicalEdges(edges)|
    ensures var e := CanonicalEdges(edges)[k];
      var adj := BuildAdj(nodes, edges).value.1;
      && e.0 in IndexOf(nodes) && e.1 in IndexOf(nodes)
      && e.1 in Neigh(nodes, adj, IndexOf(nodes)[e.0]) && e.0 in Neigh(nodes, adj, IndexOf(nodes)[e.1])
      && forall t :: t in EdgeTags(e) ==> t in VertexTagSeq(nodes, Incidence(nodes, adj))
  {
    var adj := BuildAdj(nodes, edges).value.1;
    var e := CanonicalEdges(edges)[k];
    BaseEdgeAdjacent(nodes, edges, k);
    var iu, iv := IndexOf(nodes)[e.0], IndexOf(nodes)[e.1];
    assert Normalise(e.0, e.1) == e && Normalise(e.1, e.0) == e;
    EndNamed(nodes, adj, iu, iv, 0);
    EndNamed(nodes, adj, iu, iv, 1);
    EndNamed(nodes, adj, iv, iu, 0);
    EndNamed(nodes, adj, iv, iu, 1);
  }

  /** Every vertex has degree 3. */
  predicate Regular(adj: seq<seq<nat>>) {
    forall i :: 0 <= i < |adj| ==> |adj[i]| == 3
  }

  /** `build_cfi` once the edge list is read: build the adjacency, check the degrees, take the
      canonical edges and the twist, then run the two loops. */
  function CfiFromGraph(nodes: seq<int>, edges: seq<Edge>, parity: int): (r: Result<CfiGraph, CfiError>)
    ensures r.Failure? && r.error.UnknownEndpoint? <==> BuildAdj(nodes, edges).Failure?
    ensures BuildAdj(nodes, edges).Success? ==> var adj := BuildAdj(nodes, edges).value.1;
      && (r.Failure? && r.error.NotCubic? <==> !Regular(adj))
      && (r.Failure? && r.error.NotCubic? ==> exists i :: (0 <= i < |adj|
            && r.error == NotCubic(nodes[i], |adj[i]|) && |adj[i]| != 3 && forall k :: 0 <= k < i ==> |adj[k]| == 3))
      && (r == Failure(NoEdgeToTwist) <==> Regular(adj) && parity % 2 == 1 && |CanonicalEdges(edges)| == 0)
      && (r.Success? ==> (Cubic(nodes, adj) && TwistPossible(edges, parity)
            && r.value == Assemble(nodes, Incidence(nodes, adj), CanonicalEdges(edges), parity)))
  {
    match BuildAdj(nodes, edges)
    case Failure(err) => Failure(UnknownEndpoint(err))
    case Success((_, adj)) =>
      var i := FirstIrregular(adj);
      if i < |adj| then Failure(NotCubic(nodes[i], |adj[i]|))
      else if parity % 2 == 1 && |CanonicalEdges(edges)| == 0 then Failure(NoEdgeToTwist)
      else Success(Assemble(nodes, Incidence(nodes, adj), CanonicalEdges(edges), parity))
  }

  /** The degree test of `build_cfi` counts edge ends: the base graph is rejected as not cubic
      exactly when some vertex is the end of a number of edges other than 3, a self-loop
      counting twice and a repeated edge once per copy. */
  lemma NotCubicByEnds(nodes: seq<int>, edges: seq<Edge>, parity: int)
    requires BuildAdj(nodes, edges).Success?
    ensures var r := CfiFromGraph(nodes, edges, parity);
      r.Failure? && r.error.NotCubic? <==> exists i: nat :: i < |nodes| && |Ends(IndexOf(nodes), edges, i)| != 3
  {
    var adj := BuildAdj(nodes, edges).value.1;
    var r := CfiFromGraph(nodes, edges, parity);
    assert r.Failure? && r.error.NotCubic? <==> !Regular(adj);
    assert EndsListed(IndexOf(nodes), edges, adj);
    if exists i: nat :: i < |nodes| && |Ends(IndexOf(nodes), edges, i)| != 3 {
      var i: nat :| i < |nodes| && |Ends(IndexOf(nodes), edges, i)| != 3;
      assert |adj[i]| != 3;
      assert !Regular(adj);
      assert r.Failure? && r.error.NotCubic?;
      assert exists i: nat :: i < |nodes| && |Ends(IndexOf(nodes), edges, i)| != 3;
    } else {
      forall i | 0 <= i < |adj| ensures |adj[i]| == 3 {
        assert |adj[i]| == |Ends(IndexOf(nodes), edges, i)|;
      }
      assert Regular(adj);
    }
  }

  /** `build_cfi` on the lines of the base file. A graph read from a file never names an
      unknown vertex, and only an empty graph with an odd parity reaches `E[0]` without an edge. */
  function BuildCfi(lines: seq<string>, parity: int): (r: Result<CfiGraph, CfiError>)
    ensures r.Failure? && r.error.Unreadable? <==> ReadEdgelist(lines).Failure?
    ensures !(r.Failure? && r.error.UnknownEndpoint?)
    ensures r == Failure(NoEdgeToTwist) <==>
      ReadEdgelist(lines).Success? && |ReadEdgelist(lines).value.1| == 0 && parity % 2 == 1
    ensures ReadEdgelist(lines).Success? ==>
      r == CfiFromGraph(ReadEdgelist(lines).value.0, ReadEdgelist(lines).value.1, parity)
  {
    match ReadEdgelist(lines)
    case Failure(err) => Failure(Unreadable(err))
    case Success((nodes, edges)) =>
      ReadThenBuild(lines);
      ReadGraphTwist(nodes, edges, parity);
      CfiFromGraph(nodes, edges, parity)
  }

  /** On a graph whose vertices are its edges' endpoints, `E[0]` is missing exactly when there
      is no edge and the parity is odd. */
  lemma ReadGraphTwist(nodes: seq<int>, edges: seq<Edge>, parity: int)
    requires nodes == NodesOf(edges) && BuildAdj(nodes, edges).Success?
    ensures CfiFromGraph(nodes, edges, parity) == Failure(NoEdgeToTwist) <==> |edges| == 0 && parity % 2 == 1
  {
    EmptyGraph(nodes, edges);
  }

  /** A read graph has no vertex exactly when it has no edge, and then no canonical edge. */
  lemma EmptyGraph(nodes: seq<int>, edges: seq<Edge>)
    requires nodes == NodesOf(edges)
    ensures |edges| == 0 <==> |CanonicalEdges(edges)| == 0
    ensures |edges| == 0 ==> |nodes| == 0
  {
    if |edges| > 0 {
      assert Oriented(edges)[0] in CanonicalEdges(edges);
    }
  }

  /** When the edge loop names nothing new, there is one output vertex per distinct tag of
      the vertex loop: at most ten per base vertex. */
  lemma AssembleVertexCount(us: seq<int>, incs: seq<seq<Edge>>, es: seq<Edge>, parity: int)
    requires Shaped(us, incs) && (parity % 2 == 1 ==> |es| > 0)
    requires forall t :: t in EdgeTagSeq(es) ==> t in VertexTagSeq(us, incs)
    ensures Assemble(us, incs, es, parity).n == |Elems(VertexTagSeq(us, incs))|
    ensures Assemble(us, incs, es, parity).n <= 10 * |us|
  {
    var vt := VertexTagSeq(us, incs);
    var tags := AllTags(us, incs, es);
    assert Elems(tags) == Elems(vt);
    Palette.BuildSize(tags);
    FlattenLength(VertexBlocks(us, incs), 10);
    ElemsCard(vt);
  }

  /** The edge loop of `build_cfi` only looks up tags the vertex loop has named. */
  lemma EdgeTagsKnown(nodes: seq<int>, edges: seq<Edge>)
    requires BuildAdj(nodes, edges).Success? && Cubic(nodes, BuildAdj(nodes, edges).value.1)
    ensures forall t :: t in EdgeTagSeq(CanonicalEdges(edges)) ==>
      t in VertexTagSeq(nodes, Incidence(nodes, BuildAdj(nodes, edges).value.1))
  {
    var es := CanonicalEdges(edges);
    forall t | t in EdgeTagSeq(es)
      ensures t in VertexTagSeq(nodes, Incidence(nodes, BuildAdj(nodes, edges).value.1))
    {
      FlattenHas(EdgeBlocks(es), t);
      var k :| 0 <= k < |es| && t in EdgeBlocks(es)[k];
      ConnectorEndsKnown(nodes, edges, k);
    }
  }

  /** The output has one vertex per distinct tag of the vertex loop, at most ten per base
      vertex: the edge loop names nothing new. */
  lemma CfiVertexCount(nodes: seq<int>, edges: seq<Edge>, parity: int)
    requires CfiFromGraph(nodes, edges, parity).Success?
    ensures var adj := BuildAdj(nodes, edges).value.1;
      Cubic(nodes, adj)
      && CfiFromGraph(nodes, edges, parity).value.n == |Elems(VertexTagSeq(nodes, Incidence(nodes, adj)))|
      && CfiFromGraph(nodes, edges, parity).value.n <= 10 * |nodes|
  {
    var adj := BuildAdj(nodes, edges).value.1;
    EdgeTagsKnown(nodes, edges);
    AssembleVertexCount(nodes, Incidence(nodes, adj), CanonicalEdges(edges), parity);
  }
}
