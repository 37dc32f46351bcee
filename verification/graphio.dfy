/** The edge-list reader and the adjacency builder shared by the exact refinement and the
    CFI builder (scripts/graphio.py). The file is given as its sequence of lines. */
module GraphIO {
  import opened Wrappers
  import opened Sorting
  import opened Text

  type Edge = (int, int)

  /** The `ValueError`s `read_edgelist` lets escape. */
  datatype ReadError =
    | TooFewFields(line: string)
    | NotAnInteger(field: string)

  /** The `KeyError` of `build_adj` when an edge names a vertex missing from `nodes`. */
  datatype AdjError = UnknownNode(u: int)

  /** A line skipped before any parsing: blank or a comment once stripped. */
  predicate Ignorable(line: string) {
    var s := Strip(line);
    |s| == 0 || s[0] == '#'
  }

  /** The first two fields of a non-ignorable line, when both are integers. */
  predicate ParsesTo(line: string, u: int, v: int) {
    var fields := Split(Strip(line));
    |fields| >= 2 && ParseInt(fields[0]) == Some(u) && ParseInt(fields[1]) == Some(v)
  }

  /** `edge_id` and the swap in `read_edgelist`: the smaller end first. */
  function Normalise(u: int, v: int): (e: Edge)
    ensures e.0 <= e.1
    ensures (e.0 == u && e.1 == v) || (e.0 == v && e.1 == u)
  {
    if u > v then (v, u) else (u, v)
  }

  /** `edge_id` of every edge: each with the smaller end first. */
  function Oriented(edges: seq<Edge>): (r: seq<Edge>)
    ensures |r| == |edges|
  {
    seq(|edges|, i requires 0 <= i < |edges| => Normalise(edges[i].0, edges[i].1))
  }

  /** One line of the file: `None` when it is skipped (blank, comment, self-loop), otherwise
      its edge with the smaller end first. */
  function ParseLine(line: string): (r: Result<Option<Edge>, ReadError>)
    ensures Ignorable(line) ==> r == Success(None)
    ensures r.Success? && r.value.Some? ==> r.value.value.0 < r.value.value.1
  {
    var s := Strip(line);
    if |s| == 0 || s[0] == '#' then Success(None)
    else
      var fields := Split(s);
      if |fields| < 2 then Failure(TooFewFields(s))
      else if ParseInt(fields[0]).None? then Failure(NotAnInteger(fields[0]))
      else if ParseInt(fields[1]).None? then Failure(NotAnInteger(fields[1]))
      else
        var u, v := ParseInt(fields[0]).value, ParseInt(fields[1]).value;
        if u == v then Success(None) else Success(Some(Normalise(u, v)))
  }

  /** A line that is not skipped outright is accepted exactly when its first two fields are
      integers; it then yields nothing for a self-loop and the normalised edge otherwise. */
  lemma ParseLineMeaning(line: string, u: int, v: int)
    requires !Ignorable(line)
    ensures ParseLine(line).Success? ==> exists u', v' :: ParsesTo(line, u', v')
    ensures ParsesTo(line, u, v) ==>
      ParseLine(line) == Success(if u == v then None else Some(Normalise(u, v)))
  {
    var fields := Split(Strip(line));
    if ParseLine(line).Success? {
      assert ParsesTo(line, ParseInt(fields[0]).value, ParseInt(fields[1]).value);
    }
  }

  /** The position of the first line `read_edgelist` raises on, or `|lines|` if none. */
  function FirstBad(lines: seq<string>): (i: nat)
    ensures i <= |lines|
    ensures forall k :: 0 <= k < i ==> ParseLine(lines[k]).Success?
    ensures i < |lines| ==> ParseLine(lines[i]).Failure?
    decreases |lines|
  {
    if |lines| == 0 then 0
    else if ParseLine(lines[0]).Failure? then 0
    else
      assert forall k :: 1 <= k < |lines| ==> lines[k] == lines[1..][k - 1];
      1 + FirstBad(lines[1..])
  }

  /** Line `k` of the file is accepted as edge `e`. */
  predicate LineGives(lines: seq<string>, k: int, e: Edge) {
    0 <= k < |lines| && ParseLine(lines[k]) == Success(Some(e))
  }

  /** The edges of the file in line order; the first bad line decides the error. */
  function ParseEdges(lines: seq<string>): (r: Result<seq<Edge>, ReadError>)
    ensures r.Success? <==> FirstBad(lines) == |lines|
    ensures r.Failure? ==> ParseLine(lines[FirstBad(lines)]) == Failure(r.error)
    ensures r.Success? ==> |r.value| <= |lines|
    ensures r.Success? ==> forall e :: e in r.value ==> e.0 < e.1
    decreases |lines|
  {
    if |lines| == 0 then Success([])
    else
      var head := ParseLine(lines[0]);
      if head.Failure? then Failure(head.error)
      else
        var rest := ParseEdges(lines[1..]);
        if rest.Failure? then
          Failure(rest.error)
        else if head.value.Some? then Success([head.value.value] + rest.value)
        else Success(rest.value)
  }

  /** The edges read are exactly those of the accepted lines: blank lines, comments and
      self-loops contribute nothing, and every other line its normalised edge. */
  lemma {:induction false} ParseEdgesHas(lines: seq<string>, e: Edge)
    requires ParseEdges(lines).Success?
    ensures e in ParseEdges(lines).value <==> exists k :: LineGives(lines, k, e)
    decreases |lines|
  {
    if |lines| > 0 {
      var head, rest := ParseLine(lines[0]), ParseEdges(lines[1..]);
      assert head.Success? && rest.Success?;
      var out := ParseEdges(lines).value;
      assert out == if head.value.Some? then [head.value.value] + rest.value else rest.value;
      ParseEdgesHas(lines[1..], e);
      if e in out {
        if e in rest.value {
          var k :| LineGives(lines[1..], k, e);
          assert LineGives(lines, k + 1, e);
        } else {
          assert LineGives(lines, 0, e);
        }
      }
      if exists k :: LineGives(lines, k, e) {
        var k :| LineGives(lines, k, e);
        if k > 0 {
          assert LineGives(lines[1..], k - 1, e);
        }
      }
    }
  }

  /** Reading two files one after the other reads their edges one after the other: together
      with the membership clause of `ParseEdges`, this fixes the order of the result. */
  lemma {:induction false} ParseEdgesAppend(a: seq<string>, b: seq<string>)
    ensures ParseEdges(a + b).Success? <==> ParseEdges(a).Success? && ParseEdges(b).Success?
    ensures ParseEdges(a + b).Success? ==> ParseEdges(a + b).value == ParseEdges(a).value + ParseEdges(b).value
    decreases |a|
  {
    if |a| > 0 {
      assert (a + b)[0] == a[0];
      assert (a + b)[1..] == a[1..] + b;
      ParseEdgesAppend(a[1..], b);
      if ParseLine(a[0]).Success? && ParseLine(a[0]).value.Some? && ParseEdges(a + b).Success? {
        assert ParseEdges(a + b).value == [ParseLine(a[0]).value.value] + ParseEdges(a[1..] + b).value;
      }
    } else {
      assert a + b == b;
    }
  }

  /** Both ends of every edge, in order (`nodes_set.add(u); nodes_set.add(v)`). */
  function Endpoints(edges: seq<Edge>): (r: seq<int>)
    ensures forall x :: x in r <==> exists e :: e in edges && (x == e.0 || x == e.1)
    decreases |edges|
  {
    if |edges| == 0 then []
    else
      var r := [edges[0].0, edges[0].1] + Endpoints(edges[1..]);
      assert forall e :: e in edges[1..] ==> e in edges;
      assert forall e :: e in edges ==> e == edges[0] || e in edges[1..];
      r
  }

  /** `sorted(nodes_set)`: every endpoint once, ascending. */
  function NodesOf(edges: seq<Edge>): (nodes: seq<int>)
    ensures StrictlySortedBy(nodes, IntLeq)
    ensures forall x :: x in nodes <==> exists e :: e in edges && (x == e.0 || x == e.1)
  {
    IntLeqTotal();
    var ends := Endpoints(edges);
    var nodes := SortDedup(ends, IntLeq);
    assert forall x :: x in nodes <==> x in ends by {
      assert Elems(nodes) == Elems(ends);
      forall x ensures x in nodes <==> x in Elems(nodes) { }
      forall x ensures x in ends <==> x in Elems(ends) { }
    }
    nodes
  }

  /** `read_edgelist`: the sorted vertex set and the edge list. */
  function ReadEdgelist(lines: seq<string>): (r: Result<(seq<int>, seq<Edge>), ReadError>)
    ensures r.Success? <==> ParseEdges(lines).Success?
    ensures r.Success? ==> r.value.1 == ParseEdges(lines).value
    ensures r.Success? ==> forall e :: e in r.value.1 <==> exists k :: LineGives(lines, k, e)
    ensures r.Success? ==> r.value.0 == NodesOf(r.value.1)
  {
    var parsed := ParseEdges(lines);
    if parsed.Failure? then Failure(parsed.error)
    else
      assert forall e :: e in parsed.value <==> exists k :: LineGives(lines, k, e) by {
        forall e ensures e in parsed.value <==> exists k :: LineGives(lines, k, e) {
          ParseEdgesHas(lines, e);
        }
      }
      Success((NodesOf(parsed.value), parsed.value))
  }

  /** The line `f"{u} {v}"` that the edge-list writers emit for one edge. */
  function FormatEdge(e: Edge): string {
    ShowInt(e.0) + " " + ShowInt(e.1)
  }

  /** A line made of two fields separated by one space is not skipped, and its fields are
      those two. */
  lemma TwoFieldLine(a: string, b: string)
    requires IsField(a) && IsField(b) && a[0] != '#'
    ensures !Ignorable(a + " " + b)
    ensures Split(Strip(a + " " + b)) == [a, b]
  {
    StripTwoFields(a, b);
    SplitTwoFields(a, b);
    var line := a + " " + b;
    assert line[0] == a[0];
  }

  /** A written edge line reads back as the same edge, smaller end first. */
  lemma ParseFormattedLine(e: Edge)
    requires e.0 != e.1
    ensures ParseLine(FormatEdge(e)) == Success(Some(Normalise(e.0, e.1)))
  {
    var a, b := ShowInt(e.0), ShowInt(e.1);
    ShowIntIsField(e.0);
    ShowIntIsField(e.1);
    TwoFieldLine(a, b);
    ParseShowRoundTrip(e.0);
    ParseShowRoundTrip(e.1);
    assert ParsesTo(FormatEdge(e), e.0, e.1);
    ParseLineMeaning(FormatEdge(e), e.0, e.1);
  }

  /** When every line yields an edge, the edges come out in line order. */
  lemma {:induction false} ParseEdgesAllAccepted(lines: seq<string>, out: seq<Edge>)
    requires |out| == |lines|
    requires forall k :: 0 <= k < |lines| ==> ParseLine(lines[k]) == Success(Some(out[k]))
    ensures ParseEdges(lines) == Success(out)
    decreases |lines|
  {
    if |lines| > 0 {
      assert ParseLine(lines[0]) == Success(Some(out[0]));
      forall k | 0 <= k < |lines| - 1 ensures ParseLine(lines[1..][k]) == Success(Some(out[1..][k])) {
        assert lines[1..][k] == lines[k + 1];
      }
      ParseEdgesAllAccepted(lines[1..], out[1..]);
      assert out == [out[0]] + out[1..];
    }
  }

  /** Reading back a written edge list gives its edges, each with the smaller end first. */
  lemma ParseFormattedEdges(edges: seq<Edge>)
    requires forall k :: 0 <= k < |edges| ==> edges[k].0 != edges[k].1
    ensures ParseEdges(seq(|edges|, k requires 0 <= k < |edges| => FormatEdge(edges[k])))
      == Success(seq(|edges|, k requires 0 <= k < |edges| => Normalise(edges[k].0, edges[k].1)))
  {
    var lines := seq(|edges|, k requires 0 <= k < |edges| => FormatEdge(edges[k]));
    var out := seq(|edges|, k requires 0 <= k < |edges| => Normalise(edges[k].0, edges[k].1));
    forall k | 0 <= k < |lines| ensures ParseLine(lines[k]) == Success(Some(out[k])) {
      ParseFormattedLine(edges[k]);
    }
    ParseEdgesAllAccepted(lines, out);
  }

  /** `{u: i for i, u in enumerate(nodes)}`: a later occurrence overwrites an earlier one. */
  function IndexOf(nodes: seq<int>): (idx: map<int, nat>)
    ensures forall u :: u in idx <==> u in nodes
    ensures forall u :: u in idx ==> idx[u] < |nodes| && nodes[idx[u]] == u
    decreases |nodes|
  {
    if |nodes| == 0 then map[]
    else
      var prefix := nodes[..|nodes| - 1];
      assert nodes == prefix + [nodes[|nodes| - 1]];
      IndexOf(prefix)[nodes[|nodes| - 1] := |nodes| - 1]
  }

  /** On a duplicate-free node list the relabelling is the inverse of `nodes`. */
  lemma IndexOfInverse(nodes: seq<int>)
    requires Distinct(nodes)
    ensures forall i :: 0 <= i < |nodes| ==> nodes[i] in IndexOf(nodes) && IndexOf(nodes)[nodes[i]] == i
  {
    var idx := IndexOf(nodes);
    forall i | 0 <= i < |nodes| ensures nodes[i] in idx && idx[nodes[i]] == i {
      assert nodes[i] in nodes;
    }
  }

  /** `adj[iu].append(iv); adj[iv].append(iu)`. */
  function Link(adj: seq<seq<nat>>, a: nat, b: nat): (r: seq<seq<nat>>)
    requires a < |adj| && b < |adj|
    ensures |r| == |adj|
  {
    var first := adj[a := adj[a] + [b]];
    first[b := first[b] + [a]]
  }

  /** One step of the edge loop adds `b` to the list of `a` and `a` to the list of `b`. */
  lemma LinkRow(adj: seq<seq<nat>>, a: nat, b: nat, i: nat)
    requires a < |adj| && b < |adj| && i < |adj|
    ensures multiset(Link(adj, a, b)[i]) == multiset(adj[i])
      + (if a == i then multiset{b} else multiset{}) + (if b == i then multiset{a} else multiset{})
  {
  }

  /** Some edge of `edges` joins positions `i` and `j` under `idx`. */
  ghost predicate Joins(idx: map<int, nat>, edges: seq<Edge>, i: nat, j: nat) {
    exists e :: e in edges && e.0 in idx && e.1 in idx &&
      ((idx[e.0] == i && idx[e.1] == j) || (idx[e.0] == j && idx[e.1] == i))
  }

  /** The neighbour positions the edges of `edges` add to the list of position `i`: one per edge
      end at `i`, so a repeated edge adds its neighbour again and a self-loop adds it twice. */
  function Ends(idx: map<int, nat>, edges: seq<Edge>, i: nat): multiset<nat>
    decreases |edges|
  {
    if |edges| == 0 then multiset{}
    else
      var (u, v) := edges[0];
      var here := if u in idx && v in idx then
        (if idx[u] == i then multiset{idx[v]} else multiset{}) + (if idx[v] == i then multiset{idx[u]} else multiset{})
      else multiset{};
      here + Ends(idx, edges[1..], i)
  }

  /** Every list of `adj` holds, with multiplicity, the neighbours the edge ends at its
      position add; in particular its length is the number of those edge ends. */
  predicate EndsListed(idx: map<int, nat>, edges: seq<Edge>, adj: seq<seq<nat>>) {
    forall i :: 0 <= i < |adj| ==> multiset(adj[i]) == Ends(idx, edges, i) && |adj[i]| == |Ends(idx, edges, i)|
  }

  /** The edge loop of `build_adj`, left to right; the first unknown endpoint aborts it. */
  function Fill(adj: seq<seq<nat>>, idx: map<int, nat>, edges: seq<Edge>): (r: Result<seq<seq<nat>>, AdjError>)
    requires forall u :: u in idx ==> idx[u] < |adj|
    ensures r.Success? <==> forall e :: e in edges ==> e.0 in idx && e.1 in idx
    ensures r.Success? ==> |r.value| == |adj|
    decreases |edges|
  {
    if |edges| == 0 then Success(adj)
    else
      var (u, v) := edges[0];
      assert forall e :: e in edges <==> e == edges[0] || e in edges[1..];
      if u !in idx then Failure(UnknownNode(u))
      else if v !in idx then Failure(UnknownNode(v))
      else Fill(Link(adj, idx[u], idx[v]), idx, edges[1..])
  }

  /** After the edge loop, `j` is in `adj[i]` exactly when it was there before or an edge
      joins `i` and `j`. */
  lemma {:induction false} FillHas(adj: seq<seq<nat>>, idx: map<int, nat>, edges: seq<Edge>, i: nat, j: nat)
    requires forall u :: u in idx ==> idx[u] < |adj|
    requires Fill(adj, idx, edges).Success?
    requires i < |adj|
    ensures j in Fill(adj, idx, edges).value[i] <==> j in adj[i] || Joins(idx, edges, i, j)
    decreases |edges|
  {
    if |edges| > 0 {
      var (u, v) := edges[0];
      var next := Link(adj, idx[u], idx[v]);
      FillHas(next, idx, edges[1..], i, j);
      assert j in next[i] <==>
        (j in adj[i] || (idx[u] == i && idx[v] == j) || (idx[u] == j && idx[v] == i));
      assert Joins(idx, edges, i, j) <==>
        (Joins(idx, edges[1..], i, j) || (idx[u] == i && idx[v] == j) || (idx[u] == j && idx[v] == i)) by {
        assert forall e :: e in edges <==> e == edges[0] || e in edges[1..];
      }
    }
  }

  /** After the edge loop, the list of position `i` holds what it held before plus exactly the
      neighbours the edge ends at `i` add, each as often as it is added. */
  lemma {:induction false} FillEnds(adj: seq<seq<nat>>, idx: map<int, nat>, edges: seq<Edge>, i: nat)
    requires forall u :: u in idx ==> idx[u] < |adj|
    requires Fill(adj, idx, edges).Success?
    requires i < |adj|
    ensures multiset(Fill(adj, idx, edges).value[i]) == multiset(adj[i]) + Ends(idx, edges, i)
    decreases |edges|
  {
    if |edges| > 0 {
      var (u, v) := edges[0];
      var next := Link(adj, idx[u], idx[v]);
      FillEnds(next, idx, edges[1..], i);
      LinkRow(adj, idx[u], idx[v], i);
    }
  }

  predicate NatLeq(a: nat, b: nat) {
    a <= b
  }

  lemma NatLeqTotal()
    ensures TotalOrder(NatLeq)
  {
  }

  /** `build_adj`: relabel the vertices by position in `nodes` and list, for every vertex, its
      neighbours' positions in ascending order. Fails like the source when an edge names a
      vertex outside `nodes`. */
  function BuildAdj(nodes: seq<int>, edges: seq<Edge>): (r: Result<(map<int, nat>, seq<seq<nat>>), AdjError>)
    ensures r.Success? <==> forall e :: e in edges ==> e.0 in nodes && e.1 in nodes
    ensures r.Success? ==> r.value.0 == IndexOf(nodes) && |r.value.1| == |nodes|
    ensures r.Success? ==> forall i :: 0 <= i < |r.value.1| ==> SortedBy(r.value.1[i], NatLeq)
    ensures r.Success? ==> forall i, j :: 0 <= i < |r.value.1| ==>
      (j in r.value.1[i] <==> Joins(IndexOf(nodes), edges, i, j))
    ensures r.Success? ==> forall i, j :: 0 <= i < |r.value.1| && j in r.value.1[i] ==> j < |nodes|
    ensures r.Success? ==> EndsListed(IndexOf(nodes), edges, r.value.1)
  {
    var idx := IndexOf(nodes);
    var empty := seq(|nodes|, _ => []);
    match Fill(empty, idx, edges)
    case Failure(err) => Failure(err)
    case Success(raw) =>
      NatLeqTotal();
      var adj := seq(|nodes|, i requires 0 <= i < |nodes| => Sort(raw[i], NatLeq));
      assert forall i, j :: 0 <= i < |adj| ==> (j in adj[i] <==> Joins(idx, edges, i, j)) by {
        forall i, j | 0 <= i < |adj| ensures j in adj[i] <==> Joins(idx, edges, i, j) {
          FillHas(empty, idx, edges, i, j);
          assert j in adj[i] <==> j in multiset(raw[i]);
        }
      }
      assert EndsListed(idx, edges, adj) by {
        forall i | 0 <= i < |adj| ensures multiset(adj[i]) == Ends(idx, edges, i) {
          FillEnds(empty, idx, edges, i);
        }
      }
      Success((idx, adj))
  }

  /** The adjacency is symmetric: `j` is a neighbour of `i` iff `i` is a neighbour of `j`. */
  lemma AdjSymmetric(nodes: seq<int>, edges: seq<Edge>, i: nat, j: nat)
    requires BuildAdj(nodes, edges).Success?
    requires i < |nodes| && j < |nodes|
    ensures j in BuildAdj(nodes, edges).value.1[i] <==> i in BuildAdj(nodes, edges).value.1[j]
  {
  }

  lemma AdjSymmetricAll(nodes: seq<int>, edges: seq<Edge>)
    requires BuildAdj(nodes, edges).Success?
    ensures var adj := BuildAdj(nodes, edges).value.1;
      forall i: nat, j: nat :: i < |adj| && j < |adj| ==> (j in adj[i] <==> i in adj[j])
  {
    forall i: nat, j: nat | i < |nodes| && j < |nodes|
      ensures j in BuildAdj(nodes, edges).value.1[i] <==> i in BuildAdj(nodes, edges).value.1[j]
    {
      AdjSymmetric(nodes, edges, i, j);
    }
  }

  /** Whatever `read_edgelist` returns, `build_adj` accepts, and relabels `nodes[i]` to `i`. */
  lemma ReadThenBuild(lines: seq<string>)
    requires ReadEdgelist(lines).Success?
    ensures BuildAdj(ReadEdgelist(lines).value.0, ReadEdgelist(lines).value.1).Success?
    ensures var nodes := ReadEdgelist(lines).value.0;
      forall i :: 0 <= i < |nodes| ==> IndexOf(nodes)[nodes[i]] == i
  {
    var (nodes, edges) := ReadEdgelist(lines).value;
    IndexOfInverse(nodes);
  }

  /** The binary search of `has_edge` on `xs[lo..hi]`, step by step as the loop does it. */
  function Search(xs: seq<nat>, j: nat, lo: nat, hi: nat): (r: nat)
    requires lo <= hi <= |xs|
    ensures r == 0 || r == 1
    decreases hi - lo
  {
    if lo >= hi then 0
    else
      var mid := (lo + hi) / 2;
      if xs[mid] == j then 1
      else if xs[mid] < j then Search(xs, j, mid + 1, hi)
      else Search(xs, j, lo, mid)
  }

  /** `has_edge(adj, i, j)` as a value. */
  function HasEdge(adj: seq<seq<nat>>, i: nat, j: nat): (r: nat)
    requires i < |adj|
    ensures r == 0 || r == 1
  {
    Search(adj[i], j, 0, |adj[i]|)
  }

  /** On a sorted list the search finds `j` exactly when `j` is in the searched window. */
  lemma {:induction false} SearchFinds(xs: seq<nat>, j: nat, lo: nat, hi: nat)
    requires lo <= hi <= |xs|
    requires SortedBy(xs, NatLeq)
    ensures Search(xs, j, lo, hi) == 1 <==> exists k :: lo <= k < hi && xs[k] == j
    decreases hi - lo
  {
    if lo < hi {
      var mid := (lo + hi) / 2;
      if xs[mid] < j {
        SearchFinds(xs, j, mid + 1, hi);
        forall k | lo <= k <= mid ensures xs[k] != j {
          assert k == mid || NatLeq(xs[k], xs[mid]);
        }
      } else if xs[mid] > j {
        SearchFinds(xs, j, lo, mid);
        forall k | mid <= k < hi ensures xs[k] != j {
          assert k == mid || NatLeq(xs[mid], xs[k]);
        }
      }
    }
  }

  /** `has_edge` returns 1 iff `j` is a neighbour of `i`, provided `adj[i]` is sorted. */
  lemma HasEdgeMeansNeighbour(adj: seq<seq<nat>>, i: nat, j: nat)
    requires i < |adj|
    requires SortedBy(adj[i], NatLeq)
    ensures HasEdge(adj, i, j) == 1 <==> j in adj[i]
    ensures HasEdge(adj, i, j) == 0 <==> j !in adj[i]
  {
    SearchFinds(adj[i], j, 0, |adj[i]|);
  }

  /** The loop of `has_edge`. */
  method HasEdgeLoop(adj: seq<seq<nat>>, i: nat, j: nat) returns (r: nat)
    requires i < |adj|
    ensures r == HasEdge(adj, i, j)
    ensures SortedBy(adj[i], NatLeq) ==> (r == 1 <==> j in adj[i])
  {
    var xs := adj[i];
    var lo, hi := 0, |xs|;
    while lo < hi
      invariant 0 <= lo <= hi <= |xs|
      invariant Search(xs, j, lo, hi) == Search(xs, j, 0, |xs|)
      decreases hi - lo
    {
      var mid := (lo + hi) / 2;
      var x := xs[mid];
      if x == j {
        if SortedBy(xs, NatLeq) {
          HasEdgeMeansNeighbour(adj, i, j);
        }
        return 1;
      }
      if x < j {
        lo := mid + 1;
      } else {
        hi := mid;
      }
    }
    if SortedBy(xs, NatLeq) {
      HasEdgeMeansNeighbour(adj, i, j);
    }
    return 0;
  }

  /** Why loading a graph failed: the reader's `ValueError` or the builder's `KeyError`. */
  datatype LoadError = ReadFailed(read: ReadError) | AdjFailed(adj: AdjError)

  /** The `read_edgelist` then `build_adj` preamble of the drivers, keeping the adjacency
      lists. Only the reader can fail; the builder accepts whatever the reader returns. */
  function LoadAdj(lines: seq<string>): (r: Result<seq<seq<nat>>, LoadError>)
    ensures r.Success? <==> ReadEdgelist(lines).Success?
    ensures r.Failure? ==> r.error == ReadFailed(ReadEdgelist(lines).error)
    ensures r.Success? ==> |r.value| == |ReadEdgelist(lines).value.0|
    ensures r.Success? ==> forall i :: 0 <= i < |r.value| ==> SortedBy(r.value[i], NatLeq)
    ensures r.Success? ==> forall i: nat, j: nat :: i < |r.value| && j < |r.value| ==>
      (j in r.value[i] <==> i in r.value[j])
  {
    match ReadEdgelist(lines)
    case Failure(e) => Failure(ReadFailed(e))
    case Success((nodes, edges)) =>
      ReadThenBuild(lines);
      match BuildAdj(nodes, edges)
      case Failure(e) => Failure(AdjFailed(e))
      case Success((_, adj)) =>
        AdjSymmetricAll(nodes, edges);
        Success(adj)
  }
}
