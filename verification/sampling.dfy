/** Drawing three vertices where `rng.sample(nodes, 3)` or `rng.choice(nodes)` is called. The
    draws are abstract position choices given as parameters, and the mapping from draws to
    positions is this model's own: it is not how CPython's generator picks indices. What the
    model promises is only what the calls guarantee: vertices of the list, pairwise distinct
    for `sample`, and every admissible triple reachable. */
module Sampling {
  import opened Sorting

  /** `ys` without its element at `i`. */
  function RemoveAt<T(==)>(ys: seq<T>, i: nat): (r: seq<T>)
    requires i < |ys|
    ensures multiset(r) == multiset(ys) - multiset{ys[i]}
    ensures forall z :: z in r ==> z in ys
  {
    assert ys == ys[..i] + [ys[i]] + ys[i + 1..];
    ys[..i] + ys[i + 1..]
  }

  /** Removing one entry of a duplicate-free list leaves a duplicate-free list without it. */
  lemma RemoveAtDistinct<T>(ys: seq<T>, i: nat)
    requires i < |ys|
    ensures Distinct(ys) ==> Distinct(RemoveAt(ys, i)) && ys[i] !in RemoveAt(ys, i)
    ensures forall z :: z in ys ==> z in RemoveAt(ys, i) || z == ys[i]
  {
    var r := RemoveAt(ys, i);
    assert forall p :: 0 <= p < |r| ==> r[p] == if p < i then ys[p] else ys[p + 1];
    forall z | z in ys && z != ys[i] ensures z in r {
      var q :| 0 <= q < |ys| && ys[q] == z;
      assert r[if q < i then q else q - 1] == z;
    }
  }

  /** Three vertices chosen without replacement by three positions: entry `i`, then entry `j` of
      what is left, then entry `k` of what is left after that. This encoding of a choice
      without replacement is the model's; CPython's `sample` selects differently. */
  function SampleAt<T(==)>(nodes: seq<T>, i: nat, j: nat, k: nat): (r: (T, T, T))
    requires i < |nodes| && j < |nodes| - 1 && k < |nodes| - 2
    ensures r.0 in nodes && r.1 in nodes && r.2 in nodes
    ensures Distinct(nodes) ==> r.0 != r.1 && r.0 != r.2 && r.1 != r.2
  {
    var rest := RemoveAt(nodes, i);
    var rest2 := RemoveAt(rest, j);
    RemoveAtDistinct(nodes, i);
    RemoveAtDistinct(rest, j);
    assert rest[j] in rest && rest2[k] in rest2;
    (nodes[i], rest[j], rest2[k])
  }

  /** One draw of three vertices. With at least three vertices it stands for
      `rng.sample(nodes, 3)`: three distinct vertices. With fewer it stands for three
      independent `rng.choice(nodes)`. The abstract draws are mapped to positions by reducing
      them modulo the count of candidates left; that mapping is the model's own. */
  function SampleThree<T(==)>(nodes: seq<T>, d0: nat, d1: nat, d2: nat): (r: (T, T, T))
    requires |nodes| > 0
    ensures r.0 in nodes && r.1 in nodes && r.2 in nodes
    ensures |nodes| >= 3 && Distinct(nodes) ==> r.0 != r.1 && r.0 != r.2 && r.1 != r.2
  {
    var n := |nodes|;
    if n >= 3 then SampleAt(nodes, Reduce(d0, n), Reduce(d1, n - 1), Reduce(d2, n - 2))
    else (nodes[Reduce(d0, n)], nodes[Reduce(d1, n)], nodes[Reduce(d2, n)])
  }

  /** An abstract draw `d` turned into a position among `m` candidates, and the draw itself
      when it is already one. */
  function Reduce(d: nat, m: nat): (r: nat)
    requires m > 0
    ensures r < m && (d < m ==> r == d)
  {
    d % m
  }

  /** Draws below the candidate counts pick exactly those positions. */
  lemma SampleThreeAt<T>(nodes: seq<T>, i: nat, j: nat, k: nat)
    requires 3 <= |nodes| && i < |nodes| && j < |nodes| - 1 && k < |nodes| - 2
    ensures SampleThree(nodes, i, j, k) == SampleAt(nodes, i, j, k)
  {
    var n := |nodes|;
    assert Reduce(i, n) == i && Reduce(j, n - 1) == j && Reduce(k, n - 2) == k;
  }

  /** With at least three vertices, every triple of pairwise distinct vertices can be drawn. */
  lemma SampleAtReaches<T>(nodes: seq<T>, a: T, b: T, c: T) returns (i: nat, j: nat, k: nat)
    requires Distinct(nodes) && 3 <= |nodes| && a in nodes && b in nodes && c in nodes
    requires a != b && a != c && b != c
    ensures i < |nodes| && j < |nodes| - 1 && k < |nodes| - 2
    ensures SampleAt(nodes, i, j, k) == (a, b, c)
  {
    i :| 0 <= i < |nodes| && nodes[i] == a;
    var rest := RemoveAt(nodes, i);
    RemoveAtDistinct(nodes, i);
    j :| 0 <= j < |rest| && rest[j] == b;
    var rest2 := RemoveAt(rest, j);
    RemoveAtDistinct(rest, j);
    k :| 0 <= k < |rest2| && rest2[k] == c;
  }

  /** Every admissible triple can come out of the draws: any three pairwise distinct vertices
      when there are at least three, and any three vertices at all otherwise. */
  lemma SampleThreeReaches<T>(nodes: seq<T>, a: T, b: T, c: T)
    requires Distinct(nodes) && a in nodes && b in nodes && c in nodes
    requires |nodes| >= 3 ==> a != b && a != c && b != c
    ensures exists d0: nat, d1: nat, d2: nat :: SampleThree(nodes, d0, d1, d2) == (a, b, c)
  {
    var n := |nodes|;
    if n >= 3 {
      var i, j, k := SampleAtReaches(nodes, a, b, c);
      SampleThreeAt(nodes, i, j, k);
      assert SampleThree(nodes, i, j, k) == (a, b, c);
    } else {
      var i :| 0 <= i < n && nodes[i] == a;
      var j :| 0 <= j < n && nodes[j] == b;
      var k :| 0 <= k < n && nodes[k] == c;
      assert Reduce(i, n) == i && Reduce(j, n) == j && Reduce(k, n) == k;
      assert SampleThree(nodes, i, j, k) == (a, b, c);
    }
  }
}
