/** First-seen dense numbering. A palette maps every key it has seen to an id; a key seen
    for the first time gets the next unused id. This is `palette.get(sig)` followed by
    `palette[sig] = nxt; nxt += 1` in the refinement rounds, `color_ids` in the vertex
    refinement, and `nid` in the CFI builder. The counter (`nxt`, `next_id`) is always the
    size of the map, so the model keeps only the map. */
module Palette {
  import opened Sorting

  /** Every id is below the number of keys. For a palette built by `Build` this makes the
      ids exactly 0 .. |p|-1, one per key (`BuildNumbersFirstSeen`). */
  ghost predicate Dense<S>(p: map<S, nat>) {
    forall s :: s in p ==> p[s] < |p|
  }

  /** Looks `s` up, giving it the next id if it is new. */
  function Assign<S(==,!new)>(p: map<S, nat>, s: S): (r: (map<S, nat>, nat))
    requires Dense(p)
    ensures Dense(r.0)
    ensures forall t :: t in r.0 <==> t in p || t == s
    ensures s in r.0 && r.0[s] == r.1
    ensures forall t :: t in p ==> r.0[t] == p[t]
    ensures s in p ==> r.1 == p[s]
    ensures s !in p ==> r.1 == |p| && |r.0| == |p| + 1
  {
    if s in p then (p, p[s])
    else
      var q := p[s := |p|];
      assert q.Keys == p.Keys + {s};
      (q, |p|)
  }

  /** The palette after the keys `xs` have been looked up in order, starting empty. */
  function Build<S(==,!new)>(xs: seq<S>): (p: map<S, nat>)
    ensures Dense(p)
    ensures forall s :: s in p <==> s in xs
    decreases |xs|
  {
    if |xs| == 0 then map[]
    else
      var prefix := xs[..|xs| - 1];
      assert xs == prefix + [xs[|xs| - 1]];
      Assign(Build(prefix), xs[|xs| - 1]).0
  }

  /** One id per distinct key. */
  lemma BuildSize<S(!new)>(xs: seq<S>)
    ensures |Build(xs)| == |Elems(xs)|
  {
    assert Build(xs).Keys == Elems(xs);
  }

  /** The distinct keys of `xs` in the order they are first seen. */
  function Uniq<S(==)>(xs: seq<S>): seq<S>
    decreases |xs|
  {
    if |xs| == 0 then []
    else
      var prefix := xs[..|xs| - 1];
      if xs[|xs| - 1] in prefix then Uniq(prefix) else Uniq(prefix) + [xs[|xs| - 1]]
  }

  /** The palette is a bijection between the distinct keys, in first-seen order, and the
      ids 0 .. |p|-1: the i-th distinct key to appear gets id i. */
  lemma {:induction false} BuildNumbersFirstSeen<S(!new)>(xs: seq<S>)
    ensures Distinct(Uniq(xs))
    ensures forall s :: s in Uniq(xs) <==> s in xs
    ensures |Uniq(xs)| == |Build(xs)|
    ensures forall i :: 0 <= i < |Uniq(xs)| ==> Build(xs)[Uniq(xs)[i]] == i
    ensures forall s :: s in Build(xs) ==> Uniq(xs)[Build(xs)[s]] == s
    decreases |xs|
  {
    if |xs| > 0 {
      var prefix := xs[..|xs| - 1];
      var x := xs[|xs| - 1];
      assert xs == prefix + [x];
      BuildNumbersFirstSeen(prefix);
      if x !in prefix {
        assert x !in Build(prefix);
      }
    }
  }

  /** No two keys of a built palette share an id. */
  lemma BuildInjective<S(!new)>(xs: seq<S>)
    ensures forall s, s' :: s in Build(xs) && s' in Build(xs) && Build(xs)[s] == Build(xs)[s'] ==> s == s'
  {
    BuildNumbersFirstSeen(xs);
  }

  /** Position of the first occurrence of `s` in `xs`. */
  function FirstIndex<S(==)>(xs: seq<S>, s: S): (i: nat)
    requires s in xs
    ensures i < |xs| && xs[i] == s
    ensures forall j :: 0 <= j < i ==> xs[j] != s
  {
    if xs[0] == s then 0 else 1 + FirstIndex(xs[1..], s)
  }

  lemma FirstIndexPrefix<S>(xs: seq<S>, m: nat, s: S)
    requires m <= |xs|
    requires s in xs[..m]
    ensures s in xs && FirstIndex(xs, s) == FirstIndex(xs[..m], s)
  {
    var i := FirstIndex(xs[..m], s);
    assert xs[i] == s;
    var j := FirstIndex(xs, s);
    assert j <= i;
    assert xs[..m][j] == s;
  }

  /** A key first seen at the last position gets a larger id, and is seen later, than every
      key seen before it. */
  lemma BuildNewestLast<S(!new)>(xs: seq<S>, s: S)
    requires |xs| > 0 && xs[|xs| - 1] !in xs[..|xs| - 1]
    requires s in xs[..|xs| - 1]
    ensures s in Build(xs) && xs[|xs| - 1] in Build(xs)
    ensures Build(xs)[s] < Build(xs)[xs[|xs| - 1]]
    ensures FirstIndex(xs, s) < FirstIndex(xs, xs[|xs| - 1])
  {
    var prefix := xs[..|xs| - 1];
    var x := xs[|xs| - 1];
    var p := Build(prefix);
    assert Build(xs) == Assign(p, x).0;
    FirstIndexPrefix(xs, |xs| - 1, s);
    assert FirstIndex(xs, x) == |xs| - 1;
    assert Build(xs)[s] == p[s] < |p| == Build(xs)[x];
  }

  lemma InLastOrBefore<S>(xs: seq<S>, s: S)
    requires |xs| > 0
    ensures s in xs <==> s in xs[..|xs| - 1] || s == xs[|xs| - 1]
  {
    assert xs == xs[..|xs| - 1] + [xs[|xs| - 1]];
  }

  /** Keys seen before the last position keep their id and their first position. */
  lemma BuildKeepsEarlier<S(!new)>(xs: seq<S>, s: S)
    requires |xs| > 0 && s in xs[..|xs| - 1]
    ensures s in Build(xs) && s in Build(xs[..|xs| - 1])
    ensures Build(xs)[s] == Build(xs[..|xs| - 1])[s]
    ensures FirstIndex(xs, s) == FirstIndex(xs[..|xs| - 1], s)
  {
    assert Build(xs) == Assign(Build(xs[..|xs| - 1]), xs[|xs| - 1]).0;
    FirstIndexPrefix(xs, |xs| - 1, s);
  }

  /** Once a key has an id, later lookups leave it unchanged: the id a key gets when first
      seen is its id in the final palette. */
  lemma {:induction false} BuildPrefixStable<S(!new)>(xs: seq<S>, m: nat, s: S)
    requires m <= |xs| && s in xs[..m]
    ensures s in Build(xs[..m]) && s in Build(xs)
    ensures Build(xs[..m])[s] == Build(xs)[s]
    decreases |xs| - m
  {
    if m < |xs| {
      var prefix := xs[..|xs| - 1];
      assert xs[..m] == prefix[..m];
      BuildPrefixStable(prefix, m, s);
      assert s in prefix;
      BuildKeepsEarlier(xs, s);
    }
    else {
      assert xs[..m] == xs;
    }
  }

  lemma {:induction false} BuildFirstSeenPair<S(!new)>(xs: seq<S>, s: S, s': S)
    requires s in Build(xs) && s' in Build(xs)
    ensures Build(xs)[s] < Build(xs)[s'] <==> FirstIndex(xs, s) < FirstIndex(xs, s')
    decreases |xs|
  {
    var prefix := xs[..|xs| - 1];
    var x := xs[|xs| - 1];
    InLastOrBefore(xs, s);
    InLastOrBefore(xs, s');
    if s in prefix && s' in prefix {
      BuildKeepsEarlier(xs, s);
      BuildKeepsEarlier(xs, s');
      BuildFirstSeenPair(prefix, s, s');
    } else if s == x && s' != x {
      BuildNewestLast(xs, s');
    } else if s' == x && s != x {
      BuildNewestLast(xs, s);
    }
  }

  /** Ids follow first occurrence: the earlier a key is first seen, the smaller its id. */
  lemma BuildFirstSeenOrder<S(!new)>(xs: seq<S>)
    ensures forall s, s' :: s in Build(xs) && s' in Build(xs) ==>
      (Build(xs)[s] < Build(xs)[s'] <==> FirstIndex(xs, s) < FirstIndex(xs, s'))
  {
    forall s, s' | s in Build(xs) && s' in Build(xs)
      ensures Build(xs)[s] < Build(xs)[s'] <==> FirstIndex(xs, s) < FirstIndex(xs, s')
    {
      BuildFirstSeenPair(xs, s, s');
    }
  }

  /** The signature of every position of `dom`. */
  function Image<T, S>(dom: seq<T>, sig: map<T, S>): (img: seq<S>)
    requires forall t :: t in dom ==> t in sig
    ensures |img| == |dom|
    ensures forall k :: 0 <= k < |dom| ==> img[k] == sig[dom[k]]
  {
    seq(|dom|, k requires 0 <= k < |dom| => sig[dom[k]])
  }

  lemma ImageHas<T, S>(dom: seq<T>, sig: map<T, S>)
    requires forall t :: t in dom ==> t in sig
    ensures forall t :: t in dom ==> sig[t] in Image(dom, sig)
    ensures forall s :: s in Image(dom, sig) ==> exists t :: t in dom && sig[t] == s
  {
    var img := Image(dom, sig);
    forall t | t in dom ensures sig[t] in img {
      var k :| 0 <= k < |dom| && dom[k] == t;
      assert img[k] == sig[t];
    }
    forall s | s in img ensures exists t :: t in dom && sig[t] == s {
      var k :| 0 <= k < |img| && img[k] == s;
      assert dom[k] in dom;
    }
  }

  /** Every signature of `dom` has an id, and every id of the palette built over the
      image belongs to some element of `dom`. */
  lemma ImageIdReached<T, S(!new)>(dom: seq<T>, sig: map<T, S>, k: nat)
    requires forall t :: t in dom ==> t in sig
    requires k < |Build(Image(dom, sig))|
    ensures forall t :: t in dom ==> sig[t] in Build(Image(dom, sig))
    ensures exists t :: t in dom && sig[t] in Build(Image(dom, sig)) && Build(Image(dom, sig))[sig[t]] == k
  {
    var img := Image(dom, sig);
    var p := Build(img);
    ImageHas(dom, sig);
    BuildNumbersFirstSeen(img);
    var s := Uniq(img)[k];
    assert s in img;
    var i :| 0 <= i < |img| && img[i] == s;
    var t := dom[i];
    assert sig[t] == s;
    assert p[s] == k;
  }

  /** One round's relabelling: every element of `dom` gets the palette id of its signature,
      the palette being built over `dom` in order, so elements share an id iff they share a
      signature. `RecolourDense` and `RecolourFirstSeen` give the ids' range and order. */
  function Recolour<T(==,!new), S(==,!new)>(dom: seq<T>, sig: map<T, S>): (r: map<T, nat>)
    requires forall t :: t in dom ==> t in sig
    ensures forall t :: t in r <==> t in dom
    ensures forall t :: t in r ==> sig[t] in Build(Image(dom, sig)) && r[t] == Build(Image(dom, sig))[sig[t]]
    ensures forall t, t' :: t in r && t' in r ==> (r[t] == r[t'] <==> sig[t] == sig[t'])
  {
    var img := Image(dom, sig);
    var p := Build(img);
    ImageHas(dom, sig);
    BuildInjective(img);
    map t | t in dom :: p[sig[t]]
  }

  /** The ids of a round are exactly 0 .. m-1, m being the number of distinct signatures. */
  lemma RecolourDense<T(!new), S(!new)>(dom: seq<T>, sig: map<T, S>)
    requires forall t :: t in dom ==> t in sig
    ensures forall k :: k in Recolour(dom, sig).Values <==> 0 <= k < |Build(Image(dom, sig))|
  {
    var r := Recolour(dom, sig);
    var p := Build(Image(dom, sig));
    forall k | 0 <= k < |p| ensures k in r.Values {
      ImageIdReached(dom, sig, k);
      var t :| t in dom && sig[t] in p && p[sig[t]] == k;
      assert r[t] == k;
    }
  }

  /** Ids follow the position in `dom` where each signature first shows up. */
  lemma RecolourFirstSeen<T(!new), S(!new)>(dom: seq<T>, sig: map<T, S>)
    requires forall t :: t in dom ==> t in sig
    ensures forall t, t' :: t in Recolour(dom, sig) && t' in Recolour(dom, sig) ==>
      (Recolour(dom, sig)[t] < Recolour(dom, sig)[t'] <==>
       FirstIndex(Image(dom, sig), sig[t]) < FirstIndex(Image(dom, sig), sig[t']))
  {
    ImageHas(dom, sig);
    BuildFirstSeenOrder(Image(dom, sig));
  }

  /** The first-seen order for two given keys. */
  lemma RecolourFirstSeenAt<T(!new), S(!new)>(dom: seq<T>, sig: map<T, S>, t: T, t': T)
    requires forall t :: t in dom ==> t in sig
    requires t in dom && t' in dom
    ensures sig[t] in Image(dom, sig) && sig[t'] in Image(dom, sig)
    ensures sig[t] in Build(Image(dom, sig)) && sig[t'] in Build(Image(dom, sig))
    ensures Build(Image(dom, sig))[sig[t]] < Build(Image(dom, sig))[sig[t']] <==>
      FirstIndex(Image(dom, sig), sig[t]) < FirstIndex(Image(dom, sig), sig[t'])
  {
    ImageHas(dom, sig);
    BuildFirstSeenPair(Image(dom, sig), sig[t], sig[t']);
  }
}
