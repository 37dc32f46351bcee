/** What the three refinement procedures share: a colouring is a map over an enumerated key
    space, and one colouring refines another when it never merges keys the other separates. */
module Refinement {
  /** Every key of the enumeration `dom` has a colour. */
  ghost predicate Covers<K, V>(c: map<K, V>, dom: seq<K>) {
    forall t :: t in dom ==> t in c
  }

  /** `fine` gives one colour only to keys that `coarse` also gives one colour. */
  ghost predicate Refines<K, V, W>(fine: map<K, V>, coarse: map<K, W>, dom: seq<K>)
    requires Covers(fine, dom) && Covers(coarse, dom)
  {
    forall t, t' :: t in dom && t' in dom && fine[t] == fine[t'] ==> coarse[t] == coarse[t']
  }

  lemma RefinesTransitive<K, U, V, W>(a: map<K, U>, b: map<K, V>, c: map<K, W>, dom: seq<K>)
    requires Covers(a, dom) && Covers(b, dom) && Covers(c, dom)
    requires Refines(a, b, dom) && Refines(b, c, dom)
    ensures Refines(a, c, dom)
  {
  }

  /** The distinct colours in use on `dom`. */
  function Classes<K, V(!new)>(c: map<K, V>, dom: seq<K>): (cs: set<V>)
    requires Covers(c, dom)
    ensures forall v :: v in cs <==> exists t :: t in dom && c[t] == v
  {
    set t | t in dom :: c[t]
  }

  lemma {:induction false} MapValuesCard<A, B>(m: map<A, B>)
    ensures |m.Values| <= |m.Keys|
    decreases |m.Keys|
  {
    if |m.Keys| > 0 {
      var k :| k in m;
      var m' := m - {k};
      MapValuesCard(m');
      assert m.Keys == m'.Keys + {k};
      assert m.Values <= m'.Values + {m[k]};
      SubsetCard(m.Values, m'.Values + {m[k]});
    }
  }

  lemma {:induction false} SubsetCard<A>(a: set<A>, b: set<A>)
    requires a <= b
    ensures |a| <= |b|
    decreases |b|
  {
    if |b| > 0 {
      var x :| x in b;
      SubsetCard(a - {x}, b - {x});
    }
  }

  /** A refinement never uses fewer colours than the colouring it refines. */
  lemma RefinesClassCount<K, V(!new), W(!new)>(fine: map<K, V>, coarse: map<K, W>, dom: seq<K>)
    requires Covers(fine, dom) && Covers(coarse, dom)
    requires Refines(fine, coarse, dom)
    ensures |Classes(coarse, dom)| <= |Classes(fine, dom)|
  {
    var fs := Classes(fine, dom);
    var h := map v | v in fs :: (var t :| t in dom && fine[t] == v; coarse[t]);
    assert Classes(coarse, dom) <= h.Values by {
      forall w | w in Classes(coarse, dom) ensures w in h.Values {
        var t :| t in dom && coarse[t] == w;
        assert h[fine[t]] == w;
      }
    }
    MapValuesCard(h);
    assert h.Keys == fs;
    SubsetCard(Classes(coarse, dom), h.Values);
  }
}
