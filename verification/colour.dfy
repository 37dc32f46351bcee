/** Colours of the exact refinement and the order Python sorts them in. Round 0 colours are
    tuples of small integers (the equality/adjacency pattern); every later round's colours
    are palette ids. Within one round all colours are of one kind, so the order between the
    two kinds (patterns first) never decides anything: it only makes the order total. */
module Colours {
  import opened Sorting
  import Palette

  datatype Colour = Pattern(bits: seq<int>) | Id(id: nat)

  /** Python's `<=` on two tuples of integers. */
  predicate LexLeq(a: seq<int>, b: seq<int>) {
    |a| == 0 || (|b| > 0 && (a[0] < b[0] || (a[0] == b[0] && LexLeq(a[1..], b[1..]))))
  }

  lemma {:induction false} LexLeqAntisymmetric(a: seq<int>, b: seq<int>)
    requires LexLeq(a, b) && LexLeq(b, a)
    ensures a == b
  {
    if |a| > 0 {
      LexLeqAntisymmetric(a[1..], b[1..]);
      assert a == [a[0]] + a[1..] && b == [b[0]] + b[1..];
    }
  }

  lemma {:induction false} LexLeqTransitive(a: seq<int>, b: seq<int>, c: seq<int>)
    requires LexLeq(a, b) && LexLeq(b, c)
    ensures LexLeq(a, c)
  {
    if |a| > 0 && |b| > 0 && |c| > 0 && a[0] == b[0] == c[0] {
      LexLeqTransitive(a[1..], b[1..], c[1..]);
    }
  }

  lemma {:induction false} LexLeqTotal(a: seq<int>, b: seq<int>)
    ensures LexLeq(a, b) || LexLeq(b, a)
    ensures LexLeq(a, a)
  {
    if |a| > 0 && |b| > 0 {
      LexLeqTotal(a[1..], b[1..]);
    }
    if |a| > 0 {
      LexLeqTotal(a[1..], a[1..]);
    }
  }

  predicate ColourLeq(x: Colour, y: Colour) {
    match (x, y)
    case (Pattern(a), Pattern(b)) => LexLeq(a, b)
    case (Id(i), Id(j)) => i <= j
    case (Pattern(_), Id(_)) => true
    case (Id(_), Pattern(_)) => false
  }

  lemma ColourLeqTotal()
    ensures TotalOrder(ColourLeq)
  {
    forall x ensures ColourLeq(x, x) {
      if x.Pattern? {
        LexLeqTotal(x.bits, x.bits);
      }
    }
    forall x, y | ColourLeq(x, y) && ColourLeq(y, x) ensures x == y {
      if x.Pattern? && y.Pattern? {
        LexLeqAntisymmetric(x.bits, y.bits);
      }
    }
    forall x, y, z | ColourLeq(x, y) && ColourLeq(y, z) ensures ColourLeq(x, z) {
      if x.Pattern? && y.Pattern? && z.Pattern? {
        LexLeqTransitive(x.bits, y.bits, z.bits);
      }
    }
    forall x, y ensures ColourLeq(x, y) || ColourLeq(y, x) {
      if x.Pattern? && y.Pattern? {
        LexLeqTotal(x.bits, y.bits);
      }
    }
  }

  /** Python's order on a pair of colours: by the first, then by the second. */
  predicate PairLeq(x: (Colour, Colour), y: (Colour, Colour)) {
    (ColourLeq(x.0, y.0) && x.0 != y.0) || (x.0 == y.0 && ColourLeq(x.1, y.1))
  }

  lemma PairLeqTotal()
    ensures TotalOrder(PairLeq)
  {
    ColourLeqTotal();
  }

  /** The number of keys in the enumeration `dom` that carry colour `x`. */
  function Occurrences<K>(c: map<K, Colour>, dom: seq<K>, x: Colour): nat
    requires forall t :: t in dom ==> t in c
    decreases |dom|
  {
    if |dom| == 0 then 0
    else (if c[dom[0]] == x then 1 else 0) + Occurrences(c, dom[1..], x)
  }

  lemma {:induction false} ImageCounts<K>(c: map<K, Colour>, dom: seq<K>, x: Colour)
    requires forall t :: t in dom ==> t in c
    ensures multiset(Palette.Image(dom, c))[x] == Occurrences(c, dom, x)
    decreases |dom|
  {
    if |dom| > 0 {
      ImageCounts(c, dom[1..], x);
      assert Palette.Image(dom, c) == [c[dom[0]]] + Palette.Image(dom[1..], c);
    }
  }

  /** `Counter(colors.values())`: for every colour, how many keys carry it. */
  function Histogram<K>(c: map<K, Colour>, dom: seq<K>): (h: multiset<Colour>)
    requires forall t :: t in dom ==> t in c
    ensures |h| == |dom|
    ensures forall x :: x in h <==> exists t :: t in dom && c[t] == x
    ensures forall x :: h[x] == Occurrences(c, dom, x)
  {
    var img := Palette.Image(dom, c);
    Palette.ImageHas(dom, c);
    forall x ensures multiset(img)[x] == Occurrences(c, dom, x) {
      ImageCounts(c, dom, x);
    }
    multiset(img)
  }
}
