/** Python's `sorted` on a list, for an order given as a total preorder: the
    result is a permutation of the input in which every element is in order
    with every later one. */
module Sorting {
  /** `leq` is total and transitive. */
  ghost predicate TotalPreorder<T(!new)>(leq: (T, T) -> bool) {
    && (forall a, b :: leq(a, b) || leq(b, a))
    && (forall a, b, c :: leq(a, b) && leq(b, c) ==> leq(a, c))
  }

  predicate SortedBy<T>(xs: seq<T>, leq: (T, T) -> bool) {
    forall i, j :: 0 <= i < j < |xs| ==> leq(xs[i], xs[j])
  }

  /** Insertion of one element into a sorted list. */
  function Insert<T(!new)>(x: T, ys: seq<T>, leq: (T, T) -> bool): (r: seq<T>)
    requires TotalPreorder(leq) && SortedBy(ys, leq)
    ensures multiset(r) == multiset(ys) + multiset{x}
    ensures SortedBy(r, leq)
    decreases |ys|
  {
    if |ys| == 0 then [x]
    else if leq(x, ys[0]) then
      assert forall j :: 0 < j < |ys| ==> leq(ys[0], ys[j]);
      [x] + ys
    else
      var rest := Insert(x, ys[1..], leq);
      assert ys == [ys[0]] + ys[1..];
      LowerBound(ys[0], rest, ys[1..], x, leq);
      [ys[0]] + rest
  }

  /** A lower bound of `zs` and of `x` bounds every element of a list holding
      exactly `zs` and `x`. */
  lemma LowerBound<T>(y: T, r: seq<T>, zs: seq<T>, x: T, leq: (T, T) -> bool)
    requires multiset(r) == multiset(zs) + multiset{x}
    requires leq(y, x) && forall j :: 0 <= j < |zs| ==> leq(y, zs[j])
    ensures forall j :: 0 <= j < |r| ==> leq(y, r[j])
  {
    forall j | 0 <= j < |r| ensures leq(y, r[j]) {
      assert r[j] in multiset(r);
      if r[j] != x {
        assert r[j] in multiset(zs);
        var i :| 0 <= i < |zs| && zs[i] == r[j];
      }
    }
  }

  /** `sorted(xs)` for the order `leq`. */
  function Sort<T(!new)>(xs: seq<T>, leq: (T, T) -> bool): (r: seq<T>)
    requires TotalPreorder(leq)
    ensures multiset(r) == multiset(xs)
    ensures SortedBy(r, leq)
    decreases |xs|
  {
    if |xs| == 0 then []
    else
      assert xs == [xs[0]] + xs[1..];
      Insert(xs[0], Sort(xs[1..], leq), leq)
  }

  /** A sorted permutation has the same length and the same elements. */
  lemma SortKeepsElements<T(!new)>(xs: seq<T>, leq: (T, T) -> bool)
    requires TotalPreorder(leq)
    ensures |Sort(xs, leq)| == |xs|
    ensures forall x :: x in Sort(xs, leq) <==> x in xs
  {
    var r := Sort(xs, leq);
    assert |multiset(r)| == |multiset(xs)|;
    forall x ensures x in r <==> x in xs {
      assert x in r <==> x in multiset(r);
      assert x in xs <==> x in multiset(xs);
    }
  }

  /** Two sorted permutations of the same elements are equal when no two
      different elements are in order both ways: the sort is then unique. */
  lemma {:induction false} SortedUnique<T>(xs: seq<T>, ys: seq<T>, leq: (T, T) -> bool)
    requires SortedBy(xs, leq) && SortedBy(ys, leq)
    requires multiset(xs) == multiset(ys)
    requires forall a, b :: a in xs && b in xs && leq(a, b) && leq(b, a) ==> a == b
    ensures xs == ys
    decreases |xs|
  {
    assert |xs| == |multiset(xs)| == |ys|;
    if |xs| > 0 {
      SameHead(xs, ys, leq);
      SameTail(xs, ys);
      SortedUnique(xs[1..], ys[1..], leq);
      assert xs == [xs[0]] + xs[1..] && ys == [ys[0]] + ys[1..];
    }
  }

  /** The first elements of two such lists agree. */
  lemma SameHead<T>(xs: seq<T>, ys: seq<T>, leq: (T, T) -> bool)
    requires |xs| > 0 && |ys| > 0
    requires SortedBy(xs, leq) && SortedBy(ys, leq)
    requires multiset(xs) == multiset(ys)
    requires forall a, b :: a in xs && b in xs && leq(a, b) && leq(b, a) ==> a == b
    ensures xs[0] == ys[0]
  {
    assert xs[0] in multiset(ys) && ys[0] in multiset(xs);
    var i :| 0 <= i < |ys| && ys[i] == xs[0];
    var j :| 0 <= j < |xs| && xs[j] == ys[0];
    if i > 0 && j > 0 {
      assert leq(ys[0], ys[i]) && leq(xs[0], xs[j]);
    }
  }

  /** Removing equal first elements leaves the same elements. */
  lemma SameTail<T>(xs: seq<T>, ys: seq<T>)
    requires |xs| > 0 && |ys| > 0 && xs[0] == ys[0]
    requires multiset(xs) == multiset(ys)
    ensures multiset(xs[1..]) == multiset(ys[1..])
  {
    assert xs == [xs[0]] + xs[1..] && ys == [ys[0]] + ys[1..];
    calc {
      multiset(xs[1..]);
      multiset(xs) - multiset{xs[0]};
      multiset(ys) - multiset{ys[0]};
      multiset(ys[1..]);
    }
  }
}

/** `Image.__lt__` and the sort order of `Sprite.process` (glue/core.py). */
module Ordering {
  import opened Values
  import opened Errors
  import opened Sorting

  /** The four measures of `ORDERINGS`. */
  datatype Key = MaxSide | Width | Height | Area

  /** `ORDERINGS`. */
  const Orderings: seq<string> := ["maxside", "width", "height", "area"]

  /** One leading `-` removed. */
  function StripSign(ordering: string): (r: string)
    ensures |ordering| > 0 && ordering[0] == '-' ==> ordering == "-" + r
    ensures !(|ordering| > 0 && ordering[0] == '-') ==> r == ordering
  {
    if |ordering| > 0 && ordering[0] == '-' then ordering[1..] else ordering
  }

  /** The measure an ordering setting names; an unknown name (after the sign)
      is an InvalidImageOrdering error carrying it. */
  function ParseOrdering(ordering: string): (r: Result<Key>)
    ensures r.Ok? <==> StripSign(ordering) in Orderings
    ensures r.Err? ==> r.error == InvalidImageOrdering(StripSign(ordering))
    ensures r == Ok(MaxSide) <==> StripSign(ordering) == "maxside"
    ensures r == Ok(Width) <==> StripSign(ordering) == "width"
    ensures r == Ok(Height) <==> StripSign(ordering) == "height"
    ensures r == Ok(Area) <==> StripSign(ordering) == "area"
  {
    var o := StripSign(ordering);
    if o == "width" then Ok(Width)
    else if o == "height" then Ok(Height)
    else if o == "area" then Ok(Area)
    else if o == "maxside" then Ok(MaxSide)
    else Err(InvalidImageOrdering(o))
  }

  /** The value `__lt__` compares for an image of the given absolute size. */
  function Measure(k: Key, width: int, height: int): int {
    match k
    case MaxSide => if width >= height then width else height
    case Width => width
    case Height => height
    case Area => width * height
  }

  /** `a < b` as `__lt__` answers it: non-strictly, with `<=`. */
  predicate Precedes(k: Key, a: (int, int), b: (int, int)) {
    Measure(k, a.0, a.1) <= Measure(k, b.0, b.1)
  }

  /** `__lt__` says `a < a`: Python sees every image as smaller than itself. */
  lemma PrecedesReflexive(k: Key, a: (int, int))
    ensures Precedes(k, a, a)
  {
  }

  /** `__lt__` orders any two images one way or the other, and consistently. */
  lemma PrecedesTotalPreorder(k: Key)
    ensures TotalPreorder((a: (int, int), b: (int, int)) => Precedes(k, a, b))
  {
  }

  /** The `reverse` flag `process` passes: `ordering[0] != '-'`. Indexing an
      empty string is an IndexError, indexing a non-string a TypeError. */
  function Reverse(ordering: Value): (r: Result<bool>)
    ensures ordering.Str? && ordering.s != "" ==> r == Ok(ordering.s[0] != '-')
    ensures ordering == Str("") ==> r == Err(IndexError)
    ensures !ordering.Str? ==> r == Err(TypeError)
  {
    match ordering
    case Str(s) => if |s| == 0 then Err(IndexError) else Ok(s[0] != '-')
    case _ => Err(TypeError)
  }

  /** The measure of an absolute size. */
  function MeasureOf(k: Key, size: (int, int)): int {
    Measure(k, size.0, size.1)
  }

  /** The order `sorted(..., reverse=...)` uses for items of the given
      absolute sizes: ascending by the measure, or descending when reversed. */
  function OrderOf<T>(size: T -> (int, int), k: Key, reverse: bool): (T, T) -> bool {
    (a: T, b: T) => if reverse then MeasureOf(k, size(b)) <= MeasureOf(k, size(a))
                    else MeasureOf(k, size(a)) <= MeasureOf(k, size(b))
  }

  lemma OrderOfIsTotalPreorder<T(!new)>(size: T -> (int, int), k: Key, reverse: bool)
    ensures TotalPreorder(OrderOf(size, k, reverse))
  {
  }

  /** `sorted(items, reverse=reverse)` with `__lt__` comparing the measure:
      a permutation of the items whose measures ascend, or descend when
      reversed. Python's sort is not told how to order items of equal
      measure consistently (`__lt__` answers true both ways), so nothing is
      promised about their relative order. */
  function SortByMeasure<T(!new)>(items: seq<T>, size: T -> (int, int), k: Key, reverse: bool): (r: seq<T>)
    ensures multiset(r) == multiset(items)
    ensures reverse ==> forall i, j :: 0 <= i < j < |r| ==> MeasureOf(k, size(r[j])) <= MeasureOf(k, size(r[i]))
    ensures !reverse ==> forall i, j :: 0 <= i < j < |r| ==> MeasureOf(k, size(r[i])) <= MeasureOf(k, size(r[j]))
  {
    OrderOfIsTotalPreorder(size, k, reverse);
    var r := Sort(items, OrderOf(size, k, reverse));
    assert forall i, j :: 0 <= i < j < |r| ==> OrderOf(size, k, reverse)(r[i], r[j]);
    r
  }
}
