/**
 * Named map regions ("countries"), the store holding them, the hit-test
 * that both the authoring screen and the detection screen run over the
 * store, and the label position drawn at each region's centroid.
 */
module Regions {
  import opened Geometry

  /** A polygon in map space and the name the operator typed for it. */
  datatype Region = Region(polygon: seq<Point>, name: string)

  /** Regions in insertion order; the order decides which match is reported first. */
  type Store = seq<Region>

  /** Every region in the store has at least three vertices. */
  predicate WellFormed(store: Store) {
    forall i :: 0 <= i < |store| ==> |store[i].polygon| > 2
  }

  // ---------------------------------------------------------------------------
  // Hit-test

  /** The positions in the store of the regions that contain `tip`, ascending. */
  function MatchIndices(store: Store, tip: Point): (idx: seq<nat>)
    ensures forall k :: 0 <= k < |idx| ==> idx[k] < |store| && Contains(store[idx[k]].polygon, tip)
    ensures forall i :: 0 <= i < |store| && Contains(store[i].polygon, tip) ==> i in idx
    ensures forall k, l :: 0 <= k < l < |idx| ==> idx[k] < idx[l]
  {
    if |store| == 0 then []
    else
      var n := |store| - 1;
      MatchIndices(store[..n], tip) + (if Contains(store[n].polygon, tip) then [n] else [])
  }

  /**
   * The regions whose polygon contains `tip` (boundary included), in store
   * order: one pass of the `for polygon, name in polygons` hit-test loop.
   */
  function HitTest(store: Store, tip: Point): (hits: seq<Region>)
    ensures |hits| <= |store|
    ensures forall k :: 0 <= k < |hits| ==> hits[k] in store && Contains(hits[k].polygon, tip)
    ensures |hits| == |MatchIndices(store, tip)|
    ensures forall k :: 0 <= k < |hits| ==> hits[k] == store[MatchIndices(store, tip)[k]]
  {
    if |store| == 0 then []
    else
      var n := |store| - 1;
      HitTest(store[..n], tip) + (if Contains(store[n].polygon, tip) then [store[n]] else [])
  }

  /** The names of `regions`, in order. */
  function Names(regions: seq<Region>): (names: seq<string>)
    ensures |names| == |regions|
    ensures forall k :: 0 <= k < |regions| ==> names[k] == regions[k].name
  {
    seq(|regions|, k requires 0 <= k < |regions| => regions[k].name)
  }

  /**
   * A region is reported for `tip` exactly when its polygon contains the
   * tip, and each such region is reported once, at its store position.
   */
  lemma HitTestExact(store: Store, tip: Point, i: nat)
    requires i < |store|
    ensures Contains(store[i].polygon, tip) <==> i in MatchIndices(store, tip)
    ensures Contains(store[i].polygon, tip) ==> store[i] in HitTest(store, tip)
  {
    var idx := MatchIndices(store, tip);
    if Contains(store[i].polygon, tip) {
      var k :| 0 <= k < |idx| && idx[k] == i;
      assert HitTest(store, tip)[k] == store[i];
    }
  }

  // ---------------------------------------------------------------------------
  // Label position

  function Sum(vals: seq<int>): int {
    if |vals| == 0 then 0 else vals[0] + Sum(vals[1..])
  }

  function SeqMin(vals: seq<int>): int
    requires |vals| > 0
  {
    if |vals| == 1 then vals[0] else Min(vals[0], SeqMin(vals[1..]))
  }

  function SeqMax(vals: seq<int>): int
    requires |vals| > 0
  {
    if |vals| == 1 then vals[0] else Max(vals[0], SeqMax(vals[1..]))
  }

  lemma {:induction false} SumBounds(vals: seq<int>)
    requires |vals| > 0
    ensures |vals| * SeqMin(vals) <= Sum(vals) <= |vals| * SeqMax(vals)
  {
    if |vals| > 1 {
      var rest := vals[1..];
      SumBounds(rest);
      BoundsStep(vals[0], Sum(rest), |rest|, SeqMin(rest), SeqMax(rest), SeqMin(vals), SeqMax(vals));
    }
  }

  /** Adding one value between `lo` and `hi` to `m` values whose bounds lie within them. */
  lemma BoundsStep(x: int, total: int, m: nat, loRest: int, hiRest: int, lo: int, hi: int)
    requires m * loRest <= total <= m * hiRest
    requires lo <= x <= hi && lo <= loRest && hiRest <= hi
    ensures (m + 1) * lo <= x + total <= (m + 1) * hi
  {
    MulMono(m, lo, loRest);
    MulMono(m, hiRest, hi);
    assert (m + 1) * lo == m * lo + lo;
    assert (m + 1) * hi == m * hi + hi;
  }

  lemma MulMono(m: nat, a: int, b: int)
    requires a <= b
    ensures m * a <= m * b
  {
    assert m * b - m * a == m * (b - a);
  }

  /**
   * Python's `int(a / n)` for a positive count `n`: the quotient truncated
   * toward zero, which is the floor for non-negative `a` and the ceiling for
   * negative `a` (Dafny's own `/` is Euclidean, so it is written out).
   */
  function TruncDiv(a: int, n: int): (q: int)
    requires n > 0
    ensures a >= 0 ==> q * n <= a < (q + 1) * n
    ensures a < 0 ==> (q - 1) * n < a <= q * n
  {
    if a >= 0 then a / n else -((-a) / n)
  }

  lemma MulCancel(a: int, b: int, n: int)
    requires n > 0 && a * n < b * n
    ensures a < b
  {
  }

  /** The truncated mean of a non-empty list of coordinates. */
  function Average(vals: seq<int>): (m: int)
    requires |vals| > 0
    ensures SeqMin(vals) <= m <= SeqMax(vals)
    ensures Sum(vals) >= 0 ==> m * |vals| <= Sum(vals) < (m + 1) * |vals|
    ensures Sum(vals) < 0 ==> (m - 1) * |vals| < Sum(vals) <= m * |vals|
  {
    var q := TruncDiv(Sum(vals), |vals|);
    AverageInRange(vals, q);
    q
  }

  lemma AverageInRange(vals: seq<int>, q: int)
    requires |vals| > 0
    requires Sum(vals) >= 0 ==> q * |vals| <= Sum(vals) < (q + 1) * |vals|
    requires Sum(vals) < 0 ==> (q - 1) * |vals| < Sum(vals) <= q * |vals|
    ensures SeqMin(vals) <= q <= SeqMax(vals)
  {
    SumBounds(vals);
    MeanBounds(Sum(vals), |vals|, SeqMin(vals), SeqMax(vals), q);
  }

  /** A truncated quotient of a total lying between `n * lo` and `n * hi` lies between `lo` and `hi`. */
  lemma MeanBounds(total: int, n: int, lo: int, hi: int, q: int)
    requires n > 0 && n * lo <= total <= n * hi
    requires total >= 0 ==> q * n <= total < (q + 1) * n
    requires total < 0 ==> (q - 1) * n < total <= q * n
    ensures lo <= q <= hi
  {
    assert n * lo == lo * n && n * hi == hi * n;
    if total >= 0 {
      MulCancel(lo, q + 1, n);
      MulCancel(q, hi + 1, n);
    } else {
      MulCancel(q - 1, hi, n);
      MulCancel(lo - 1, q, n);
    }
  }

  function Xs(poly: seq<Point>): (xs: seq<int>)
    ensures |xs| == |poly|
    ensures forall i :: 0 <= i < |poly| ==> xs[i] == poly[i].x
  {
    seq(|poly|, i requires 0 <= i < |poly| => poly[i].x)
  }

  function Ys(poly: seq<Point>): (ys: seq<int>)
    ensures |ys| == |poly|
    ensures forall i :: 0 <= i < |poly| ==> ys[i] == poly[i].y
  {
    seq(|poly|, i requires 0 <= i < |poly| => poly[i].y)
  }

  /**
   * Where a region's name is drawn: the vertex average, each coordinate
   * truncated. It always lies inside the polygon's bounding box, and for
   * non-negative pixel coordinates it is the floor of the average.
   */
  function Centroid(poly: seq<Point>): (c: Point)
    requires |poly| > 0
    ensures SeqMin(Xs(poly)) <= c.x <= SeqMax(Xs(poly))
    ensures SeqMin(Ys(poly)) <= c.y <= SeqMax(Ys(poly))
    ensures Sum(Xs(poly)) >= 0 ==> c.x * |poly| <= Sum(Xs(poly)) < (c.x + 1) * |poly|
    ensures Sum(Ys(poly)) >= 0 ==> c.y * |poly| <= Sum(Ys(poly)) < (c.y + 1) * |poly|
  {
    Point(Average(Xs(poly)), Average(Ys(poly)))
  }
}
