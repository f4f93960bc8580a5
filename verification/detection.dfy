/**
 * The live detection screen (`front_end_logic.py`): per camera frame, up to
 * two fingertips are mapped onto the map, hit-tested against every stored
 * region, the matching regions are filled on an overlay (with a line
 * between the tips when there are two), and when exactly two region names
 * were detected a flight-information box is requested for them.
 *
 * Images are not modelled: an overlay is the list of shapes drawn on it,
 * and a frame's output is either the untouched camera frame or the camera
 * frame composed with an overlay layer and an info layer.
 */
module Detection {
  import opened Wrappers
  import opened Geometry
  import opened Regions
  import opened Flight
  import Calibration

  /** Fingertips beyond this many hands are ignored. */
  const MaxHands: nat := 2

  /**
   * The fingertips of the first two detected hands, in the detector's hand
   * order, each carried onto the map by `warp` (the perspective transform
   * followed by integer truncation, not modelled).
   */
  function FingerLocations(hands: seq<Point>, warp: Point -> Point): (tips: seq<Point>)
    ensures |tips| == Min(MaxHands, |hands|)
    ensures forall i :: 0 <= i < |tips| ==> tips[i] == warp(hands[i])
  {
    var n := Min(MaxHands, |hands|);
    seq(n, i requires 0 <= i < n => warp(hands[i]))
  }

  /**
   * Hands detected beyond the first two change nothing: neither the tips
   * nor the names detected for the frame.
   */
  lemma ExtraHandsIgnored(store: Store, hands: seq<Point>, more: seq<Point>, warp: Point -> Point)
    requires |hands| >= MaxHands
    ensures FingerLocations(hands + more, warp) == FingerLocations(hands, warp)
    ensures Names(Detect(store, FingerLocations(hands + more, warp))) == Names(Detect(store, FingerLocations(hands, warp)))
  {
  }

  /**
   * The regions matched in one frame: for each tip in order, the regions
   * containing it in store order. A region is listed once per tip inside it.
   */
  function Detect(store: Store, tips: seq<Point>): seq<Region>
  {
    if |tips| == 0 then []
    else
      var n := |tips| - 1;
      Detect(store, tips[..n]) + HitTest(store, tips[n])
  }

  /**
   * A frame with `t` tips over a store of `s` regions reports at most
   * `t * s` matches; overlapping regions may each match the same tip.
   */
  lemma {:induction false} DetectBound(store: Store, tips: seq<Point>)
    ensures |Detect(store, tips)| <= |tips| * |store|
  {
    if |tips| > 0 {
      var n := |tips| - 1;
      DetectBound(store, tips[..n]);
      BoundStep(|Detect(store, tips[..n])|, |HitTest(store, tips[n])|, n, |store|);
    }
  }

  lemma BoundStep(a: int, b: int, n: nat, s: nat)
    requires a <= n * s && b <= s
    ensures a + b <= (n + 1) * s
  {
  }

  /** Detection over two groups of tips is the detection over each, concatenated. */
  lemma {:induction false} DetectAppend(store: Store, a: seq<Point>, b: seq<Point>)
    ensures Detect(store, a + b) == Detect(store, a) + Detect(store, b)
  {
    if |b| > 0 {
      var n := |b| - 1;
      assert (a + b)[..|a| + n] == a + b[..n];
      DetectAppend(store, a, b[..n]);
    } else {
      assert a + b == a;
    }
  }

  /** Every match in a frame is a stored region containing one of the tips. */
  lemma {:induction false} DetectSound(store: Store, tips: seq<Point>, j: nat)
    requires j < |Detect(store, tips)|
    ensures exists k, i :: && 0 <= k < |tips| && 0 <= i < |store|
                           && Detect(store, tips)[j] == store[i] && Contains(store[i].polygon, tips[k])
  {
    var n := |tips| - 1;
    var prev := Detect(store, tips[..n]);
    if j < |prev| {
      DetectSound(store, tips[..n], j);
      var k, i :| && 0 <= k < n && 0 <= i < |store|
                  && prev[j] == store[i] && Contains(store[i].polygon, tips[..n][k]);
      assert tips[..n][k] == tips[k];
    } else {
      var idx := MatchIndices(store, tips[n]);
      var m := j - |prev|;
      assert Detect(store, tips)[j] == HitTest(store, tips[n])[m] == store[idx[m]];
      assert Contains(store[idx[m]].polygon, tips[n]);
    }
  }

  /** Every stored region containing one of the tips is matched in the frame. */
  lemma {:induction false} DetectComplete(store: Store, tips: seq<Point>, k: nat, i: nat)
    requires k < |tips| && i < |store|
    requires Contains(store[i].polygon, tips[k])
    ensures store[i] in Detect(store, tips)
  {
    var n := |tips| - 1;
    if k == n {
      HitTestExact(store, tips[n], i);
    } else {
      assert tips[..n][k] == tips[k];
      DetectComplete(store, tips[..n], k, i);
    }
  }

  /**
   * A region is matched in a frame exactly when it is stored and some tip
   * lies inside it or on its boundary.
   */
  lemma DetectExact(store: Store, tips: seq<Point>, r: Region)
    ensures r in Detect(store, tips) <==>
              exists k, i :: && 0 <= k < |tips| && 0 <= i < |store|
                             && store[i] == r && Contains(store[i].polygon, tips[k])
  {
    if r in Detect(store, tips) {
      var j :| 0 <= j < |Detect(store, tips)| && Detect(store, tips)[j] == r;
      DetectSound(store, tips, j);
    }
    if exists k, i :: && 0 <= k < |tips| && 0 <= i < |store|
                      && store[i] == r && Contains(store[i].polygon, tips[k]) {
      var k, i :| && 0 <= k < |tips| && 0 <= i < |store|
                  && store[i] == r && Contains(store[i].polygon, tips[k]);
      DetectComplete(store, tips, k, i);
    }
  }

  // ---------------------------------------------------------------------------
  // Overlay

  /** What is drawn on a layer. */
  datatype Shape = Fill(polygon: seq<Point>) | Line(from: Point, to: Point) | InfoBox(info: Info)

  /** One filled polygon per matched region, in match order. */
  function Fills(hits: seq<Region>): (shapes: seq<Shape>)
    ensures |shapes| == |hits|
    ensures forall k :: 0 <= k < |hits| ==> shapes[k] == Fill(hits[k].polygon)
  {
    seq(|hits|, k requires 0 <= k < |hits| => Fill(hits[k].polygon))
  }

  lemma ListsAppend(hits: seq<Region>, more: seq<Region>)
    ensures Names(hits + more) == Names(hits) + Names(more)
    ensures Fills(hits + more) == Fills(hits) + Fills(more)
  {
  }

  /** Extending the scanned prefix of the store by one region extends the hit-test by that region, if it is a hit. */
  lemma HitTestStep(store: Store, tip: Point, j: nat)
    requires j < |store|
    ensures Contains(store[j].polygon, tip) ==> HitTest(store[..j + 1], tip) == HitTest(store[..j], tip) + [store[j]]
    ensures !Contains(store[j].polygon, tip) ==> HitTest(store[..j + 1], tip) == HitTest(store[..j], tip)
  {
    assert store[..j + 1][..j] == store[..j];
  }

  /**
   * The inner loop of the overlay for one tip: each region containing the
   * tip, in store order, is filled and its name recorded.
   */
  method MatchTip(store: Store, tip: Point) returns (shapes: seq<Shape>, names: seq<string>)
    ensures names == Names(HitTest(store, tip))
    ensures shapes == Fills(HitTest(store, tip))
  {
    shapes := [];
    names := [];
    for j := 0 to |store|
      invariant names == Names(HitTest(store[..j], tip))
      invariant shapes == Fills(HitTest(store[..j], tip))
    {
      var verdict := PointPolygonTest(store[j].polygon, tip);
      MatchStep(store, tip, j);
      if verdict >= 0 {
        shapes := shapes + [Fill(store[j].polygon)];
        names := names + [store[j].name];
      }
    }
    assert store[..|store|] == store;
  }

  /** The names and fills for one more region of the store: one more entry each exactly on a hit. */
  lemma MatchStep(store: Store, tip: Point, j: nat)
    requires j < |store|
    ensures Contains(store[j].polygon, tip) ==>
              && Names(HitTest(store[..j + 1], tip)) == Names(HitTest(store[..j], tip)) + [store[j].name]
              && Fills(HitTest(store[..j + 1], tip)) == Fills(HitTest(store[..j], tip)) + [Fill(store[j].polygon)]
    ensures !Contains(store[j].polygon, tip) ==>
              && Names(HitTest(store[..j + 1], tip)) == Names(HitTest(store[..j], tip))
              && Fills(HitTest(store[..j + 1], tip)) == Fills(HitTest(store[..j], tip))
  {
    var before := HitTest(store[..j], tip);
    HitTestStep(store, tip, j);
    if Contains(store[j].polygon, tip) {
      ListsAppend(before, [store[j]]);
      assert Names([store[j]]) == [store[j].name];
      assert Fills([store[j]]) == [Fill(store[j].polygon)];
    }
  }

  /**
   * Draws the overlay for one frame: every (tip, region) pair with the tip
   * inside or on the region fills that region and records its name, tips
   * in order and regions in store order; with exactly two tips a line
   * joins them, drawn last.
   */
  method CreateOverlayImage(store: Store, tips: seq<Point>) returns (shapes: seq<Shape>, names: seq<string>)
    ensures names == Names(Detect(store, tips))
    ensures |shapes| == |names| + (if |tips| == 2 then 1 else 0)
    ensures shapes[..|names|] == Fills(Detect(store, tips))
    ensures |tips| == 2 ==> shapes[|names|] == Line(tips[0], tips[1])
  {
    shapes := [];
    names := [];
    for t := 0 to |tips|
      invariant names == Names(Detect(store, tips[..t]))
      invariant shapes == Fills(Detect(store, tips[..t]))
    {
      var tipShapes, tipNames := MatchTip(store, tips[t]);
      assert tips[..t + 1][..t] == tips[..t];
      ListsAppend(Detect(store, tips[..t]), HitTest(store, tips[t]));
      shapes := shapes + tipShapes;
      names := names + tipNames;
    }
    assert tips[..|tips|] == tips;
    if |tips| == 2 {
      shapes := shapes + [Line(tips[0], tips[1])];
    }
  }

  // ---------------------------------------------------------------------------
  // The frame pipeline

  /**
   * Adds the flight-information box to a layer when there is information,
   * and leaves the layer untouched when the lookup came back empty.
   */
  function AddInfoBox(layer: seq<Shape>, info: Option<Info>): (r: seq<Shape>)
    ensures info.None? ==> r == layer
    ensures info.Some? ==> |r| == |layer| + 1 && r[..|layer|] == layer && r[|layer|] == InfoBox(info.value)
  {
    match info
    case None => layer
    case Some(i) => layer + [InfoBox(i)]
  }

  /** A frame's output: the camera frame as captured, or composed with an overlay and an info layer. */
  datatype Output = Passthrough | Composed(overlay: seq<Shape>, infoLayer: seq<Shape>)

  /**
   * One frame of the detection loop. With no hand the camera frame is shown
   * as captured. Otherwise the overlay is drawn, and the info box is
   * requested exactly when two names were detected, whatever tips they came
   * from and whether or not they are the same name; the lookup cache
   * changes only through that request.
   */
  method ProcessFrame(store: Store, hands: seq<Point>, warp: Point -> Point, cache: Cache,
                      geocode: string -> Option<Coord>, distance: (Coord, Coord) -> real)
    returns (out: Output, names: seq<string>, cache': Cache)
    ensures out.Passthrough? <==> |hands| == 0
    ensures names == Names(Detect(store, FingerLocations(hands, warp)))
    ensures out.Composed? ==> && |out.overlay| == |names| + (if |hands| >= 2 then 1 else 0)
                              && out.overlay[..|names|] == Fills(Detect(store, FingerLocations(hands, warp)))
    ensures out.Composed? && |hands| >= 2 ==> out.overlay[|names|] == Line(warp(hands[0]), warp(hands[1]))
    ensures |names| != 2 ==> cache' == cache && (out.Passthrough? || out.infoLayer == [])
    ensures |names| == 2 ==> && out.Composed?
                             && cache' == FlightInfo(cache, names[0], names[1], geocode, distance).cache
                             && out.infoLayer == AddInfoBox([], FlightInfo(cache, names[0], names[1], geocode, distance).info)
  {
    var tips := FingerLocations(hands, warp);
    names := [];
    if |tips| == 0 {
      return Passthrough, names, cache;
    }
    var overlay;
    overlay, names := CreateOverlayImage(store, tips);
    var infoLayer: seq<Shape> := [];
    cache' := cache;
    if |names| == 2 {
      var looked := FlightInfo(cache, names[0], names[1], geocode, distance);
      infoLayer := AddInfoBox(infoLayer, looked.info);
      cache' := looked.cache;
    }
    out := Composed(overlay, infoLayer);
  }

  // ---------------------------------------------------------------------------
  // Scenarios

  /** An axis-aligned square region, corners listed clockwise on screen from the top-left. */
  function Square(lo: int, hi: int): seq<Point> {
    [Point(lo, lo), Point(hi, lo), Point(hi, hi), Point(lo, hi)]
  }

  /** A horizontal edge never crosses a horizontal ray. */
  lemma HorizontalEdge(p: Point, a: Point, b: Point)
    requires a.y == b.y
    ensures !Crosses(p, a, b)
  {
  }

  /** A vertical edge straddling the ray's line at `x` is crossed exactly when it lies right of `p`. */
  lemma VerticalEdge(p: Point, x: int, y0: int, y1: int)
    requires Beyond(Point(x, y0), p) != Beyond(Point(x, y1), p)
    ensures Crosses(p, Point(x, y0), Point(x, y1)) <==> p.x < x
  {
    assert Cross(Point(x, y0), Point(x, y1), p) == (y1 - y0) * (x - p.x);
    if y1 > y0 {
      SignOfProduct(y1 - y0, x - p.x);
    } else {
      SignOfProduct(y0 - y1, x - p.x);
    }
  }

  lemma SignOfProduct(a: int, b: int)
    requires a > 0
    ensures a * b > 0 <==> b > 0
    ensures -a * b < 0 <==> b > 0
  {
  }

  /** A point strictly inside a square is contained: the ray from it crosses only the right edge. */
  lemma SquareInterior(lo: int, hi: int, p: Point)
    requires lo < p.x < hi && lo < p.y < hi
    ensures Contains(Square(lo, hi), p)
  {
    var sq := Square(lo, hi);
    HorizontalEdge(p, sq[0], sq[1]);
    VerticalEdge(p, hi, lo, hi);
    HorizontalEdge(p, sq[2], sq[3]);
    VerticalEdge(p, lo, hi, lo);
    assert Next(sq, 0) == sq[1] && Next(sq, 1) == sq[2] && Next(sq, 2) == sq[3] && Next(sq, 3) == sq[0];
    assert Crossings(sq, p, 1) == 0;
    assert Crossings(sq, p, 2) == 1;
    assert Crossings(sq, p, 3) == 1;
    assert Crossings(sq, p, 4) == 1;
  }

  /** A one-region store reports its region for a tip inside it. */
  lemma HitTestSingle(a: Region, tip: Point)
    requires Contains(a.polygon, tip)
    ensures HitTest([a], tip) == [a]
  {
    assert [a][..0] == [];
  }

  /** A two-region store reports just the first region for a tip inside only that one. */
  lemma HitTestFirstOnly(a: Region, b: Region, tip: Point)
    requires Contains(a.polygon, tip) && !Contains(b.polygon, tip)
    ensures HitTest([a, b], tip) == [a]
  {
    assert [a, b][..1] == [a];
    HitTestSingle(a, tip);
  }

  /** A two-region store reports just the second region for a tip inside only that one. */
  lemma HitTestSecondOnly(a: Region, b: Region, tip: Point)
    requires !Contains(a.polygon, tip) && Contains(b.polygon, tip)
    ensures HitTest([a, b], tip) == [b]
  {
    assert [a, b][..1] == [a];
    assert [a][..0] == [];
  }

  lemma DetectPair(store: Store, t0: Point, t1: Point)
    ensures Detect(store, [t0]) == HitTest(store, t0)
    ensures Detect(store, [t0, t1]) == HitTest(store, t0) + HitTest(store, t1)
  {
    assert [t0][..0] == [];
    assert [t0, t1][..1] == [t0];
  }

  /** A point beyond a square's left, right, top or bottom side is not contained. */
  lemma SquareExterior(lo: int, hi: int, p: Point)
    requires lo <= hi
    requires p.x < lo || hi < p.x || p.y < lo || hi < p.y
    ensures !Contains(Square(lo, hi), p)
  {
    var sq := Square(lo, hi);
    var side := if p.x < lo then West else if hi < p.x then East else if p.y < lo then North else South;
    assert forall i :: 0 <= i < 4 ==> PastVertex(p, sq[i], side);
    OutsideBoundingBox(sq, p, side);
  }

  /** A tip mapped to (400, 400) is inside "Testland"; one mapped to (700, 700) is not. */
  lemma TestlandScenario()
    ensures Contains(Square(200, 600), Point(400, 400))
    ensures !Contains(Square(200, 600), Point(700, 700))
  {
    SquareInterior(200, 600, Point(400, 400));
    SquareExterior(200, 600, Point(700, 700));
  }

  /**
   * Two tips, each inside exactly one of two regions, yield the two names in
   * tip order. Together with `ProcessFrame`'s contract for exactly two
   * names, the info box is then requested for that pair.
   */
  lemma TwoCountriesScenario(a: Region, b: Region, ta: Point, tb: Point)
    requires Contains(a.polygon, ta) && !Contains(b.polygon, ta)
    requires Contains(b.polygon, tb) && !Contains(a.polygon, tb)
    ensures Names(Detect([a, b], [tb, ta])) == [b.name, a.name]
  {
    HitTestFirstOnly(a, b, ta);
    HitTestSecondOnly(a, b, tb);
    DetectPair([a, b], tb, ta);
    NamesPair(b, a);
  }

  /**
   * A single tip inside two overlapping regions yields two names, so the
   * info box is requested although only one tip is present.
   */
  lemma OneTipTwoRegions(a: Region, b: Region, tip: Point)
    requires Contains(a.polygon, tip) && Contains(b.polygon, tip)
    ensures |Names(Detect([a, b], [tip]))| == 2
    ensures Names(Detect([a, b], [tip])) == [a.name, b.name]
  {
    HitTestBoth(a, b, tip);
    DetectPair([a, b], tip, tip);
    NamesPair(a, b);
  }

  /** A two-region store reports both regions, in store order, for a tip inside both. */
  lemma HitTestBoth(a: Region, b: Region, tip: Point)
    requires Contains(a.polygon, tip) && Contains(b.polygon, tip)
    ensures HitTest([a, b], tip) == [a, b]
  {
    assert [a, b][..1] == [a];
    HitTestSingle(a, tip);
  }

  /** The names of a two-region list. */
  lemma NamesPair(a: Region, b: Region)
    ensures Names([a, b]) == [a.name, b.name]
  {
  }

  /** Two tips in the same region yield that name twice; distinctness is not checked. */
  lemma SameRegionTwice(a: Region, t0: Point, t1: Point)
    requires Contains(a.polygon, t0) && Contains(a.polygon, t1)
    ensures Names(Detect([a], [t0, t1])) == [a.name, a.name]
  {
    HitTestSingle(a, t0);
    HitTestSingle(a, t1);
    DetectPair([a], t0, t1);
    NamesPair(a, a);
  }

  /** Overlapping regions exist: the tip (7, 7) is inside both squares below. */
  lemma OverlapExample()
    ensures Contains(Square(0, 10), Point(7, 7)) && Contains(Square(5, 15), Point(7, 7))
  {
    SquareInterior(0, 10, Point(7, 7));
    SquareInterior(5, 15, Point(7, 7));
  }

  /**
   * The overlay is projected back with corners at `(w - 1, h - 1)`, while the
   * forward warp uses `(w, h)`: the two transforms agree at the origin only,
   * so the back-projection is not the exact inverse of the forward warp.
   */
  function InverseWarpCorners(w: int, h: int): (corners: seq<Point>)
    ensures |corners| == 4 && corners[0] == Point(0, 0)
    ensures forall i :: 1 <= i < 4 ==> corners[i] != Calibration.DestinationCorners(w, h)[i]
  {
    [Point(0, 0), Point(w - 1, 0), Point(0, h - 1), Point(w - 1, h - 1)]
  }
}
