/** The camera of the map and the `fitBounds` geometry: the bounding box of the points, its
    midpoint as the new target, and a zoom from the ratio of viewport to data extent,
    clamped below at -2. `Math.log2` is a parameter: its value is floating-point numerics. */
module Viewport {
  import opened Wrappers
  import opened MapStyle

  /** The orthographic view state: target (x, y, z), zoom, and the transition length in
      milliseconds when the change is animated */
  datatype ViewState = ViewState(target: (real, real, real), zoom: real, transitionDuration: Option<nat>)

  /** The initial view state of the deck: target (0, 0, 0) at zoom 3 */
  const InitialViewState := ViewState((0.0, 0.0, 0.0), 3.0, None)

  /** `Math.min(...xs)` on a non-empty list */
  function Min(xs: seq<real>): (m: real)
    requires |xs| > 0
    ensures m in xs
    ensures forall i :: 0 <= i < |xs| ==> m <= xs[i]
  {
    if |xs| == 1 then xs[0]
    else
      var rest := Min(xs[1..]);
      if xs[0] <= rest then xs[0] else rest
  }

  /** `Math.max(...xs)` on a non-empty list */
  function Max(xs: seq<real>): (m: real)
    requires |xs| > 0
    ensures m in xs
    ensures forall i :: 0 <= i < |xs| ==> xs[i] <= m
  {
    if |xs| == 1 then xs[0]
    else
      var rest := Max(xs[1..]);
      if xs[0] >= rest then xs[0] else rest
  }

  function Xs(points: seq<Point>): (xs: seq<real>)
    ensures |xs| == |points| && forall i :: 0 <= i < |points| ==> xs[i] == points[i].x
  {
    seq(|points|, i requires 0 <= i < |points| => points[i].x)
  }

  function Ys(points: seq<Point>): (ys: seq<real>)
    ensures |ys| == |points| && forall i :: 0 <= i < |points| ==> ys[i] == points[i].y
  {
    seq(|points|, i requires 0 <= i < |points| => points[i].y)
  }

  /** `max - min || 1`: the extent of the data along one axis, 1 when it is zero */
  function Extent(lo: real, hi: real): (e: real)
    requires lo <= hi
    ensures e > 0.0
    ensures hi > lo ==> e == hi - lo
    ensures hi == lo ==> e == 1.0
  {
    if hi - lo == 0.0 then 1.0 else hi - lo
  }

  function RealMin(a: real, b: real): real { if a <= b then a else b }
  function RealMax(a: real, b: real): real { if a >= b then a else b }

  /** The midpoint of the bounding box of the points, at z = 0 */
  function Midpoint(points: seq<Point>): (real, real, real)
    requires points != []
  {
    var xs, ys := Xs(points), Ys(points);
    ((Min(xs) + Max(xs)) / 2.0, (Min(ys) + Max(ys)) / 2.0, 0.0)
  }

  /** The zoom before the clamp: log2 of the smaller viewport-to-data ratio, minus 1 */
  function RawZoom(points: seq<Point>, width: nat, height: nat, log2: real -> real): real
    requires points != []
  {
    var xs, ys := Xs(points), Ys(points);
    var dw, dh := Extent(Min(xs), Max(xs)), Extent(Min(ys), Max(ys));
    log2(RealMin(width as real / dw, height as real / dh)) - 1.0
  }

  /** The view state `fitBounds` sets for a viewport of `width` x `height` pixels, or
      `None` when there are no points and it returns without setting one */
  function FitView(points: seq<Point>, width: nat, height: nat, log2: real -> real): (v: Option<ViewState>)
    ensures v.None? <==> points == []
    ensures v.Some? ==> v.value.zoom >= -2.0 && v.value.transitionDuration == Some(500)
  {
    if points == [] then None
    else Some(ViewState(Midpoint(points), RealMax(RawZoom(points, width, height, log2), -2.0), Some(500)))
  }

  /** The bounding box of the points contains every point */
  lemma BoxContainsPoints(points: seq<Point>)
    requires points != []
    ensures forall i :: 0 <= i < |points| ==>
              Min(Xs(points)) <= points[i].x <= Max(Xs(points))
              && Min(Ys(points)) <= points[i].y <= Max(Ys(points))
  {
    var xs, ys := Xs(points), Ys(points);
    forall i | 0 <= i < |points|
      ensures Min(xs) <= points[i].x <= Max(xs) && Min(ys) <= points[i].y <= Max(ys)
    {
      assert xs[i] == points[i].x && ys[i] == points[i].y;
    }
  }

  /** The new target is the midpoint of the bounding box, so it lies inside the box */
  lemma TargetInsideBox(points: seq<Point>, width: nat, height: nat, log2: real -> real)
    requires points != []
    ensures var t := FitView(points, width, height, log2).value.target;
            t == Midpoint(points)
            && Min(Xs(points)) <= t.0 <= Max(Xs(points)) && Min(Ys(points)) <= t.1 <= Max(Ys(points))
            && t.2 == 0.0
  {
    var xs, ys := Xs(points), Ys(points);
    assert Min(xs) <= xs[0] <= Max(xs) && Min(ys) <= ys[0] <= Max(ys);
  }

  /** Along each axis the new target is at least some point's coordinate and at most
      some point's */
  lemma TargetBetweenPoints(points: seq<Point>, width: nat, height: nat, log2: real -> real)
    requires points != []
    ensures var t := FitView(points, width, height, log2).value.target;
            (exists i :: 0 <= i < |points| && points[i].x <= t.0)
            && (exists i :: 0 <= i < |points| && t.0 <= points[i].x)
            && (exists i :: 0 <= i < |points| && points[i].y <= t.1)
            && (exists i :: 0 <= i < |points| && t.1 <= points[i].y)
  {
    var xs, ys := Xs(points), Ys(points);
    var t := FitView(points, width, height, log2).value.target;
    TargetInsideBox(points, width, height, log2);
    var a :| 0 <= a < |xs| && xs[a] == Min(xs);
    var b :| 0 <= b < |xs| && xs[b] == Max(xs);
    var c :| 0 <= c < |ys| && ys[c] == Min(ys);
    var d :| 0 <= d < |ys| && ys[d] == Max(ys);
    assert points[a].x <= t.0 <= points[b].x;
    assert points[c].y <= t.1 <= points[d].y;
  }

  /** Whatever `log2` gives, the zoom is at least -2, and it is the computed zoom whenever
      that is at least -2 */
  lemma ZoomClamped(points: seq<Point>, width: nat, height: nat, log2: real -> real)
    requires points != []
    ensures var v := FitView(points, width, height, log2).value;
            var raw := RawZoom(points, width, height, log2);
            v.zoom >= -2.0 && (raw >= -2.0 ==> v.zoom == raw) && (raw < -2.0 ==> v.zoom == -2.0)
  {
  }

  /** Two points (0, 0) and (10, 10) in a 100 x 100 viewport: the view centres on (5, 5)
      and zooms to log2(10) - 1 unless that is below -2 */
  lemma FitTwoPoints(p: Point, q: Point, log2: real -> real)
    requires p.x == 0.0 && p.y == 0.0 && q.x == 10.0 && q.y == 10.0
    ensures FitView([p, q], 100, 100, log2)
            == Some(ViewState((5.0, 5.0, 0.0), RealMax(log2(10.0) - 1.0, -2.0), Some(500)))
  {
    var xs, ys := Xs([p, q]), Ys([p, q]);
    assert xs == [0.0, 10.0] && ys == [0.0, 10.0];
    assert xs[1..] == [10.0] && ys[1..] == [10.0];
  }

  /** A single point, or points all at one place, give extent 1 on each axis */
  lemma CoincidentPointsUnitExtent(points: seq<Point>)
    requires points != []
    requires forall i :: 0 <= i < |points| ==> points[i].x == points[0].x && points[i].y == points[0].y
    ensures Extent(Min(Xs(points)), Max(Xs(points))) == 1.0
    ensures Extent(Min(Ys(points)), Max(Ys(points))) == 1.0
  {
    var xs, ys := Xs(points), Ys(points);
    var a :| 0 <= a < |xs| && xs[a] == Min(xs);
    var b :| 0 <= b < |xs| && xs[b] == Max(xs);
    var c :| 0 <= c < |ys| && ys[c] == Min(ys);
    var d :| 0 <= d < |ys| && ys[d] == Max(ys);
  }
}
