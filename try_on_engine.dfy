/** The local try-on pipeline's placement arithmetic: default overlay
    rectangles for watches and clothing, and the eyewear rectangle derived
    from eye landmarks. The chroma-key pass is module `BackgroundRemoval`.
    Canvas drawing and the face detector are not modelled; the detector's
    landmarks and `Math.hypot` / `Math.atan2` are inputs. */
module TryOnEngine {
  import opened Common

  /** Where and how an overlay is drawn: top-left corner, size and rotation
      (radians), in the user photo's pixels. */
  datatype OverlayPosition = OverlayPosition(x: real, y: real, width: real, height: real, angle: real)

  function MinReal(a: real, b: real): real { if a <= b then a else b }

  // ---------------------------------------------------------------------------
  // Default placement for watches and clothing
  // ---------------------------------------------------------------------------

  /** The `category` parameter of `getDefaultOverlayPosition`. */
  datatype PlacementCategory = Watch | Clothing

  /** `getDefaultOverlayPosition`: a wrist square for watches, a centred torso
      rectangle for clothing, both sized from 0.3 of the shorter image side. */
  function DefaultOverlayPosition(imageWidth: real, imageHeight: real, category: PlacementCategory): (p: OverlayPosition)
    ensures p.angle == 0.0
    ensures category == Watch ==>
              && p.x == 0.15 * imageWidth && p.y == 0.55 * imageHeight
              && p.width == p.height == 0.3 * MinReal(imageWidth, imageHeight)
    ensures category == Clothing ==>
              && p.x + p.width / 2.0 == imageWidth / 2.0
              && p.y == 0.3 * imageHeight
              && p.width == 1.2 * (0.3 * MinReal(imageWidth, imageHeight))
              && p.height == 1.5 * (0.3 * MinReal(imageWidth, imageHeight))
  {
    var size := MinReal(imageWidth, imageHeight) * 0.3;
    if category == Watch then
      OverlayPosition(imageWidth * 0.15, imageHeight * 0.55, size, size, 0.0)
    else
      OverlayPosition((imageWidth - size * 1.2) / 2.0, imageHeight * 0.3, size * 1.2, size * 1.5, 0.0)
  }

  /** For an image with positive sides both default rectangles have a
      positive size, as an overlay position must. */
  lemma DefaultOverlayHasPositiveSize(imageWidth: real, imageHeight: real, category: PlacementCategory)
    requires imageWidth > 0.0 && imageHeight > 0.0
    ensures DefaultOverlayPosition(imageWidth, imageHeight, category).width > 0.0
    ensures DefaultOverlayPosition(imageWidth, imageHeight, category).height > 0.0
  {
  }

  /** A 1000x800 photo puts the watch at (150, 440) with side 240. */
  lemma WatchPlacementExample()
    ensures DefaultOverlayPosition(1000.0, 800.0, Watch) == OverlayPosition(150.0, 440.0, 240.0, 240.0, 0.0)
  {
  }

  // ---------------------------------------------------------------------------
  // Eye centres and the eyewear rectangle
  // ---------------------------------------------------------------------------

  datatype Point = Point(x: real, y: real)

  /** The landmark points the detector reports for each eye. */
  datatype EyeLandmarks = EyeLandmarks(leftEye: seq<Point>, rightEye: seq<Point>)

  function Xs(pts: seq<Point>): (xs: seq<real>)
    ensures |xs| == |pts| && forall i | 0 <= i < |pts| :: xs[i] == pts[i].x
  {
    seq(|pts|, i requires 0 <= i < |pts| => pts[i].x)
  }

  function Ys(pts: seq<Point>): (ys: seq<real>)
    ensures |ys| == |pts| && forall i | 0 <= i < |pts| :: ys[i] == pts[i].y
  {
    seq(|pts|, i requires 0 <= i < |pts| => pts[i].y)
  }

  /** `reduce((s, v) => s + v, 0)`: the left-to-right sum. */
  function Sum(xs: seq<real>): real {
    if xs == [] then 0.0 else Sum(xs[..|xs| - 1]) + xs[|xs| - 1]
  }

  /** The smallest value of a non-empty list. */
  function Least(xs: seq<real>): (m: real)
    requires |xs| > 0
    ensures forall i | 0 <= i < |xs| :: m <= xs[i]
    ensures exists i | 0 <= i < |xs| :: m == xs[i]
  {
    if |xs| == 1 then xs[0]
    else
      var m := Least(xs[..|xs| - 1]);
      assert forall i | 0 <= i < |xs| - 1 :: xs[..|xs| - 1][i] == xs[i];
      if m <= xs[|xs| - 1] then m else xs[|xs| - 1]
  }

  /** The largest value of a non-empty list. */
  function Greatest(xs: seq<real>): (m: real)
    requires |xs| > 0
    ensures forall i | 0 <= i < |xs| :: xs[i] <= m
    ensures exists i | 0 <= i < |xs| :: m == xs[i]
  {
    if |xs| == 1 then xs[0]
    else
      var m := Greatest(xs[..|xs| - 1]);
      assert forall i | 0 <= i < |xs| - 1 :: xs[..|xs| - 1][i] == xs[i];
      if m >= xs[|xs| - 1] then m else xs[|xs| - 1]
  }

  /** A sum of values that all lie in [lo, hi] lies in [n*lo, n*hi]. */
  lemma {:induction false} SumBetween(xs: seq<real>, lo: real, hi: real)
    requires forall i | 0 <= i < |xs| :: lo <= xs[i] <= hi
    ensures |xs| as real * lo <= Sum(xs) <= |xs| as real * hi
  {
    if xs != [] {
      var n := |xs|;
      var init := xs[..n - 1];
      assert forall i | 0 <= i < n - 1 :: init[i] == xs[i];
      SumBetween(init, lo, hi);
      assert (n - 1) as real * lo + lo == n as real * lo;
      assert (n - 1) as real * hi + hi == n as real * hi;
    }
  }

  /** The arithmetic mean of a non-empty list. */
  function Mean(xs: seq<real>): (m: real)
    requires |xs| > 0
    ensures Least(xs) <= m <= Greatest(xs)
  {
    SumBetween(xs, Least(xs), Greatest(xs));
    QuotientBetween(Sum(xs), |xs| as real, Least(xs), Greatest(xs));
    Sum(xs) / |xs| as real
  }

  /** A quotient by n > 0 of a value in [n*lo, n*hi] lies in [lo, hi]. */
  lemma QuotientBetween(sum: real, n: real, lo: real, hi: real)
    requires n > 0.0 && n * lo <= sum <= n * hi
    ensures lo <= sum / n <= hi
  {
    var m := sum / n;
    assert m * n == sum;
    assert (m - lo) * n == sum - n * lo;
    assert (hi - m) * n == n * hi - sum;
  }

  /** The centre of one eye: the mean of its landmark points. */
  function EyeCentre(pts: seq<Point>): (c: Point)
    requires |pts| > 0
    ensures c.x == Sum(Xs(pts)) / |pts| as real && c.y == Sum(Ys(pts)) / |pts| as real
  {
    Point(Mean(Xs(pts)), Mean(Ys(pts)))
  }

  /** Each coordinate of an eye centre lies between the smallest and the
      largest of that coordinate over the eye's landmark points. */
  lemma EyeCentreWithinLandmarks(pts: seq<Point>)
    requires |pts| > 0
    ensures Least(Xs(pts)) <= EyeCentre(pts).x <= Greatest(Xs(pts))
    ensures Least(Ys(pts)) <= EyeCentre(pts).y <= Greatest(Ys(pts))
  {
  }

  /** Both eyes have at least one landmark point (the detector reports six). */
  predicate WellFormed(eyes: EyeLandmarks) {
    |eyes.leftEye| > 0 && |eyes.rightEye| > 0
  }

  /** The rectangle of `detectEyewearPosition` for two eye centres: 2.4 eye
      distances wide and 0.45 of that high, centred on the midpoint of the
      centres and rotated by the angle of the line between them. */
  function EyewearRectangle(left: Point, right: Point,
                            hypot: (real, real) -> real, atan2: (real, real) -> real): (p: OverlayPosition)
    ensures p.width == 2.4 * hypot(right.x - left.x, right.y - left.y)
    ensures p.height == 0.45 * p.width
    ensures p.x + p.width / 2.0 == (left.x + right.x) / 2.0
    ensures p.y + p.height / 2.0 == (left.y + right.y) / 2.0
    ensures p.angle == atan2(right.y - left.y, right.x - left.x)
  {
    var eyeDistance := hypot(right.x - left.x, right.y - left.y);
    var angle := atan2(right.y - left.y, right.x - left.x);
    var width := eyeDistance * 2.4;
    var height := width * 0.45;
    var centreX := (left.x + right.x) / 2.0;
    var centreY := (left.y + right.y) / 2.0;
    OverlayPosition(centreX - width / 2.0, centreY - height / 2.0, width, height, angle)
  }

  /** `detectEyewearPosition` after detection: no rectangle when no face was
      detected, otherwise the rectangle for the centres of the two eyes. */
  function EyewearPosition(detection: Option<EyeLandmarks>,
                           hypot: (real, real) -> real, atan2: (real, real) -> real): (r: Option<OverlayPosition>)
    requires detection.Some? ==> WellFormed(detection.value)
    ensures r.None? <==> detection.None?
    ensures r.Some? ==>
              r.value == EyewearRectangle(EyeCentre(detection.value.leftEye), EyeCentre(detection.value.rightEye), hypot, atan2)
  {
    if detection.None? then None
    else Some(EyewearRectangle(EyeCentre(detection.value.leftEye), EyeCentre(detection.value.rightEye), hypot, atan2))
  }

  /** When `hypot` is positive on every non-zero offset (as a norm is) and
      the two eye centres differ, the eyewear rectangle has a positive size. */
  lemma EyewearHasPositiveSize(eyes: EyeLandmarks, hypot: (real, real) -> real, atan2: (real, real) -> real)
    requires WellFormed(eyes)
    requires EyeCentre(eyes.leftEye) != EyeCentre(eyes.rightEye)
    requires forall x: real, y: real :: x != 0.0 || y != 0.0 ==> hypot(x, y) > 0.0
    ensures EyewearPosition(Some(eyes), hypot, atan2).value.width > 0.0
    ensures EyewearPosition(Some(eyes), hypot, atan2).value.height > 0.0
  {
    var left, right := EyeCentre(eyes.leftEye), EyeCentre(eyes.rightEye);
    assert right.x - left.x != 0.0 || right.y - left.y != 0.0;
  }

  /** Eyes at (100, 200) and (160, 200), 60 apart, give the rectangle at
      (58, 167.6) of size 144 x 64.8. */
  lemma EyewearExample(hypot: (real, real) -> real, atan2: (real, real) -> real)
    requires hypot(60.0, 0.0) == 60.0
    ensures var eyes := EyeLandmarks([Point(100.0, 200.0)], [Point(160.0, 200.0)]);
            EyewearPosition(Some(eyes), hypot, atan2)
            == Some(OverlayPosition(58.0, 167.6, 144.0, 64.8, atan2(0.0, 60.0)))
  {
    var eyes := EyeLandmarks([Point(100.0, 200.0)], [Point(160.0, 200.0)]);
    assert EyeCentre(eyes.leftEye) == Point(100.0, 200.0) by {
      assert Xs(eyes.leftEye) == [100.0] && Ys(eyes.leftEye) == [200.0];
    }
    assert EyeCentre(eyes.rightEye) == Point(160.0, 200.0) by {
      assert Xs(eyes.rightEye) == [160.0] && Ys(eyes.rightEye) == [200.0];
    }
  }
}
