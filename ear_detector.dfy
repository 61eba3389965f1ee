/**
 * Eye aspect ratio (EAR) of one eye from six face-mesh landmarks (utils/earDetector.py).
 *
 * Every distance in the formula is the Euclidean norm of a difference vector with one
 * zero component, so it is the absolute difference of two integer pixel coordinates;
 * the whole computation is exact over integers and reals.
 */
module EarDetector {

  /** A face-mesh landmark in normalised image coordinates. */
  datatype Landmark = Landmark(x: real, y: real)

  /** The six landmarks of one eye in the configured order P1..P6: P1 and P4 are the
      corners, P2 over P6 and P3 over P5 are the two lid pairs. */
  datatype EyeLandmarks = EyeLandmarks(p1: Landmark, p2: Landmark, p3: Landmark,
                                       p4: Landmark, p5: Landmark, p6: Landmark)

  /** Python's `int()` applied to a float: truncation toward zero. */
  function Truncate(r: real): (n: int)
    ensures 0.0 <= r ==> 0 <= n && n as real <= r < n as real + 1.0
    ensures r < 0.0 ==> n <= 0 && n as real - 1.0 < r <= n as real
  {
    if r >= 0.0 then r.Floor else -((-r).Floor)
  }

  /** Pixel coordinate of a normalised coordinate along an axis of `extent` pixels. */
  function ToPixel(coordinate: real, extent: int): int
  {
    Truncate(coordinate * extent as real)
  }

  /** Squared Euclidean length of the vector (dx, dy). */
  function SquaredNorm(dx: int, dy: int): int
  {
    dx * dx + dy * dy
  }

  /** Euclidean distance between two points that differ along one axis only, at
      coordinates `a` and `b` on that axis. */
  function AxisDistance(a: int, b: int): (d: nat)
    ensures d == 0 <==> a == b
  {
    if a >= b then a - b else b - a
  }

  /** `AxisDistance` is the Euclidean length of the difference vector [0, a - b] (or
      [a - b, 0]): the non-negative number whose square is its squared norm. */
  lemma AxisDistanceIsEuclidean(a: int, b: int)
    ensures AxisDistance(a, b) * AxisDistance(a, b) == SquaredNorm(0, a - b) == SquaredNorm(a - b, 0)
    ensures AxisDistance(a, b) == AxisDistance(b, a)
  {
  }

  /** The EAR formula on pixel coordinates: the two vertical lid gaps over twice the
      horizontal eye width, and 0.0 when the width is zero. */
  function EarFromPixels(p2y: int, p6y: int, p3y: int, p5y: int, p1x: int, p4x: int): (ear: real)
    ensures 0.0 <= ear
    ensures p1x == p4x ==> ear == 0.0
    ensures p1x != p4x ==>
      ear * (2 * AxisDistance(p1x, p4x)) as real == (AxisDistance(p2y, p6y) + AxisDistance(p3y, p5y)) as real
    ensures ear == 0.0 <==> p1x == p4x || (p2y == p6y && p3y == p5y)
  {
    var vertical1 := AxisDistance(p2y, p6y);
    var vertical2 := AxisDistance(p3y, p5y);
    var horizontal := AxisDistance(p1x, p4x);
    if horizontal == 0 then 0.0 else Ratio(vertical1 + vertical2, 2 * horizontal)
  }

  /** The quotient of a natural number by a positive one, as a real. */
  function Ratio(numerator: nat, denominator: nat): (q: real)
    requires 0 < denominator
    ensures 0.0 <= q
    ensures q * denominator as real == numerator as real
    ensures q == 0.0 <==> numerator == 0
  {
    numerator as real / denominator as real
  }

  /** `calculate_ear`: the EAR of one eye in a frame of `height` by `width` pixels. */
  function CalculateEar(eye: EyeLandmarks, height: int, width: int): (ear: real)
    ensures 0.0 <= ear
    ensures ToPixel(eye.p1.x, width) == ToPixel(eye.p4.x, width) ==> ear == 0.0
    ensures ear == 0.0 <==>
      ToPixel(eye.p1.x, width) == ToPixel(eye.p4.x, width) ||
      (ToPixel(eye.p2.y, height) == ToPixel(eye.p6.y, height) &&
       ToPixel(eye.p3.y, height) == ToPixel(eye.p5.y, height))
  {
    EarFromPixels(ToPixel(eye.p2.y, height), ToPixel(eye.p6.y, height),
                  ToPixel(eye.p3.y, height), ToPixel(eye.p5.y, height),
                  ToPixel(eye.p1.x, width), ToPixel(eye.p4.x, width))
  }

  /** The EAR reads only the y of P2, P3, P5, P6 and the x of P1, P4. */
  lemma EarReadsSixCoordinates(a: EyeLandmarks, b: EyeLandmarks, height: int, width: int)
    requires a.p2.y == b.p2.y && a.p3.y == b.p3.y && a.p5.y == b.p5.y && a.p6.y == b.p6.y
    requires a.p1.x == b.p1.x && a.p4.x == b.p4.x
    ensures CalculateEar(a, height, width) == CalculateEar(b, height, width)
  {
  }

  /** Swapping the two corners, or the two points of either lid pair, leaves the EAR unchanged. */
  lemma EarSymmetric(eye: EyeLandmarks, height: int, width: int)
    ensures CalculateEar(eye.(p1 := eye.p4, p4 := eye.p1), height, width) == CalculateEar(eye, height, width)
    ensures CalculateEar(eye.(p2 := eye.p6, p6 := eye.p2), height, width) == CalculateEar(eye, height, width)
    ensures CalculateEar(eye.(p3 := eye.p5, p5 := eye.p3), height, width) == CalculateEar(eye, height, width)
  {
  }

  /** With a non-zero width the EAR grows with either lid gap: opening one lid pair wider
      (and leaving everything else alone) never lowers the ratio. */
  lemma EarMonotoneInLidGap(p2y: int, p6y: int, q6y: int, p3y: int, p5y: int, p1x: int, p4x: int)
    requires p1x != p4x
    requires AxisDistance(p2y, p6y) <= AxisDistance(p2y, q6y)
    ensures EarFromPixels(p2y, p6y, p3y, p5y, p1x, p4x) <= EarFromPixels(p2y, q6y, p3y, p5y, p1x, p4x)
  {
    var h := 2 * AxisDistance(p1x, p4x);
    var v := AxisDistance(p2y, p6y) + AxisDistance(p3y, p5y);
    var w := AxisDistance(p2y, q6y) + AxisDistance(p3y, p5y);
    var qv, qw := Ratio(v, h), Ratio(w, h);
    assert (qw - qv) * h as real == (w - v) as real;
    assert 0.0 <= (w - v) as real;
  }
}
