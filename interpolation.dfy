/**
 * The interpolation helpers the scroll engine is built from, over exact
 * reals: clamping, linear interpolation of numbers and of 2-D points,
 * progress through a range and the linear easing curve.
 */
module Interpolation {

  /** A 2-D position `{x, y}`. */
  datatype Point = Point(x: real, y: real)

  function Min(a: real, b: real): real
  {
    if a <= b then a else b
  }

  function Max(a: real, b: real): real
  {
    if a >= b then a else b
  }

  /** `Math.min(Math.max(value, min), max)`. */
  function Clamp(value: real, lo: real, hi: real): (r: real)
    ensures lo <= hi ==> lo <= r <= hi
    ensures lo <= value <= hi ==> r == value
    ensures value < lo && lo <= hi ==> r == lo
    ensures value > hi ==> r == hi
    ensures lo > hi ==> r == hi
  {
    Min(Max(value, lo), hi)
  }

  /** `start + (end - start) * clamp(progress, 0, 1)`. */
  function Lerp(start: real, end: real, progress: real): real
  {
    start + (end - start) * Clamp(progress, 0.0, 1.0)
  }

  /** Lerp is `start` at or before progress 0, `end` at or after 1, and always between the two. */
  lemma LerpBounds(start: real, end: real, progress: real)
    ensures progress <= 0.0 ==> Lerp(start, end, progress) == start
    ensures progress >= 1.0 ==> Lerp(start, end, progress) == end
    ensures Min(start, end) <= Lerp(start, end, progress) <= Max(start, end)
  {
    var c := Clamp(progress, 0.0, 1.0);
    var d := end - start;
    if d >= 0.0 {
      MulNonNeg(d, c);
      MulNonNeg(d, 1.0 - c);
      assert d * (1.0 - c) == d - d * c;
    } else {
      MulNonNeg(-d, c);
      MulNonNeg(-d, 1.0 - c);
      assert (-d) * c == -(d * c);
      assert (-d) * (1.0 - c) == d * c - d;
    }
  }

  lemma MulNonNeg(a: real, b: real)
    requires a >= 0.0 && b >= 0.0
    ensures a * b >= 0.0
  {
  }

  /** On [0, 1] lerp is the affine map: it moves `end - start` per unit of progress. */
  lemma LerpAffine(start: real, end: real, p: real, q: real)
    requires 0.0 <= p <= 1.0 && 0.0 <= q <= 1.0
    ensures Lerp(start, end, q) - Lerp(start, end, p) == (end - start) * (q - p)
  {
  }

  /**
   * `calculateProgress(current, start, end)`: 1 for an empty range, otherwise
   * the position of `current` in the range, clamped to [0, 1].
   */
  function CalculateProgress(current: real, start: real, end: real): (r: real)
    ensures 0.0 <= r <= 1.0
    ensures start == end ==> r == 1.0
  {
    if start == end then 1.0 else Clamp((current - start) / (end - start), 0.0, 1.0)
  }

  /** Inside a forward range the progress is the exact fraction covered; before it 0, after it 1. */
  lemma ProgressInRange(current: real, start: real, end: real)
    requires start < end
    ensures current <= start ==> CalculateProgress(current, start, end) == 0.0
    ensures current >= end ==> CalculateProgress(current, start, end) == 1.0
    ensures start <= current <= end ==>
      CalculateProgress(current, start, end) * (end - start) == current - start
  {
    var w := end - start;
    var a := current - start;
    assert (a / w) * w == a;
    DivSelf(w);
    if current <= start {
      DivSign(0.0 - a, w);
      DivSub(0.0, a, w);
    }
    if current >= end {
      DivSign(a - w, w);
      DivSub(a, w, w);
    }
    if start <= current <= end {
      DivSign(a, w);
      DivSign(w - a, w);
      DivSub(w, a, w);
    }
  }

  lemma DivSign(a: real, w: real)
    requires w > 0.0 && a >= 0.0
    ensures a / w >= 0.0
  {
  }

  /** Real division is the unique solution of `z * w == c`. */
  lemma DivUnique(z: real, c: real, w: real)
    requires w != 0.0 && z * w == c
    ensures z == c / w
  {
  }

  lemma DivSub(a: real, b: real, w: real)
    requires w != 0.0
    ensures (a - b) / w == a / w - b / w
  {
    assert (a / w) * w == a;
    assert (b / w) * w == b;
    assert (a / w - b / w) * w == a - b;
    DivUnique(a / w - b / w, a - b, w);
  }

  lemma DivSelf(w: real)
    requires w != 0.0
    ensures w / w == 1.0
  {
    DivUnique(1.0, w, w);
  }

  /** `lerpPosition`: both coordinates interpolated with the same progress. */
  function LerpPosition(start: Point, end: Point, progress: real): Point
  {
    Point(Lerp(start.x, end.x, progress), Lerp(start.y, end.y, progress))
  }

  /** A position lerp starts at `start`, ends at `end` and stays in the box the two span. */
  lemma LerpPositionEnds(start: Point, end: Point, progress: real)
    ensures progress <= 0.0 ==> LerpPosition(start, end, progress) == start
    ensures progress >= 1.0 ==> LerpPosition(start, end, progress) == end
    ensures Min(start.x, end.x) <= LerpPosition(start, end, progress).x <= Max(start.x, end.x)
    ensures Min(start.y, end.y) <= LerpPosition(start, end, progress).y <= Max(start.y, end.y)
  {
    LerpBounds(start.x, end.x, progress);
    LerpBounds(start.y, end.y, progress);
  }

  /** `Easing.LINEAR`: progress maps to itself, so easing with it changes no lerp. */
  function Linear(t: real): (r: real)
    ensures forall s: real, e: real :: Lerp(s, e, r) == Lerp(s, e, t)
  {
    t
  }
}
