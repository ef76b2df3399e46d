/**
 * Per-object transforms driven by scroll progress: each transform eases
 * from the identity to its target over its window, and of the transforms
 * active at a moment the last one of each type in list order wins.
 */
module Transforms {
  import opened Strings
  import opened Interpolation

  /**
   * The `type` of a transform with the targets it reads. A scale always has
   * its `scale_to`; a missing `delta_x`, `delta_y` or `rotate_to` reads as 0.
   * Any other type string (such as `camera_look`) is `Unknown`.
   */
  datatype TransformKind =
    | Scale(scaleTo: real)
    | Translation(deltaX: Option<real>, deltaY: Option<real>)
    | Rotation(rotateTo: Option<real>)
    | Unknown(name: string)

  /** A transform: what it does, when it starts and how long it lasts (absent: the window never holds). */
  datatype Transform = Transform(kind: TransformKind, at: real, duration: Option<real>)

  /** The keys of the result object. */
  datatype TransformType = ScaleType | TranslationType | RotationType

  datatype TransformValue = ScaleValue(factor: real) | TranslationValue(offset: Point) | RotationValue(angle: real)

  /** `x || 0`. */
  function OrZero(o: Option<real>): real
  {
    if o.Some? then o.value else 0.0
  }

  /** The type a known transform reports. */
  function TypeOf(k: TransformKind): Option<TransformType>
  {
    match k
    case Scale(_) => Some(ScaleType)
    case Translation(_, _) => Some(TranslationType)
    case Rotation(_) => Some(RotationType)
    case Unknown(_) => None
  }

  /** The value a transform reaches at the end of its window. */
  function Target(k: TransformKind): TransformValue
    requires !k.Unknown?
  {
    match k
    case Scale(s) => ScaleValue(s)
    case Translation(dx, dy) => TranslationValue(Point(OrZero(dx), OrZero(dy)))
    case Rotation(r) => RotationValue(OrZero(r))
  }

  /** The value a transform starts from: no scaling, no offset, no rotation. */
  function Identity(k: TransformKind): TransformValue
    requires !k.Unknown?
  {
    match k
    case Scale(_) => ScaleValue(1.0)
    case Translation(_, _) => TranslationValue(Point(0.0, 0.0))
    case Rotation(_) => RotationValue(0.0)
  }

  /** `TransformManager.calculateTransform(transform, currentProgress)`; None is the source's `null`. */
  function CalculateTransform(t: Transform, currentProgress: real): (r: Option<(TransformType, TransformValue)>)
    requires t.duration.Some?
    ensures r.None? <==> t.kind.Unknown?
    ensures r.Some? ==> TypeOf(t.kind) == Some(r.value.0)
  {
    var progress := CalculateProgress(currentProgress, t.at, t.at + t.duration.value);
    match t.kind
    case Scale(s) => Some((ScaleType, ScaleValue(Lerp(1.0, s, progress))))
    case Translation(dx, dy) =>
      Some((TranslationType, TranslationValue(Point(Lerp(0.0, OrZero(dx), progress), Lerp(0.0, OrZero(dy), progress)))))
    case Rotation(r) => Some((RotationType, RotationValue(Lerp(0.0, OrZero(r), progress))))
    case Unknown(_) => None
  }

  /** A transform is the identity at or before its start and its target at or after its end. */
  lemma TransformEnds(t: Transform, p: real)
    requires t.duration.Some? && t.duration.value > 0.0 && !t.kind.Unknown?
    ensures p <= t.at ==> CalculateTransform(t, p) == Some((TypeOf(t.kind).value, Identity(t.kind)))
    ensures p >= t.at + t.duration.value ==> CalculateTransform(t, p) == Some((TypeOf(t.kind).value, Target(t.kind)))
  {
    var d := t.duration.value;
    ProgressInRange(p, t.at, t.at + d);
    var progress := CalculateProgress(p, t.at, t.at + d);
    match t.kind
    case Scale(s) =>
      LerpBounds(1.0, s, progress);
    case Translation(dx, dy) =>
      LerpBounds(0.0, OrZero(dx), progress);
      LerpBounds(0.0, OrZero(dy), progress);
    case Rotation(r) =>
      LerpBounds(0.0, OrZero(r), progress);
  }

  /** A scale factor stays between 1 and `scale_to`. */
  lemma ScaleBetween(t: Transform, p: real)
    requires t.duration.Some? && t.kind.Scale?
    ensures var f := CalculateTransform(t, p).value.1.factor;
      Min(1.0, t.kind.scaleTo) <= f <= Max(1.0, t.kind.scaleTo)
  {
    LerpBounds(1.0, t.kind.scaleTo, CalculateProgress(p, t.at, t.at + t.duration.value));
  }

  /** `scrollProgress >= transform.at && scrollProgress <= transform.at + transform.duration`. */
  predicate Active(t: Transform, p: real)
  {
    t.duration.Some? && t.at <= p <= t.at + t.duration.value
  }

  /** The result of `getActiveTransforms` after the first `|ts|` transforms of the list. */
  function ActiveTransforms(ts: seq<Transform>, p: real): map<TransformType, TransformValue>
  {
    if ts == [] then map[]
    else
      var before := ActiveTransforms(ts[..|ts| - 1], p);
      var t := ts[|ts| - 1];
      if Active(t, p) && CalculateTransform(t, p).Some? then
        before[CalculateTransform(t, p).value.0 := CalculateTransform(t, p).value.1]
      else before
  }

  /** `TransformManager.getActiveTransforms(transformations, scrollProgress)`; an empty list gives an empty result. */
  method GetActiveTransforms(transformations: seq<Transform>, scrollProgress: real)
    returns (activeTransforms: map<TransformType, TransformValue>)
    ensures activeTransforms == ActiveTransforms(transformations, scrollProgress)
  {
    if |transformations| == 0 {
      return map[];
    }
    activeTransforms := map[];
    for i := 0 to |transformations|
      invariant activeTransforms == ActiveTransforms(transformations[..i], scrollProgress)
    {
      var transform := transformations[i];
      assert transformations[..i + 1][..i] == transformations[..i];
      var isActive := transform.duration.Some?
        && scrollProgress >= transform.at && scrollProgress <= transform.at + transform.duration.value;
      if isActive {
        var calculated := CalculateTransform(transform, scrollProgress);
        if calculated.Some? {
          activeTransforms := activeTransforms[calculated.value.0 := calculated.value.1];
        }
      }
    }
    assert transformations[..|transformations|] == transformations;
  }

  /** The index of the last transform of type `ty` that is active at `p`. */
  function LastActive(ts: seq<Transform>, p: real, ty: TransformType): (r: Option<nat>)
    ensures r.Some? ==> r.value < |ts| && Active(ts[r.value], p) && TypeOf(ts[r.value].kind) == Some(ty)
    ensures r.Some? ==> forall k :: r.value < k < |ts| ==> !(Active(ts[k], p) && TypeOf(ts[k].kind) == Some(ty))
    ensures r.None? ==> forall k :: 0 <= k < |ts| ==> !(Active(ts[k], p) && TypeOf(ts[k].kind) == Some(ty))
  {
    if ts == [] then None
    else if Active(ts[|ts| - 1], p) && TypeOf(ts[|ts| - 1].kind) == Some(ty) then Some(|ts| - 1)
    else LastActive(ts[..|ts| - 1], p, ty)
  }

  /**
   * A type is in the result exactly when some transform of that type is
   * active, and its value is the one the last such transform computes.
   */
  lemma {:induction false} ActiveTransformsAt(ts: seq<Transform>, p: real, ty: TransformType)
    ensures ty in ActiveTransforms(ts, p) <==> LastActive(ts, p, ty).Some?
    ensures ty in ActiveTransforms(ts, p) ==>
      ActiveTransforms(ts, p)[ty] == CalculateTransform(ts[LastActive(ts, p, ty).value], p).value.1
  {
    if ts != [] {
      var init := ts[..|ts| - 1];
      ActiveTransformsAt(init, p, ty);
      var last := LastActive(init, p, ty);
      if last.Some? {
        assert ts[last.value] == init[last.value];
      }
    }
  }

  /** Unknown types such as `camera_look` contribute nothing: dropping them changes no result. */
  lemma {:induction false} UnknownIgnored(ts: seq<Transform>, p: real, t: Transform)
    requires t.kind.Unknown?
    ensures ActiveTransforms(ts + [t], p) == ActiveTransforms(ts, p)
  {
    assert (ts + [t])[..|ts|] == ts;
  }
}
