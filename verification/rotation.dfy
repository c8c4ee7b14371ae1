/**
 Yaw arithmetic of the rotate controls: `clamp` and the yaw a rotation step
 writes back to the camera. Yaw is a real number of degrees; the host's
 floating-point rounding is not modelled.
 */
module Rotation {
  import opened Common

  function Min(a: real, b: real): real { if a <= b then a else b }

  function Max(a: real, b: real): real { if a >= b then a else b }

  function Dist(a: real, b: real): real { if a >= b then a - b else b - a }

  /**
   `Math.min(Math.max(value, min), max)`. For an ordered range the result lies
   in it and an in-range value is returned unchanged; for an inverted range
   the upper bound wins.
   */
  function Clamp(v: real, lo: real, hi: real): (r: real)
    ensures r <= hi
    ensures lo <= hi ==> lo <= r
    ensures lo <= v <= hi ==> r == v
    ensures r == v || r == lo || r == hi
    ensures lo > hi ==> r == hi
  {
    Min(Max(v, lo), hi)
  }

  /** Clamping an already clamped value changes nothing, for any bounds. */
  lemma ClampIdempotent(v: real, lo: real, hi: real)
    ensures Clamp(Clamp(v, lo, hi), lo, hi) == Clamp(v, lo, hi)
  {
  }

  /** Clamping is monotone in the value. */
  lemma ClampMonotone(v: real, w: real, lo: real, hi: real)
    requires v <= w
    ensures Clamp(v, lo, hi) <= Clamp(w, lo, hi)
  {
  }

  /**
   Over an ordered range the clamped value is a nearest point of the range to
   the input: no point `x` of `[lo, hi]` is closer to `v`.
   */
  lemma ClampIsNearest(v: real, lo: real, hi: real, x: real)
    requires lo <= x <= hi
    ensures Dist(Clamp(v, lo, hi), v) <= Dist(x, v)
  {
  }

  /** One rotation step: the camera's yaw plus `speed`, clamped to the camera's range if clamping is on. */
  function RotateYaw(cfg: Config, cam: Camera, yaw: real, speed: real): (r: real)
    ensures cfg.rotateClamp && cam.minClamp <= cam.maxClamp ==> cam.minClamp <= r <= cam.maxClamp
    ensures cfg.rotateClamp && cam.minClamp <= yaw + speed <= cam.maxClamp ==> r == yaw + speed
    ensures !cfg.rotateClamp ==> r - yaw == speed
    ensures cfg.rotateClamp && cam.minClamp <= cam.maxClamp && yaw + speed > cam.maxClamp ==> r == cam.maxClamp
    ensures cfg.rotateClamp && cam.minClamp <= cam.maxClamp && yaw + speed < cam.minClamp ==> r == cam.minClamp
  {
    if cfg.rotateClamp then Clamp(yaw + speed, cam.minClamp, cam.maxClamp) else yaw + speed
  }

  /** The yaw after one rotation step per entry of `speeds`, taken in order. */
  function RotateMany(cfg: Config, cam: Camera, yaw: real, speeds: seq<real>): real
    decreases |speeds|
  {
    if |speeds| == 0 then yaw else RotateMany(cfg, cam, RotateYaw(cfg, cam, yaw, speeds[0]), speeds[1..])
  }

  function Sum(xs: seq<real>): real
    decreases |xs|
  {
    if |xs| == 0 then 0.0 else xs[0] + Sum(xs[1..])
  }

  /**
   With clamping on and an ordered range, any non-empty run of rotation steps
   ends inside the range, whatever yaw it started from.
   */
  lemma {:induction false} RotateManyStaysInRange(cfg: Config, cam: Camera, yaw: real, speeds: seq<real>)
    requires cfg.rotateClamp && cam.minClamp <= cam.maxClamp
    requires |speeds| > 0 || cam.minClamp <= yaw <= cam.maxClamp
    ensures cam.minClamp <= RotateMany(cfg, cam, yaw, speeds) <= cam.maxClamp
    decreases |speeds|
  {
    if |speeds| > 0 {
      RotateManyStaysInRange(cfg, cam, RotateYaw(cfg, cam, yaw, speeds[0]), speeds[1..]);
    }
  }

  /** With clamping off the steps simply accumulate: the yaw moves by the sum of the speeds. */
  lemma {:induction false} RotateManyUnclamped(cfg: Config, cam: Camera, yaw: real, speeds: seq<real>)
    requires !cfg.rotateClamp
    ensures RotateMany(cfg, cam, yaw, speeds) == yaw + Sum(speeds)
    decreases |speeds|
  {
    if |speeds| > 0 {
      RotateManyUnclamped(cfg, cam, yaw + speeds[0], speeds[1..]);
    }
  }
}
