/**
 The per-frame overlay tick: it reads the five controls and acts on at most
 one of them, in a fixed priority order. Drawing the overlay and the clock,
 and suppressing the game's own handling of the keys, are host effects and
 are not modelled.
 */
module Overlay {
  import opened Common
  import opened Controller
  import opened Rotation

  /**
   The controls as polled this frame: `close`, `next` and `previous` are
   "just pressed" (X, RIGHT, LEFT); `rotateLeft` and `rotateRight` are
   "held" (Q, E).
   */
  datatype Pressed = Pressed(
    close: bool,
    next: bool,
    previous: bool,
    rotateLeft: bool,
    rotateRight: bool
  )

  /** What one frame does: Q turns by +speed, E by -speed. */
  datatype Action = Close | NextCam | PreviousCam | RotateLeft | RotateRight | Idle

  /** The actions from highest to lowest priority. */
  const PriorityOrder: seq<Action> := [Close, NextCam, PreviousCam, RotateLeft, RotateRight]

  /** Whether the controls ask for action `a` this frame; rotation only counts when enabled. */
  predicate Requested(cfg: Config, p: Pressed, a: Action) {
    match a
    case Close => p.close
    case NextCam => p.next
    case PreviousCam => p.previous
    case RotateLeft => cfg.rotationEnabled && p.rotateLeft
    case RotateRight => cfg.rotationEnabled && p.rotateRight
    case Idle => false
  }

  /**
   Reference reading of a priority chain: the first requested action of
   `order`, that is one at some position `k` with nothing requested before
   it, else `Idle`.
   */
  function FirstRequested(cfg: Config, p: Pressed, order: seq<Action>): (a: Action)
    ensures a != Idle ==> a in order && Requested(cfg, p, a)
    ensures a != Idle ==>
      exists k :: 0 <= k < |order| && order[k] == a &&
        forall j :: 0 <= j < k ==> !Requested(cfg, p, order[j])
    ensures a == Idle ==> forall i :: 0 <= i < |order| ==> !Requested(cfg, p, order[i])
    decreases |order|
  {
    if |order| == 0 then Idle
    else if Requested(cfg, p, order[0]) then order[0]
    else
      var rest := FirstRequested(cfg, p, order[1..]);
      if rest == Idle then Idle
      else
        var k :| 0 <= k < |order[1..]| && order[1..][k] == rest &&
          forall j :: 0 <= j < k ==> !Requested(cfg, p, order[1..][j]);
        assert order[k + 1] == rest;
        assert forall j :: 0 <= j < k + 1 ==> !Requested(cfg, p, order[j]) by {
          forall j | 0 <= j < k + 1
            ensures !Requested(cfg, p, order[j])
          {
            if j > 0 { assert order[j] == order[1..][j - 1]; }
          }
        }
        rest
  }

  /** Every action but `Idle` has a place in the priority order. */
  lemma PriorityOrderComplete()
    ensures Close in PriorityOrder && NextCam in PriorityOrder && PreviousCam in PriorityOrder
    ensures RotateLeft in PriorityOrder && RotateRight in PriorityOrder
  {
  }

  /** The `if / else if` chain of the tick handler. */
  function Dispatch(cfg: Config, p: Pressed): (a: Action)
    ensures a != Idle ==> Requested(cfg, p, a)
    ensures a == Idle <==> forall b :: b in PriorityOrder ==> !Requested(cfg, p, b)
  {
    PriorityOrderComplete();
    if p.close then Close
    else if p.next then NextCam
    else if p.previous then PreviousCam
    else if cfg.rotationEnabled && p.rotateLeft then RotateLeft
    else if cfg.rotationEnabled && p.rotateRight then RotateRight
    else Idle
  }

  /** The handler's chain is exactly "first requested action in priority order". */
  lemma DispatchFollowsPriority(cfg: Config, p: Pressed)
    ensures Dispatch(cfg, p) == FirstRequested(cfg, p, PriorityOrder)
  {
  }

  /** A requested action suppresses every action of lower priority in the same frame. */
  lemma HigherPriorityWins(cfg: Config, p: Pressed, i: int, j: int)
    requires 0 <= i < j < |PriorityOrder|
    requires Requested(cfg, p, PriorityOrder[i])
    ensures Dispatch(cfg, p) != PriorityOrder[j]
  {
  }

  /**
   The yaw `rotateCamera` writes: `None` when clamping must read the bounds of
   a current camera that does not exist (the handler throws).
   */
  function Rotate(cfg: Config, s: State, yaw: real, speed: real): (r: Option<real>)
    ensures r.None? <==> cfg.rotateClamp && s.current.None?
    ensures r.Some? && cfg.rotateClamp ==> r.value <= s.current.value.maxClamp
    ensures r.Some? && cfg.rotateClamp && s.current.value.minClamp <= s.current.value.maxClamp ==>
      s.current.value.minClamp <= r.value
    ensures r.Some? && !cfg.rotateClamp ==> r.value == yaw + speed
    ensures (r.Some? && cfg.rotateClamp && s.current.value.minClamp <= s.current.value.maxClamp &&
             yaw + speed > s.current.value.maxClamp) ==> r.value == s.current.value.maxClamp
    ensures (r.Some? && cfg.rotateClamp && s.current.value.minClamp <= s.current.value.maxClamp &&
             yaw + speed < s.current.value.minClamp) ==> r.value == s.current.value.minClamp
    ensures (r.Some? && cfg.rotateClamp &&
             s.current.value.minClamp <= yaw + speed <= s.current.value.maxClamp) ==> r.value == yaw + speed
  {
    if !cfg.rotateClamp then Some(yaw + speed)
    else match s.current
      case None => None
      case Some(cam) => Some(RotateYaw(cfg, cam, yaw, speed))
  }

  /** The outcome of one frame: the new controller state and the yaw written to the camera, if any. */
  datatype Step = Step(state: State, written: Option<real>)

  /**
   One frame. Without a registered overlay tick nothing runs. Otherwise the
   dispatched action is applied; `None` means the handler threw.
   */
  function Frame(cams: seq<Camera>, cfg: Config, s: State, yaw: real, p: Pressed): (r: Option<Step>)
    requires |cams| > 0
    ensures !s.overlayTicking ==> r == Some(Step(s, None))
    ensures s.overlayTicking && p.close ==> r == Some(Step(Stop(s), None))
    ensures s.overlayTicking && Dispatch(cfg, p) == NextCam ==> r == Some(Step(Next(cams, s), None))
    ensures s.overlayTicking && Dispatch(cfg, p) == PreviousCam ==> r == Some(Step(Previous(cams, s), None))
    ensures Dispatch(cfg, p) == Idle ==> r == Some(Step(s, None))
    ensures s.overlayTicking && Dispatch(cfg, p) == RotateLeft ==>
      r == (if Rotate(cfg, s, yaw, RotateSpeed).None? then None
            else Some(Step(s, Rotate(cfg, s, yaw, RotateSpeed))))
    ensures s.overlayTicking && Dispatch(cfg, p) == RotateRight ==>
      r == (if Rotate(cfg, s, yaw, -RotateSpeed).None? then None
            else Some(Step(s, Rotate(cfg, s, yaw, -RotateSpeed))))
    ensures r.Some? && r.value.written.Some? ==>
      s.overlayTicking && Dispatch(cfg, p) in {RotateLeft, RotateRight} && r.value.state == s
  {
    if !s.overlayTicking then Some(Step(s, None))
    else match Dispatch(cfg, p)
      case Close => Some(Step(Stop(s), None))
      case NextCam => Some(Step(Next(cams, s), None))
      case PreviousCam => Some(Step(Previous(cams, s), None))
      case RotateLeft =>
        (match Rotate(cfg, s, yaw, RotateSpeed)
         case None => None
         case Some(y) => Some(Step(s, Some(y))))
      case RotateRight =>
        (match Rotate(cfg, s, yaw, -RotateSpeed)
         case None => None
         case Some(y) => Some(Step(s, Some(y))))
      case Idle => Some(Step(s, None))
  }

  /**
   From a valid state a frame never throws, keeps the invariant, and a yaw it
   writes with clamping on lies in the current camera's range.
   */
  lemma FrameKeepsInv(cams: seq<Camera>, cfg: Config, s: State, yaw: real, p: Pressed)
    requires Inv(cams, s)
    ensures Frame(cams, cfg, s, yaw, p).Some?
    ensures Inv(cams, Frame(cams, cfg, s, yaw, p).value.state)
    ensures
      var step := Frame(cams, cfg, s, yaw, p).value;
      step.written.Some? && cfg.rotateClamp && cams[s.index].minClamp <= cams[s.index].maxClamp ==>
        cams[s.index].minClamp <= step.written.value <= cams[s.index].maxClamp
  {
    TransitionsPreserveInv(cams, s, 0);
  }

  /** After a close, the tick is gone, so the next frame does nothing. */
  lemma CloseEndsTicking(cams: seq<Camera>, cfg: Config, s: State, yaw: real, yaw2: real, p: Pressed, q: Pressed)
    requires |cams| > 0
    requires s.overlayTicking && p.close
    ensures
      var after := Frame(cams, cfg, s, yaw, p).value.state;
      Frame(cams, cfg, after, yaw2, q) == Some(Step(after, None))
  {
  }

  /**
   With the switches as shipped, holding Q alone turns the view by +0.1
   degrees and holding E alone by -0.1 degrees, each clamped to the current
   camera's range; the controller state is untouched.
   */
  lemma ShippedRotateKeys(cams: seq<Camera>, s: State, yaw: real)
    requires Inv(cams, s) && s.overlayTicking
    ensures Frame(cams, SourceConfig, s, yaw, Pressed(false, false, false, true, false)) ==
      Some(Step(s, Some(Clamp(yaw + RotateSpeed, cams[s.index].minClamp, cams[s.index].maxClamp))))
    ensures Frame(cams, SourceConfig, s, yaw, Pressed(false, false, false, false, true)) ==
      Some(Step(s, Some(Clamp(yaw - RotateSpeed, cams[s.index].minClamp, cams[s.index].maxClamp))))
  {
  }
}
