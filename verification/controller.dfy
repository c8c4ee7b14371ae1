/**
 The view controller's bookkeeping: which camera is current, whether the
 overlay tick is registered, whether the player is frozen and whether a
 native camera exists. Every host call is reduced to its effect on these
 flags; fades, waits and rendering are not part of the state.
 */
module Controller {
  import opened Common

  /**
   Controller state. `index` and `current` are `currentCameraIndex` and
   `currentCamera`; `overlayTicking` is `scaleformTick != 0`; `playerFrozen`
   is the freeze applied to the player ped; `camLive` is whether the scripted
   camera `cam` currently exists.
   */
  datatype State = State(
    index: int,
    current: Option<Camera>,
    overlayTicking: bool,
    playerFrozen: bool,
    camLive: bool
  )

  /** The state on module load: index 0, no camera, no tick, player free. */
  const Initial: State := State(0, None, false, false, false)

  /**
   What the controller keeps true over any list of cameras: the index is a
   valid position, the current camera is the one at that position, a tick is
   only registered for a current camera, and the player is frozen exactly
   while a scripted camera exists.
   */
  ghost predicate Inv(cams: seq<Camera>, s: State) {
    && 0 <= s.index < |cams|
    && (s.current.Some? ==> s.current.value == cams[s.index])
    && (s.overlayTicking ==> s.current.Some?)
    && (s.camLive ==> s.current.Some?)
    && s.playerFrozen == s.camLive
  }

  /** The bound check of camera selection: `index > length - 1 || index < 0` fails it. */
  predicate InRange(cams: seq<Camera>, i: int) {
    !(i > |cams| - 1 || i < 0)
  }

  /**
   JavaScript's `%` on integers: the remainder of truncating division, which
   takes the sign of the dividend. Only positive divisors occur here.
   */
  function JsRem(a: int, n: int): (r: int)
    requires n > 0
    ensures a >= 0 ==> 0 <= r < n && r == a % n
    ensures a < 0 ==> -n < r <= 0
    ensures 0 <= a < n ==> r == a
    ensures a == n ==> r == 0
  {
    if a >= 0 then
      SmallRemainders(a, n);
      a % n
    else
      -((-a) % n)
  }

  /**
   The remainder is odd in the dividend: negating the dividend negates the
   remainder. With the non-negative case this pins the truncated remainder,
   e.g. `-4 % 3 == -1`.
   */
  lemma JsRemOdd(a: int, n: int)
    requires n > 0
    ensures JsRem(-a, n) == -JsRem(a, n)
  {
  }

  /** `-4 % 3` is `-1` in JavaScript, not the mathematical remainder `2`. */
  lemma JsRemNegativeExample()
    ensures JsRem(-4, 3) == -1
    ensures -4 % 3 == 2
  {
  }

  /** Values below the divisor are their own remainder, and the divisor leaves none. */
  lemma SmallRemainders(m: nat, n: int)
    requires n > 0
    ensures m < n ==> m % n == m
    ensures m == n ==> m % n == 0
  {
  }

  /**
   Deactivation, as far as state goes: the native camera is destroyed, the
   overlay tick is cleared and the player is unfrozen. It is unguarded, and
   the current camera and index are kept.
   */
  function Stop(s: State): (r: State)
    ensures !r.overlayTicking && !r.playerFrozen && !r.camLive
    ensures r.index == s.index && r.current == s.current
  {
    s.(overlayTicking := false, playerFrozen := false, camLive := false)
  }

  /**
   Camera selection. An index failing the bound check changes nothing;
   otherwise the controller stops, records the camera, creates a fresh
   native camera and freezes the player. The overlay tick is registered
   later, by `OverlayReady`, once the fade and the overlay load finish.
   */
  function Use(cams: seq<Camera>, s: State, i: int): (r: State)
    ensures !InRange(cams, i) ==> r == s
    ensures InRange(cams, i) ==>
      && r.index == i
      && r.current == Some(cams[i])
      && r.playerFrozen && r.camLive
      && !r.overlayTicking
  {
    if !InRange(cams, i) then
      s
    else
      var stopped := Stop(s);
      var selected := stopped.(current := Some(cams[i]), index := i);
      selected.(camLive := true, playerFrozen := true)
  }

  /** The index `useNextCamera` asks for. */
  function NextIndex(cams: seq<Camera>, i: int): int
    requires |cams| > 0
  {
    JsRem(i + 1, |cams|)
  }

  /** The index `usePreviousCamera` asks for. */
  function PreviousIndex(cams: seq<Camera>, i: int): int
    requires |cams| > 0
  {
    JsRem(i - 1 + |cams|, |cams|)
  }

  /**
   Cycling forward. From a valid state the requested index always passes the
   bound check, so the next camera is selected, and the last one wraps to 0.
   */
  function Next(cams: seq<Camera>, s: State): (r: State)
    requires |cams| > 0
    ensures Inv(cams, s) ==>
      && r.index == (s.index + 1) % |cams|
      && r.current == Some(cams[r.index])
      && r.playerFrozen
    ensures Inv(cams, s) && s.index == |cams| - 1 ==> r.index == 0
    ensures Inv(cams, s) && s.index < |cams| - 1 ==> r.index == s.index + 1
    ensures Inv(cams, s) ==> r == Use(cams, s, (s.index + 1) % |cams|)
  {
    CycleIndexFacts(|cams|, s.index);
    Use(cams, s, NextIndex(cams, s.index))
  }

  /**
   Cycling backward. From a valid state the previous camera is selected, and
   camera 0 wraps to the last one.
   */
  function Previous(cams: seq<Camera>, s: State): (r: State)
    requires |cams| > 0
    ensures Inv(cams, s) ==>
      && r.index == (s.index - 1 + |cams|) % |cams|
      && r.current == Some(cams[r.index])
      && r.playerFrozen
    ensures Inv(cams, s) && s.index == 0 ==> r.index == |cams| - 1
    ensures Inv(cams, s) && s.index > 0 ==> r.index == s.index - 1
    ensures Inv(cams, s) ==> r == Use(cams, s, (s.index - 1 + |cams|) % |cams|)
  {
    CycleIndexFacts(|cams|, s.index);
    Use(cams, s, PreviousIndex(cams, s.index))
  }

  /** The wrap-around arithmetic of cycling over `n` cameras from a valid index. */
  lemma CycleIndexFacts(n: int, i: int)
    requires n > 0
    ensures 0 <= i < n ==> JsRem(i + 1, n) == (i + 1) % n
    ensures 0 <= i < n - 1 ==> (i + 1) % n == i + 1
    ensures i == n - 1 ==> (i + 1) % n == 0
    ensures 0 <= i < n ==> JsRem(i - 1 + n, n) == (i - 1 + n) % n
    ensures 0 < i < n ==> (i - 1 + n) % n == i - 1
    ensures i == 0 ==> (i - 1 + n) % n == n - 1
  {
  }

  /**
   The asynchronous tail of activation: once the overlay has loaded the
   per-frame tick is registered. Without a current camera that tail throws
   on reading its coordinates before registering anything.
   */
  function OverlayReady(s: State): (r: State)
    ensures s.current.Some? ==> r.overlayTicking
    ensures s.current.None? ==> r == s
    ensures r.(overlayTicking := s.overlayTicking) == s
  {
    if s.current.None? then s else s.(overlayTicking := true)
  }

  /** The resource-start hook: select camera 0. */
  function OnResourceStart(cams: seq<Camera>, s: State): (r: State)
    ensures |cams| > 0 ==> r.index == 0 && r.current == Some(cams[0]) && r.playerFrozen
    ensures |cams| == 0 ==> r == s
  {
    Use(cams, s, 0)
  }

  /** The resource-stop hook: deactivate. */
  function OnResourceStop(s: State): (r: State)
    ensures !r.overlayTicking && !r.playerFrozen && !r.camLive
    ensures r.index == s.index
  {
    Stop(s)
  }

  // ----- Properties relating several transitions -----

  lemma InitialIsValid(cams: seq<Camera>)
    requires |cams| > 0
    ensures Inv(cams, Initial)
  {
  }

  /** Every transition keeps the controller invariant. */
  lemma TransitionsPreserveInv(cams: seq<Camera>, s: State, i: int)
    requires Inv(cams, s)
    ensures Inv(cams, Stop(s))
    ensures Inv(cams, Use(cams, s, i))
    ensures Inv(cams, Next(cams, s))
    ensures Inv(cams, Previous(cams, s))
    ensures Inv(cams, OverlayReady(s))
  {
  }

  /** From a valid state the index `useNextCamera` computes never trips the bound check. */
  lemma NextIndexInRange(cams: seq<Camera>, s: State)
    requires Inv(cams, s)
    ensures InRange(cams, NextIndex(cams, s.index))
    ensures InRange(cams, PreviousIndex(cams, s.index))
  {
  }

  /** Next followed by previous, or previous followed by next, returns to the same camera. */
  lemma PreviousUndoesNext(cams: seq<Camera>, s: State)
    requires Inv(cams, s)
    ensures Previous(cams, Next(cams, s)).index == s.index
    ensures Next(cams, Previous(cams, s)).index == s.index
    ensures Previous(cams, Next(cams, s)).current == Some(cams[s.index])
    ensures Next(cams, Previous(cams, s)).current == Some(cams[s.index])
  {
    TransitionsPreserveInv(cams, s, 0);
  }

  /** Stopping twice is the same as stopping once. */
  lemma StopIdempotent(s: State)
    ensures Stop(Stop(s)) == Stop(s)
  {
  }

  /** Stopping an inactive controller changes no modelled state. */
  lemma StopWhenInactive(s: State)
    requires !s.overlayTicking && !s.playerFrozen && !s.camLive
    ensures Stop(s) == s
  {
  }

  /**
   With three cameras: start, select camera 0, then cycle forward three
   times; the indices visited are 1, 2 and back to 0.
   */
  lemma ThreeCameraCycle(cams: seq<Camera>)
    requires |cams| == 3
    ensures Use(cams, Initial, 0).index == 0
    ensures Next(cams, Use(cams, Initial, 0)).index == 1
    ensures Next(cams, Next(cams, Use(cams, Initial, 0))).index == 2
    ensures Next(cams, Next(cams, Next(cams, Use(cams, Initial, 0)))).index == 0
  {
  }
}
