# Security camera view controller — Dafny model

This project models the bookkeeping of the client-side view controller of a
security-camera feature for a game-modification framework. A player can
activate one of a fixed list of in-world cameras, cycle forwards and
backwards through them, rotate the view within the camera's yaw limits, and
close the view. The overlay shows a row of button prompts.

The host engine does everything visible: camera objects, fades, scaleform
overlays and input polling. The model keeps only the state those calls
leave behind, as an immutable `Controller.State`:

- `index`: `currentCameraIndex`;
- `current`: `currentCamera`, an `Option<Camera>`, since it is undefined on load;
- `overlayTicking`: `scaleformTick != 0`;
- `playerFrozen`: whether the player ped is frozen;
- `camLive`: whether the scripted camera exists.

Every operation is a pure transition on this state. The camera list is a
`seq<Camera>` parameter.

Modules:

- `Common`: the `Camera` record (`src/common/camera.ts`), the five keys, the
  two feature switches (`RotationEnabled`, `EnableRotateClamp`) as a
  `Config`, and the rotate speed of 0.1 degrees.
- `Controller`: the controller state and its invariant, plus camera
  selection (`useCamera`), cycling (`useNextCamera` and `usePreviousCamera`)
  and deactivation (`stopUsingCamera`). It also holds the asynchronous
  registration of the overlay tick and the resource start/stop hooks.
- `Rotation`: `clamp`, and the yaw a rotation step writes. It also covers
  runs of several rotation steps.
- `Overlay`: the per-frame input handler. This is the priority chain
  X > RIGHT > LEFT > Q > E, with Q and E gated by `RotationEnabled`. The
  module proves the chain equal to a reference "first requested action"
  reading.
- `Instructions`: the button prompts. They are reversed, filtered by
  `enabled` and numbered into slots from 0.

JavaScript's `%` truncates towards zero, so it is modelled as
`Controller.JsRem`. Yaw is a `real`.

`stopUsingCamera` has no guard for an inactive controller
(`src/client/index.ts:82-85`, `111-116`). It always destroys the camera if
it exists, clears the tick, fades and unfreezes the player. Its effect on
the modelled state is idempotent (`Controller.StopIdempotent`), and it
leaves an inactive state unchanged (`Controller.StopWhenInactive`). The fade
and the unfreeze are still issued as host calls, but they are not part of
the state.

`useCamera` creates the camera synchronously, through `createCamera` in
`toggleCameraView`. `scaleformTick` is assigned only at the end of
`renderScaleform` (`src/client/index.ts:157`), after the fade and the
overlay loads. So right after `useCamera` the camera exists but no tick is
registered. The model reflects this: `Controller.Use` leaves
`overlayTicking` false, and the separate transition
`Controller.OverlayReady` sets it.

## Model

| member | source | states |
|---|---|---|
| Controller.JsRem | src/client/index.ts:75-79 | JavaScript `%` with a positive divisor: on a non-negative dividend the result is in `[0, n)` and agrees with the mathematical remainder; on a negative one it is in `(-n, 0]`; values below `n` are unchanged and `n` itself gives 0 |
| Controller.JsRemOdd | src/client/index.ts:75-79 | Negating the dividend negates the remainder; with the non-negative case this fixes the truncated remainder for every dividend |
| Controller.JsRemNegativeExample | src/client/index.ts:79 | `-4 % 3` is `-1` in JavaScript, whereas the mathematical remainder is `2` |
| Controller.Stop | src/client/index.ts:82-85 | Deactivation clears the tick, destroys the camera and unfreezes the player; the current camera and index are kept |
| Controller.Use | src/client/index.ts:63-72 | An index outside `[0, length-1]` leaves the state exactly as it was; a valid index makes it current, sets the camera to `cams[i]`, freezes the player and creates the camera, while the tick is cleared by the preceding stop |
| Controller.Next | src/client/index.ts:74-76 | From a valid state, next is exactly `useCamera((i+1) mod n)`: it selects that camera, creates a fresh camera, freezes the player and clears the tick. The last camera wraps to 0; otherwise the index goes up by one |
| Controller.Previous | src/client/index.ts:78-80 | From a valid state, previous is exactly `useCamera((i-1+n) mod n)`, with the same effects as next. Camera 0 wraps to `n-1`; otherwise the index goes down by one |
| Controller.OverlayReady | src/client/index.ts:155-157 | When the overlay finishes loading, the tick is registered if a camera is current; no other field changes |
| Controller.OnResourceStart | src/client/index.ts:18-23 | Resource start selects camera 0 when the list is non-empty and is a no-op when it is empty |
| Controller.OnResourceStop | src/client/index.ts:25-29 | Resource stop leaves no tick, no camera and the player unfrozen |
| Controller.InitialIsValid | src/client/index.ts:4-7 | The load-time state (index 0, no camera, no tick) satisfies the controller invariant for any non-empty camera list |
| Controller.TransitionsPreserveInv | src/client/index.ts:63-85 | Stop, Use, Next, Previous and OverlayReady all preserve the invariant: the index is valid, the current camera is `cams[index]`, a tick implies a current camera, and the player is frozen iff a camera exists |
| Controller.NextIndexInRange | src/client/index.ts:63-80 | From a valid state, the indices computed by next and previous always pass the bound check, so cycling never hits the silent no-op |
| Controller.PreviousUndoesNext | src/client/index.ts:74-80 | Next then previous, and previous then next, both return to the original index and camera |
| Controller.StopIdempotent | src/client/index.ts:110-116 | Stopping twice gives the same state as stopping once |
| Controller.StopWhenInactive | src/client/index.ts:82-85 | Stopping an inactive controller (no tick, no camera, player free) changes no modelled state |
| Controller.ThreeCameraCycle | src/client/index.ts:74-76 | With three cameras, selecting 0 and then cycling forward visits 1, 2 and back to 0 |
| Rotation.Clamp | src/client/index.ts:204-206 | `min(max(v, lo), hi)` never exceeds `hi`; with `lo <= hi` it lies in `[lo, hi]`; an in-range value is returned unchanged; the result is one of `v`, `lo`, `hi`; an inverted range yields `hi` |
| Rotation.ClampIdempotent | src/client/index.ts:204-206 | Clamping a clamped value changes nothing, for any bounds |
| Rotation.ClampMonotone | src/client/index.ts:204-206 | Clamping preserves the order of values |
| Rotation.ClampIsNearest | src/client/index.ts:204-206 | The clamped value is a point of `[lo, hi]` nearest to the input |
| Rotation.RotateYaw | src/client/index.ts:189-200 | With clamping on and an ordered range: the new yaw lies in `[minClamp, maxClamp]`; an in-range step is not altered; a step past a bound stops exactly on that bound. With clamping off the yaw moves by exactly `speed` |
| Rotation.RotateManyStaysInRange | src/client/index.ts:189-200 | With clamping on, any non-empty run of rotation steps ends in the camera's range, whatever the starting yaw; a run that starts in range stays in range |
| Rotation.RotateManyUnclamped | src/client/index.ts:189-200 | With clamping off, a run of steps moves the yaw by the sum of the speeds, unbounded |
| Overlay.FirstRequested | src/client/index.ts:175-185 | Reference reading of a priority chain: a returned action is requested and sits at a position with nothing requested before it; `Idle` means nothing in the order was requested |
| Overlay.Dispatch | src/client/index.ts:175-185 | The handler takes at most one action, and only one that was requested; it is idle exactly when none of the five actions is requested (Q/E count only when rotation is enabled) |
| Overlay.DispatchFollowsPriority | src/client/index.ts:175-185 | The handler's chain equals the first requested action in the order close, next, previous, rotate +speed, rotate -speed |
| Overlay.HigherPriorityWins | src/client/index.ts:175-185 | A requested action excludes every lower-priority action in the same frame |
| Overlay.Rotate | src/client/index.ts:189-200 | The written yaw is absent (the handler throws) exactly when clamping needs a current camera that does not exist. With clamping on it lies in that camera's range: an in-range step gives exactly `yaw + speed`, and an overshooting step stops on the bound it crosses. Unclamped it is `yaw + speed` |
| Overlay.Frame | src/client/index.ts:157-186 | Without a registered tick a frame does nothing. With one: close wins and only deactivates; RIGHT performs Next and LEFT performs Previous; Q writes the rotation by `+0.1` and E by `-0.1`, or the handler throws when that rotation does; an idle frame changes nothing; a frame that writes a yaw leaves the controller state unchanged |
| Overlay.ShippedRotateKeys | src/client/index.ts:181-184 | With the switches as shipped, holding Q alone writes `clamp(yaw + 0.1, minClamp, maxClamp)` and holding E alone writes `clamp(yaw - 0.1, minClamp, maxClamp)` for the current camera; the controller state is untouched |
| Overlay.FrameKeepsInv | src/client/index.ts:175-185 | From a valid state a frame never throws, keeps the invariant, and a clamped yaw it writes lies in the current camera's range |
| Overlay.CloseEndsTicking | src/client/index.ts:175-176 | After a close frame the tick is cleared, so the following frame does nothing whatever is pressed |
| Instructions.Reverse | src/client/index.ts:253 | The reversed list has the same length, and element `i` is the input's element `n-1-i` |
| Instructions.Enabled | src/client/index.ts:254 | The filter keeps no more than the input and only enabled entries |
| Instructions.EnabledMembers | src/client/index.ts:254 | A button is kept by the filter iff it is in the list and enabled |
| Instructions.EnabledOfReverse | src/client/index.ts:253-254 | Reversing then filtering equals filtering then reversing: the slots are the enabled buttons, last declared first |
| Instructions.NumberSlots | src/client/index.ts:255-263 | Each button goes to the slot numbered by its position, contiguously from 0, with its label and key |
| Instructions.ShownButtons | src/client/index.ts:226-254 | The buttons that reach the slots: Close, then both rotate prompts if rotation is enabled, then Next and Previous |
| Instructions.ShippedShowsAllPrompts | src/client/index.ts:226-254 | With the switches as shipped (rotation on), no prompt is filtered out: all five reach the overlay, in reverse declaration order |
| Instructions.InstructionSlots | src/client/index.ts:226-263 | Slots are numbered 0, 1, …; Close is slot 0; with rotation on there are five slots (Close, Rotate Right, Rotate Left, Next, Previous); with rotation off only Close, Next and Previous |

## Left out

- Host calls are not modelled beyond their effect on the state flags. This covers marker drawing, camera creation and positioning, render and timecycle calls, focus calls, freezing, and the whole scaleform push/pop protocol, including the location, details and clock texts and the key suppression. All of these are opaque engine APIs.
- Asynchronous sequencing is not modelled. `useCamera` and `stopUsingCamera` start `toggleCameraView` without awaiting it, and it contains fades, delays and unbounded load-polling loops. The model collapses the synchronous part of each call into one transition and the tail of activation into `Controller.OverlayReady`. Interleavings are not modelled. One example: a second activation before the first one's overlay loads registers two ticks and loses the first handle.
- The camera's starting rotation is set by the asynchronous part of activation, so it is not part of the state. In a tick, rotation takes the host's current yaw as a parameter.
- The idle-camera tick is not modelled. It is event wiring only. The resource hooks are reduced to `Controller.OnResourceStart` and `Controller.OnResourceStop`; the resource-name comparison is a host call.
- Rotation.RotateManyUnclamped and Rotation.RotateManyStaysInRange assume that each tick's `GetCamRot(cam, 2)` returns exactly the yaw the previous `SetCamRot` wrote. The host is not modelled as normalising angles, for example into (-180, 180]. Under such a host, "unbounded, the sum of the speeds" would not hold.
- Floating-point behaviour of yaw and speed is not modelled. Yaw is a `real`, and IEEE rounding is not claimed.
- The contents of the camera list and the key map are not modelled. They are defined in a module that is not part of this model, so the list is a parameter.
- Controller.Next, Controller.Previous and Overlay.Frame require a non-empty camera list. With an empty list JavaScript's `%` yields NaN, which is not modelled.
- Controller.Use takes an integer index. JavaScript numbers may be fractional, which would pass the bound check and read an undefined camera. The controller only ever passes integers.
