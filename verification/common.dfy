/**
 Shared vocabulary of the security-camera controller: the camera record,
 the control keys it polls, the two feature switches and an Option type.
 */
module Common {

  /** A value that may be absent; `None` stands for JavaScript's `undefined`. */
  datatype Option<+T> = None | Some(value: T)

  /**
   A fixed in-world camera position. `coords` is the `[x, y, z]` triple of the
   record, `startingRotation` the yaw the view opens with and
   `[minClamp, maxClamp]` the yaw range that rotation is limited to.
   Angles are in degrees and modelled as reals.
   */
  datatype Camera = Camera(
    coords: seq<real>,
    startingRotation: real,
    minClamp: real,
    maxClamp: real
  )

  /** The five controls the overlay listens to. */
  datatype Key = X | Left | Right | Q | E

  /**
   The two compile-time switches of the controller: whether rotation is
   offered at all, and whether a rotated yaw is clamped to the camera's range.
   */
  datatype Config = Config(rotationEnabled: bool, rotateClamp: bool)

  /** The switches as the controller ships them: both on. */
  const SourceConfig: Config := Config(true, true)

  /** Degrees added to (or taken from) the yaw per tick while a rotate key is held. */
  const RotateSpeed: real := 0.1
}
