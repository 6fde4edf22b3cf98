/** The camera fly-to controller (`CameraController` / `CameraMover`): a
    target position, a target look-at point and a moving flag. Each frame
    while moving, the camera position closes a fixed fraction of its gap to
    the target, the camera turns part of the way toward the target look-at
    point, and motion stops once both pre-step errors are within tolerance. */
module Motion {
  import opened Vectors

  /** `this.speed`: the fraction of the remaining gap closed per frame. */
  const Speed: real := 0.05
  /** Stop once the camera is closer than this to the target position ... */
  const PositionTolerance: real := 0.1
  /** ... and its facing error is below this. */
  const OrientationTolerance: real := 0.01
  /** How much of the squared position gap survives one frame. */
  const GapSqFactor: real := (1.0 - Speed) * (1.0 - Speed)

  /** The camera's orientation, kept opaque: either as constructed, or as set
      by `lookAt(point)` from the eye position `eye`. */
  datatype Orientation = Initial | Aim(eye: Vec3, point: Vec3)

  datatype Camera = Camera(position: Vec3, orientation: Orientation)

  datatype Controller = Controller(targetPosition: Vec3, targetLookAt: Vec3, isMoving: bool)

  /** The controller together with the camera it drives. */
  datatype Rig = Rig(controller: Controller, camera: Camera)

  /** What the rendering library reports about the camera's orientation at
      the start of a frame: its unit forward vector (`getWorldDirection`) and
      the distance between that vector and the unit vector toward the target
      look-at point. */
  datatype Frame = Frame(forward: Vec3, orientationError: real)

  /** `new CameraController(camera, renderer)`: both targets at the origin,
      idle. */
  function NewController(): (c: Controller)
    ensures !c.isMoving
    ensures c.targetPosition == Vec3(0.0, 0.0, 0.0) && c.targetLookAt == Vec3(0.0, 0.0, 0.0)
  {
    Controller(Vec3(0.0, 0.0, 0.0), Vec3(0.0, 0.0, 0.0), false)
  }

  /** `new CameraMover(camera, scene)`: the target position is a copy of the
      camera's current position, the target look-at is the origin, idle. */
  function NewMover(camera: Camera): (c: Controller)
    ensures !c.isMoving
    ensures c.targetPosition == camera.position
    ensures c.targetLookAt == Vec3(0.0, 0.0, 0.0)
  {
    Controller(camera.position, Vec3(0.0, 0.0, 0.0), false)
  }

  /** `moveTo`: overwrite both targets and start moving. The look-at
      components default to 0, and `duration` is accepted but unused. */
  function MoveTo(c: Controller, x: real, y: real, z: real,
                  lookAtX: real := 0.0, lookAtY: real := 0.0, lookAtZ: real := 0.0,
                  duration: real := 1000.0): (r: Controller)
    ensures r.isMoving
    ensures r.targetPosition == Vec3(x, y, z)
    ensures r.targetLookAt == Vec3(lookAtX, lookAtY, lookAtZ)
  {
    Controller(Vec3(x, y, z), Vec3(lookAtX, lookAtY, lookAtZ), true)
  }

  /** A new move replaces the previous one entirely: nothing of the earlier
      target or of the requested duration survives. */
  lemma MoveToOverwrites(c: Controller, x: real, y: real, z: real, lx: real, ly: real, lz: real,
                         x': real, y': real, z': real, lx': real, ly': real, lz': real,
                         d: real, d': real)
    ensures MoveTo(MoveTo(c, x, y, z, lx, ly, lz, d), x', y', z', lx', ly', lz', d')
         == MoveTo(c, x', y', z', lx', ly', lz')
  {
  }

  /** The stopping test of `update`, on the errors measured before the step:
      the position distance below `PositionTolerance` (compared squared) and
      the orientation error below `OrientationTolerance`. */
  predicate CloseEnough(rig: Rig, f: Frame) {
    && DistSq(rig.camera.position, rig.controller.targetPosition) < PositionTolerance * PositionTolerance
    && f.orientationError < OrientationTolerance
  }

  /** `update`, one animation frame. */
  function Update(rig: Rig, f: Frame): (r: Rig)
    ensures !rig.controller.isMoving ==> r == rig
    ensures r.controller.targetPosition == rig.controller.targetPosition
    ensures r.controller.targetLookAt == rig.controller.targetLookAt
    ensures rig.controller.isMoving ==>
      && Sub(r.controller.targetPosition, r.camera.position)
         == Scale(Sub(rig.controller.targetPosition, rig.camera.position), 1.0 - Speed)
      && DistSq(r.camera.position, r.controller.targetPosition)
         == GapSqFactor * DistSq(rig.camera.position, rig.controller.targetPosition)
      && (r.controller.isMoving <==> !CloseEnough(rig, f))
      && r.camera.orientation.Aim?
      && r.camera.orientation.eye == r.camera.position
      && Sub(r.controller.targetLookAt, r.camera.orientation.point)
         == Scale(Sub(r.controller.targetLookAt, Add(r.camera.position, f.forward)), 1.0 - Speed)
  {
    var c := rig.controller;
    if !c.isMoving then rig
    else
      var position := Lerp(rig.camera.position, c.targetPosition, Speed);
      var currentLookAt := Add(position, f.forward);
      var smoothedLookAt := Lerp(currentLookAt, c.targetLookAt, Speed);
      LerpDistSq(rig.camera.position, c.targetPosition, Speed);
      Rig(c.(isMoving := !CloseEnough(rig, f)), Camera(position, Aim(position, smoothedLookAt)))
  }

  /** The rig after one `update` per frame in `frames`. */
  function Run(rig: Rig, frames: seq<Frame>): Rig
    decreases |frames|
  {
    if |frames| == 0 then rig else Run(Update(rig, frames[0]), frames[1..])
  }

  /** An idle controller stays idle and leaves the camera untouched, for any
      number of frames. */
  lemma {:induction false} RunIdle(rig: Rig, frames: seq<Frame>)
    requires !rig.controller.isMoving
    ensures Run(rig, frames) == rig
    decreases |frames|
  {
    if |frames| > 0 {
      RunIdle(Update(rig, frames[0]), frames[1..]);
    }
  }

  /** The squared position gap never grows, frame after frame. */
  lemma {:induction false} RunNeverMovesAway(rig: Rig, frames: seq<Frame>)
    ensures Run(rig, frames).controller.targetPosition == rig.controller.targetPosition
    ensures DistSq(Run(rig, frames).camera.position, rig.controller.targetPosition)
         <= DistSq(rig.camera.position, rig.controller.targetPosition)
    decreases |frames|
  {
    if |frames| > 0 {
      RunNeverMovesAway(Update(rig, frames[0]), frames[1..]);
    }
  }

  function Pow(x: real, n: nat): real {
    if n == 0 then 1.0 else x * Pow(x, n - 1)
  }

  lemma {:induction false} PowNonNegative(x: real, n: nat)
    requires x >= 0.0
    ensures Pow(x, n) >= 0.0
  {
    if n > 0 {
      PowNonNegative(x, n - 1);
    }
  }

  /** While the orientation never settles, the controller keeps moving and
      the position gap after `n` frames is `(1 - Speed)^n` of the first. */
  lemma {:induction false} RunGeometric(rig: Rig, frames: seq<Frame>)
    requires rig.controller.isMoving
    requires forall i | 0 <= i < |frames| :: frames[i].orientationError >= OrientationTolerance
    ensures Run(rig, frames).controller.isMoving
    ensures Sub(rig.controller.targetPosition, Run(rig, frames).camera.position)
         == Scale(Sub(rig.controller.targetPosition, rig.camera.position), Pow(1.0 - Speed, |frames|))
    decreases |frames|
  {
    var t := rig.controller.targetPosition;
    if |frames| == 0 {
      var g := Sub(t, rig.camera.position);
      assert Scale(g, 1.0) == g;
    } else {
      var next := Update(rig, frames[0]);
      var g := Sub(t, rig.camera.position);
      assert next.controller.isMoving && next.controller.targetPosition == t;
      assert Sub(t, next.camera.position) == Scale(g, 1.0 - Speed);
      RunGeometric(next, frames[1..]);
      assert Run(rig, frames) == Run(next, frames[1..]);
      ScaleTwice(g, 1.0 - Speed, Pow(1.0 - Speed, |frames| - 1));
    }
  }

  /** Motion stops within the given frames when the orientation is settled
      in every frame and the geometric bound on the position gap falls below
      the tolerance by the last frame. */
  lemma {:induction false} StopsWithin(rig: Rig, frames: seq<Frame>)
    requires |frames| >= 1
    requires forall i | 0 <= i < |frames| :: frames[i].orientationError < OrientationTolerance
    requires DistSq(rig.camera.position, rig.controller.targetPosition) * Pow(GapSqFactor, |frames| - 1)
             < PositionTolerance * PositionTolerance
    ensures !Run(rig, frames).controller.isMoving
    decreases |frames|
  {
    var next := Update(rig, frames[0]);
    if !rig.controller.isMoving || CloseEnough(rig, frames[0]) {
      RunIdle(next, frames[1..]);
    } else {
      var d := DistSq(rig.camera.position, rig.controller.targetPosition);
      assert |frames| >= 2;
      var p := Pow(GapSqFactor, |frames| - 2);
      assert d * (GapSqFactor * p) == (GapSqFactor * d) * p;
      StopsWithin(next, frames[1..]);
    }
  }

  /** Bernoulli's inequality in the form `(1 - f)^n (1 + n f) <= 1`. */
  lemma {:induction false} Bernoulli(f: real, n: nat)
    requires 0.0 <= f <= 1.0
    ensures Pow(1.0 - f, n) * (1.0 + n as real * f) <= 1.0
  {
    if n > 0 {
      Bernoulli(f, n - 1);
      var p := Pow(1.0 - f, n - 1);
      PowNonNegative(1.0 - f, n - 1);
      var m := (n - 1) as real;
      assert (1.0 - f) * (1.0 + m * f + f) == 1.0 + m * f - f * f * (m + 1.0);
      assert f * f * (m + 1.0) >= 0.0;
      assert (1.0 - f) * (1.0 + m * f + f) <= 1.0 + m * f;
      assert p * ((1.0 - f) * (1.0 + m * f + f)) <= p * (1.0 + m * f);
      assert Pow(1.0 - f, n) == (1.0 - f) * p;
      assert n as real * f == m * f + f;
      assert ((1.0 - f) * p) * (1.0 + m * f + f) == p * ((1.0 - f) * (1.0 + m * f + f));
    }
  }

  lemma ScaledBound(d: real, p: real, b: real)
    requires d >= 0.0 && p >= 0.0 && b > 0.0
    requires p * b <= 1.0 && d < 0.01 * b
    ensures d * p < 0.01
  {
    assert d * (p * b) <= d;
    assert (d * p) * b == d * (p * b);
    if d * p >= 0.01 {
      assert false;
    }
  }

  /** Convergence: with the orientation settled in every frame, a moving
      controller starting at squared distance `d` from its target has
      stopped after `1 + 1026 d` frames. */
  lemma Converges(rig: Rig, frames: seq<Frame>)
    requires |frames| >= 1
    requires forall i | 0 <= i < |frames| :: frames[i].orientationError < OrientationTolerance
    requires (|frames| - 1) as real >= 1026.0 * DistSq(rig.camera.position, rig.controller.targetPosition)
    ensures !Run(rig, frames).controller.isMoving
  {
    var d := DistSq(rig.camera.position, rig.controller.targetPosition);
    var n := |frames| - 1;
    assert 1.0 - 0.0975 == GapSqFactor;
    Bernoulli(0.0975, n);
    var q := Pow(GapSqFactor, n);
    PowNonNegative(GapSqFactor, n);
    var b := 1.0 + n as real * 0.0975;
    assert q * b <= 1.0;
    assert n as real * 0.0975 >= 1026.0 * d * 0.0975;
    assert 0.01 * b == 0.01 + n as real * 0.000975;
    assert d < 0.01 * b;
    ScaledBound(d, q, b);
    assert PositionTolerance * PositionTolerance == 0.01;
    assert d * q < PositionTolerance * PositionTolerance;
    StopsWithin(rig, frames);
  }
}
