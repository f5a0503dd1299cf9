/** The Kalman-filter shell of position/position_extrapolator.py: the sensor
    record, the six-dimensional state `[x, y, vx, vy, sin, cos]`, the
    constant-velocity transition matrix and how the pose is read back out of
    the state.  The filter's own predict and update steps belong to an
    external library and are not part of this model. */
module Extrapolator {
  import opened Position

  /** `SensorType`. */
  datatype SensorType = Lidar | Imu | AprilTag

  /** `Sensor`: a measured pose, its kind and its measurement noise.  The
      velocity fields are stored but never read. */
  datatype Sensor = Sensor(
    position: Position2D,
    sensorType: SensorType,
    noiseMatrix: seq<seq<real>>,
    vx: real,
    vy: real)

  /** `Sensor.get_state`: the measurement vector handed to the filter, in the
      `to_array_with_velocity` layout. */
  function GetState(s: Sensor): (z: seq<real>)
    ensures |z| == 6
    ensures FromArrayWithVelocity(z) == s.position
  {
    ArrayWithVelocityRoundTrip(s.position, ToArrayWithVelocity(s.position));
    ToArrayWithVelocity(s.position)
  }

  /** The constructor call `Sensor(position, type, noise_matrix)` with the
      default velocities. */
  function NewSensor(position: Position2D, sensorType: SensorType, noiseMatrix: seq<seq<real>>): (s: Sensor)
    ensures s.vx == 0.0 && s.vy == 0.0
    ensures s.position == position && s.sensorType == sensorType && s.noiseMatrix == noiseMatrix
  {
    Sensor(position, sensorType, noiseMatrix, 0.0, 0.0)
  }

  /** The measurement depends on the sensor's pose only: its own `vx`, `vy`
      never reach the filter (the pose's velocities do). */
  lemma GetStateIgnoresSensorVelocity(s: Sensor, vx: real, vy: real)
    ensures GetState(s.(vx := vx, vy := vy)) == GetState(s)
    ensures GetState(s)[2] == s.position.vx && GetState(s)[3] == s.position.vy
  {
  }

  /** A 6x6 matrix as a sequence of rows. */
  predicate IsMat6(m: seq<seq<real>>) {
    |m| == 6 && forall i | 0 <= i < 6 :: |m[i]| == 6
  }

  /** The filter state this model keeps: the map sizes, the state mean `x`
      and the transition matrix `F`. */
  datatype PositionExtrapolator = PositionExtrapolator(
    mapSizePixels: int,
    mapSizeMeters: real,
    x: seq<real>,
    f: seq<seq<real>>)
  {
    predicate Valid() {
      |x| == 6 && IsMat6(f)
    }
  }

  /** The default `initial_dt`. */
  const DefaultDt: real := 0.1

  /** `F`: the identity with the time step at (0, 2) and (1, 3), so position
      advances by velocity times the step. */
  function TransitionMatrix(dt: real): (f: seq<seq<real>>)
    ensures IsMat6(f)
    ensures forall i | 0 <= i < 6 :: f[i][i] == 1.0
    ensures f[0][2] == dt && f[1][3] == dt
    ensures forall i, j | 0 <= i < 6 && 0 <= j < 6 && i != j && (i, j) != (0, 2) && (i, j) != (1, 3) :: f[i][j] == 0.0
  {
    [[1.0, 0.0, dt, 0.0, 0.0, 0.0],
     [0.0, 1.0, 0.0, dt, 0.0, 0.0],
     [0.0, 0.0, 1.0, 0.0, 0.0, 0.0],
     [0.0, 0.0, 0.0, 1.0, 0.0, 0.0],
     [0.0, 0.0, 0.0, 0.0, 1.0, 0.0],
     [0.0, 0.0, 0.0, 0.0, 0.0, 1.0]]
  }

  /** `PositionExtrapolator(map_size_pixels, map_size_meters, initial_dt)`:
      the state starts at the centre of the map, at rest, with 1 in slot 4
      and 0 in slot 5. */
  function NewPositionExtrapolator(mapSizePixels: int, mapSizeMeters: real, initialDt: real): (e: PositionExtrapolator)
    ensures e.Valid()
    ensures e.mapSizePixels == mapSizePixels && e.mapSizeMeters == mapSizeMeters
    ensures e.x[0] + e.x[0] == mapSizeMeters && e.x[1] == e.x[0]
    ensures e.x[2] == 0.0 && e.x[3] == 0.0 && e.x[4] == 1.0 && e.x[5] == 0.0
    ensures e.f == TransitionMatrix(initialDt)
  {
    PositionExtrapolator(mapSizePixels, mapSizeMeters,
      [mapSizeMeters / 2.0, mapSizeMeters / 2.0, 0.0, 0.0, 1.0, 0.0],
      TransitionMatrix(initialDt))
  }

  /** `update_time_step`: writes `dt` into the two time-step slots of `F`;
      every other entry of `F`, and the state, stay as they were. */
  function UpdateTimeStep(e: PositionExtrapolator, dt: real): (r: PositionExtrapolator)
    requires e.Valid()
    ensures r.Valid()
    ensures r.f[0][2] == dt && r.f[1][3] == dt
    ensures forall i, j | 0 <= i < 6 && 0 <= j < 6 && (i, j) != (0, 2) && (i, j) != (1, 3) :: r.f[i][j] == e.f[i][j]
    ensures r.x == e.x && r.mapSizePixels == e.mapSizePixels && r.mapSizeMeters == e.mapSizeMeters
  {
    e.(f := e.f[0 := e.f[0][2 := dt]][1 := e.f[1][3 := dt]])
  }

  /** On a freshly built extrapolator, updating the step gives the transition
      matrix of the new step: nothing of the initial step survives. */
  lemma UpdateTimeStepFresh(mapSizePixels: int, mapSizeMeters: real, initialDt: real, dt: real)
    ensures UpdateTimeStep(NewPositionExtrapolator(mapSizePixels, mapSizeMeters, initialDt), dt).f == TransitionMatrix(dt)
  {
    var r := UpdateTimeStep(NewPositionExtrapolator(mapSizePixels, mapSizeMeters, initialDt), dt);
    forall i | 0 <= i < 6
      ensures r.f[i] == TransitionMatrix(dt)[i]
    {
    }
  }

  /** The last update wins: a second update overwrites the first. */
  lemma UpdateTimeStepTwice(e: PositionExtrapolator, dt1: real, dt2: real)
    requires e.Valid()
    ensures UpdateTimeStep(UpdateTimeStep(e, dt1), dt2) == UpdateTimeStep(e, dt2)
  {
    var a, b := UpdateTimeStep(UpdateTimeStep(e, dt1), dt2), UpdateTimeStep(e, dt2);
    forall i | 0 <= i < 6
      ensures a.f[i] == b.f[i]
    {
    }
  }

  /** Row `a` times column `b` for six-vectors. */
  function Dot6(a: seq<real>, b: seq<real>): real
    requires |a| == 6 && |b| == 6
  {
    a[0] * b[0] + a[1] * b[1] + a[2] * b[2] + a[3] * b[3] + a[4] * b[4] + a[5] * b[5]
  }

  /** `F @ x`, the mean the filter's predict step moves the state to. */
  function MatVec(m: seq<seq<real>>, v: seq<real>): (r: seq<real>)
    requires IsMat6(m) && |v| == 6
    ensures |r| == 6
  {
    seq(6, i requires 0 <= i < 6 => Dot6(m[i], v))
  }

  /** `F` is the constant-velocity motion model: one step moves the position
      by the step times the velocity and leaves velocity and heading alone. */
  lemma TransitionStep(dt: real, s: seq<real>)
    requires |s| == 6
    ensures MatVec(TransitionMatrix(dt), s) == [s[0] + dt * s[2], s[1] + dt * s[3], s[2], s[3], s[4], s[5]]
  {
    var f := TransitionMatrix(dt);
    var r := MatVec(f, s);
    assert r[0] == Dot6(f[0], s) == s[0] + dt * s[2];
    assert r[1] == Dot6(f[1], s) == s[1] + dt * s[3];
  }

  /** `get_position` as written: the heading is read with sine from slot 5
      and cosine from slot 4, the reverse of the measurement layout. */
  function GetPositionAsWritten(e: PositionExtrapolator): (p: Position2D)
    requires e.Valid()
    ensures ToArrayWithVelocity(p) == [e.x[0], e.x[1], e.x[2], e.x[3], e.x[5], e.x[4]]
  {
    Position2D(e.x[0], e.x[1], e.x[5], e.x[4], e.x[2], e.x[3])
  }

  /** A state equal to a measurement reads back with sine and cosine swapped,
      so the pose survives exactly when its sine equals its cosine. */
  lemma GetPositionAsWrittenSwaps(e: PositionExtrapolator, s: Sensor)
    requires e.Valid()
    ensures GetPositionAsWritten(e.(x := GetState(s))) == s.position.(sin := s.position.cos, cos := s.position.sin)
    ensures GetPositionAsWritten(e.(x := GetState(s))) == s.position <==> s.position.sin == s.position.cos
  {
  }

  /** The concrete case: a sensor facing along +y, `(0, 0, sin 1, cos 0)`,
      is read back as facing along +x, `(0, 0, sin 0, cos 1)`. */
  lemma GetPositionAsWrittenCounterexample(e: PositionExtrapolator)
    requires e.Valid()
    ensures var s := NewSensor(Pose(0.0, 0.0, 1.0, 0.0), AprilTag, []);
      && GetPositionAsWritten(e.(x := GetState(s))) == Pose(0.0, 0.0, 0.0, 1.0)
      && GetPositionAsWritten(e.(x := GetState(s))) != s.position
  {
    GetPositionAsWrittenSwaps(e, NewSensor(Pose(0.0, 0.0, 1.0, 0.0), AprilTag, []));
  }

  /** `get_position` read in the measurement layout `[x, y, vx, vy, sin, cos]`. */
  function GetPosition(e: PositionExtrapolator): (p: Position2D)
    requires e.Valid()
    ensures ToArrayWithVelocity(p) == e.x
  {
    ArrayWithVelocityRoundTrip(Pose(0.0, 0.0, 0.0, 0.0), e.x);
    FromArrayWithVelocity(e.x)
  }

  /** Reading the pose back from a state equal to a measurement gives the
      measured pose, velocities included. */
  lemma GetPositionOfMeasurement(e: PositionExtrapolator, s: Sensor)
    requires e.Valid()
    ensures GetPosition(e.(x := GetState(s))) == s.position
  {
  }

  /** A fresh extrapolator reports the centre of the map, at rest, with the
      heading `(sin 1, cos 0)`; the as-written reading reports `(sin 0, cos 1)`. */
  lemma InitialPosition(mapSizePixels: int, mapSizeMeters: real, initialDt: real)
    ensures var e := NewPositionExtrapolator(mapSizePixels, mapSizeMeters, initialDt);
      && GetPosition(e) == Pose(mapSizeMeters / 2.0, mapSizeMeters / 2.0, 1.0, 0.0)
      && GetPositionAsWritten(e) == Pose(mapSizeMeters / 2.0, mapSizeMeters / 2.0, 0.0, 1.0)
  {
  }
}
