/** Planar poses and their homogeneous transforms (util/position.py).

    A pose carries its heading as a sine/cosine pair.  The 3x3 transform of a
    pose is computed from the pose's own fields, so the model derives it with
    `Transform` instead of storing it next to the fields. */
module Position {

  /** `Position2D`: the constructor argument order of the source, velocities default to 0. */
  datatype Position2D = Position2D(x: real, y: real, sin: real, cos: real, vx: real, vy: real)

  /** The constructor call `Position2D(x, y, sin, cos)` with the default velocities. */
  function Pose(x: real, y: real, sin: real, cos: real): (p: Position2D)
    ensures p.vx == 0.0 && p.vy == 0.0
    ensures p.x == x && p.y == y && p.sin == sin && p.cos == cos
  {
    Position2D(x, y, sin, cos, 0.0, 0.0)
  }

  /** A 3x3 real matrix, entry `mij` in row i and column j. */
  datatype Mat3 = Mat3(
    m00: real, m01: real, m02: real,
    m10: real, m11: real, m12: real,
    m20: real, m21: real, m22: real)
  {
    /** NumPy's `T[i, j]`. */
    function Get(i: nat, j: nat): real
      requires i < 3 && j < 3
    {
      if i == 0 then (if j == 0 then m00 else if j == 1 then m01 else m02)
      else if i == 1 then (if j == 0 then m10 else if j == 1 then m11 else m12)
      else (if j == 0 then m20 else if j == 1 then m21 else m22)
    }
  }

  /** A column vector of three reals. */
  datatype Vec3 = Vec3(v0: real, v1: real, v2: real)

  /** Builds a matrix entry by entry, the way `np.array([[..],[..],[..]])` does. */
  function FromEntries(e: (nat, nat) -> real): (m: Mat3)
    ensures forall i: nat, j: nat | i < 3 && j < 3 :: m.Get(i, j) == e(i, j)
  {
    Mat3(e(0, 0), e(0, 1), e(0, 2), e(1, 0), e(1, 1), e(1, 2), e(2, 0), e(2, 1), e(2, 2))
  }

  /** Matrix product `a @ b`: entry (i, j) is row i of `a` times column j of `b`. */
  function Mul(a: Mat3, b: Mat3): (m: Mat3)
    ensures forall i: nat, j: nat | i < 3 && j < 3 ::
      m.Get(i, j) == a.Get(i, 0) * b.Get(0, j) + a.Get(i, 1) * b.Get(1, j) + a.Get(i, 2) * b.Get(2, j)
  {
    FromEntries((i: nat, j: nat) =>
      if i < 3 && j < 3
      then a.Get(i, 0) * b.Get(0, j) + a.Get(i, 1) * b.Get(1, j) + a.Get(i, 2) * b.Get(2, j)
      else 0.0)
  }

  const Identity3: Mat3 := Mat3(1.0, 0.0, 0.0, 0.0, 1.0, 0.0, 0.0, 0.0, 1.0)

  /** True of the matrices that are the transform of some pose:
      `[[c, -s, x], [s, c, y], [0, 0, 1]]`. */
  predicate IsPoseTransform(t: Mat3) {
    t.m00 == t.m11 && t.m01 == -t.m10 && t.m20 == 0.0 && t.m21 == 0.0 && t.m22 == 1.0
  }

  /** `get_transformation_matrix_2d`: the homogeneous transform of a pose. */
  function Transform(p: Position2D): (t: Mat3)
    ensures IsPoseTransform(t)
    ensures t.Get(0, 2) == p.x && t.Get(1, 2) == p.y
    ensures t.Get(1, 0) == p.sin && t.Get(1, 1) == p.cos
    ensures t.Get(0, 0) == p.cos && t.Get(0, 1) == -p.sin
  {
    Mat3(p.cos, -p.sin, p.x,
         p.sin, p.cos, p.y,
         0.0, 0.0, 1.0)
  }

  /** `Position2D.from_2d_transformation_matrix`: reads a pose out of any 3x3
      matrix; the velocities take their default 0. */
  function FromTransform(t: Mat3): (p: Position2D)
    ensures p.x == t.Get(0, 2) && p.y == t.Get(1, 2)
    ensures p.sin == t.Get(1, 0) && p.cos == t.Get(1, 1)
    ensures p.vx == 0.0 && p.vy == 0.0
  {
    Pose(t.Get(0, 2), t.Get(1, 2), t.Get(1, 0), t.Get(1, 1))
  }

  /** Reading a pose back from its transform keeps position and heading and
      resets the velocities. */
  lemma TransformRoundTrip(p: Position2D)
    ensures FromTransform(Transform(p)) == Pose(p.x, p.y, p.sin, p.cos)
    ensures p.vx == 0.0 && p.vy == 0.0 ==> FromTransform(Transform(p)) == p
  {
  }

  /** Conversely, a matrix of the pose-transform shape is the transform of the
      pose read out of it. */
  lemma FromTransformRoundTrip(t: Mat3)
    requires IsPoseTransform(t)
    ensures Transform(FromTransform(t)) == t
  {
  }

  /** `to_array`: `[x, y, sin, cos]`. */
  function ToArray(p: Position2D): (a: seq<real>)
    ensures |a| == 4
    ensures a[0] == p.x && a[1] == p.y && a[2] == p.sin && a[3] == p.cos
  {
    [p.x, p.y, p.sin, p.cos]
  }

  /** `to_array_with_velocity`: `[x, y, vx, vy, sin, cos]`. */
  function ToArrayWithVelocity(p: Position2D): (a: seq<real>)
    ensures |a| == 6
    ensures a[0] == p.x && a[1] == p.y && a[2] == p.vx && a[3] == p.vy
    ensures a[4] == p.sin && a[5] == p.cos
  {
    [p.x, p.y, p.vx, p.vy, p.sin, p.cos]
  }

  /** Reads `[x, y, vx, vy, sin, cos]` back into a pose, as the averaging code
      unpacks `x, y, vx, vy, sin, cos = weighted_avg`. */
  function FromArrayWithVelocity(a: seq<real>): (p: Position2D)
    requires |a| == 6
  {
    Position2D(a[0], a[1], a[4], a[5], a[2], a[3])
  }

  /** The six-vector layout and its unpacking are inverse to each other. */
  lemma ArrayWithVelocityRoundTrip(p: Position2D, a: seq<real>)
    requires |a| == 6
    ensures FromArrayWithVelocity(ToArrayWithVelocity(p)) == p
    ensures ToArrayWithVelocity(FromArrayWithVelocity(a)) == a
  {
  }

  /** A 4x4 matrix as a sequence of rows. */
  predicate IsMat4(m: seq<seq<real>>) {
    |m| == 4 && forall i | 0 <= i < 4 :: |m[i]| == 4
  }

  const Identity4: seq<seq<real>> :=
    [[1.0, 0.0, 0.0, 0.0], [0.0, 1.0, 0.0, 0.0], [0.0, 0.0, 1.0, 0.0], [0.0, 0.0, 0.0, 1.0]]

  /** `create_transformation_matrix_3d`: start from `np.eye(4)`, overwrite the
      top-left 3x3 block with the rotation and rows 0-2 of column 3 with the
      translation. */
  function CreateTransformationMatrix3D(rotation: Mat3, translation: Vec3): (m: seq<seq<real>>)
    ensures IsMat4(m)
    ensures forall i, j | 0 <= i < 3 && 0 <= j < 3 :: m[i][j] == rotation.Get(i, j)
    ensures m[0][3] == translation.v0 && m[1][3] == translation.v1 && m[2][3] == translation.v2
    ensures m[3] == [0.0, 0.0, 0.0, 1.0]
  {
    var t := [translation.v0, translation.v1, translation.v2];
    seq(4, i requires 0 <= i < 4 =>
      if i < 3 then [rotation.Get(i, 0), rotation.Get(i, 1), rotation.Get(i, 2), t[i]]
      else Identity4[3])
  }

  /** With no rotation and no translation the matrix is `np.eye(4)` unchanged. */
  lemma CreateTransformationMatrix3DIdentity(rotation: Mat3, translation: Vec3)
    requires rotation == Identity3 && translation == Vec3(0.0, 0.0, 0.0)
    ensures CreateTransformationMatrix3D(rotation, translation) == Identity4
  {
  }
}
