/** Pose composition and pixel scaling (util/math.py). */
module PoseMath {
  import opened Position

  /** The second copy of `get_transformation_matrix_2d`, written out row by row. */
  function MathTransformationMatrix2D(p: Position2D): (t: Mat3)
    ensures t == Transform(p)
  {
    FromEntries((i: nat, j: nat) =>
      if i == 0 then (if j == 0 then p.cos else if j == 1 then -p.sin else p.x)
      else if i == 1 then (if j == 0 then p.sin else if j == 1 then p.cos else p.y)
      else (if j == 2 then 1.0 else 0.0))
  }

  /** `to_tag_global_position`: the tag pose seen from the camera, carried into
      the global frame by the camera's global pose (`T_camera_global @ T_tag_camera`).
      The camera's local pose is accepted and ignored. */
  function ToTagGlobalPosition(tag: Position2D, cameraLocal: Position2D, cameraGlobal: Position2D): (r: Position2D)
    ensures r.x == cameraGlobal.cos * tag.x - cameraGlobal.sin * tag.y + cameraGlobal.x
    ensures r.y == cameraGlobal.sin * tag.x + cameraGlobal.cos * tag.y + cameraGlobal.y
    ensures r.sin == cameraGlobal.sin * tag.cos + cameraGlobal.cos * tag.sin
    ensures r.cos == cameraGlobal.cos * tag.cos - cameraGlobal.sin * tag.sin
    ensures r.vx == 0.0 && r.vy == 0.0
  {
    FromTransform(Mul(Transform(cameraGlobal), Transform(tag)))
  }

  /** The result does not depend on the camera's local pose. */
  lemma CameraLocalIgnored(tag: Position2D, local1: Position2D, local2: Position2D, global: Position2D)
    ensures ToTagGlobalPosition(tag, local1, global) == ToTagGlobalPosition(tag, local2, global)
  {
  }

  /** Composing with the origin pose `(0, 0, sin 0, cos 1)` keeps the tag's
      position and heading. */
  lemma ToTagGlobalPositionIdentity(tag: Position2D, local: Position2D)
    ensures ToTagGlobalPosition(tag, local, Pose(0.0, 0.0, 0.0, 1.0)) == Pose(tag.x, tag.y, tag.sin, tag.cos)
  {
  }

  /** The heading pair lies on the unit circle. */
  predicate UnitHeading(p: Position2D) {
    p.sin * p.sin + p.cos * p.cos == 1.0
  }

  /** Composition preserves a unit heading: the product of two rotations is a rotation. */
  lemma ToTagGlobalPositionUnit(tag: Position2D, local: Position2D, global: Position2D)
    requires UnitHeading(tag) && UnitHeading(global)
    ensures UnitHeading(ToTagGlobalPosition(tag, local, global))
  {
    var sg, cg, st, ct := global.sin, global.cos, tag.sin, tag.cos;
    var r := ToTagGlobalPosition(tag, local, global);
    calc {
      r.sin * r.sin + r.cos * r.cos;
      (sg * ct + cg * st) * (sg * ct + cg * st) + (cg * ct - sg * st) * (cg * ct - sg * st);
      (sg * sg + cg * cg) * (st * st + ct * ct);
      1.0;
    }
  }

  /** Nothing is lost in reading the product back: the product of two pose
      transforms has the pose-transform shape, so the composed pose's transform
      is the product itself. */
  lemma ToTagGlobalPositionIsProduct(tag: Position2D, local: Position2D, global: Position2D)
    ensures Transform(ToTagGlobalPosition(tag, local, global)) == Mul(Transform(global), Transform(tag))
  {
  }

  /** `get_position_pixels`: scales x and y by `map_size_pixels / map_size_meters`,
      keeps the heading and drops the velocity. The map size in meters must be
      non-zero. */
  function GetPositionPixels(p: Position2D, mapSizeMeters: real, mapSizePixels: int): (r: Position2D)
    requires mapSizeMeters != 0.0
    ensures r.x * mapSizeMeters == p.x * mapSizePixels as real
    ensures r.y * mapSizeMeters == p.y * mapSizePixels as real
    ensures r.sin == p.sin && r.cos == p.cos
    ensures r.vx == 0.0 && r.vy == 0.0
  {
    Pose(p.x * mapSizePixels as real / mapSizeMeters, p.y * mapSizePixels as real / mapSizeMeters, p.sin, p.cos)
  }
}
