/** The landmark export record (serialize/serializable_tag_position.py):
    each tag's 3x3 transform flattened row-major to nine numbers, and the centre
    pose as `[x, y, sin, cos]`. Reading and writing JSON is not modelled; the
    record below is what the JSON holds. */
module TagSerialization {
  import opened Wrappers
  import opened Position

  /** `SerializableTagPositions`. */
  datatype SerializableTagPositions = SerializableTagPositions(
    tagPositions: map<int, seq<real>>,
    centerPosition: seq<real>)

  /** `from_np_transformation_matrix_to_list`: row-major flatten. */
  function Flatten(t: Mat3): (r: seq<real>)
    ensures |r| == 9
    ensures forall i: nat, j: nat | i < 3 && j < 3 :: r[3 * i + j] == t.Get(i, j)
  {
    [t.m00, t.m01, t.m02, t.m10, t.m11, t.m12, t.m20, t.m21, t.m22]
  }

  /** `from_list_to_np_transformation_matrix`: `reshape(3, 3)`, which raises
      `ValueError` unless there are exactly nine numbers. */
  function Reshape(s: seq<real>): (r: Result<Mat3>)
    ensures r.Ok? <==> |s| == 9
    ensures r.Err? ==> r.error == ValueError
    ensures r.Ok? ==> forall i: nat, j: nat | i < 3 && j < 3 :: r.value.Get(i, j) == s[3 * i + j]
  {
    if |s| != 9 then Err(ValueError)
    else Ok(Mat3(s[0], s[1], s[2], s[3], s[4], s[5], s[6], s[7], s[8]))
  }

  /** Reshape undoes flatten. */
  lemma ReshapeFlatten(t: Mat3)
    ensures Reshape(Flatten(t)) == Ok(t)
  {
  }

  /** Flatten undoes a successful reshape. */
  lemma FlattenReshape(s: seq<real>)
    requires |s| == 9
    ensures Reshape(s).Ok? && Flatten(Reshape(s).value) == s
  {
  }

  /** `SerializableTagPositions.from_tag_positions`: every tag keeps its id and
      is stored as its flattened transform; the centre as `[x, y, sin, cos]`. */
  function FromTagPositions(tags: map<int, Position2D>, center: Position2D): (r: SerializableTagPositions)
    ensures r.tagPositions.Keys == tags.Keys
    ensures forall id | id in tags :: Reshape(r.tagPositions[id]) == Ok(Transform(tags[id]))
    ensures r.centerPosition == ToArray(center)
  {
    SerializableTagPositions(
      map id | id in tags :: Flatten(Transform(tags[id])),
      [center.x, center.y, center.sin, center.cos])
  }

  /** The decoding half of `SerializableTagPositions.from_json`, after the JSON
      has been parsed: the centre is built from the first four numbers (an
      `IndexError` if there are fewer), then every tag list is reshaped to a
      transform (a `ValueError` if one is not nine long) and read back as a pose. */
  function FromSerialized(s: SerializableTagPositions): (r: Result<(map<int, Position2D>, Position2D)>)
    ensures r.Ok? <==> |s.centerPosition| >= 4 && forall id | id in s.tagPositions :: |s.tagPositions[id]| == 9
    ensures |s.centerPosition| < 4 ==> r == Err(IndexError)
    ensures |s.centerPosition| >= 4 && r.Err? ==> r.error == ValueError
    ensures r.Ok? ==> r.value.0.Keys == s.tagPositions.Keys
    ensures r.Ok? ==> forall id | id in s.tagPositions ::
      ToArray(r.value.0[id]) == [s.tagPositions[id][2], s.tagPositions[id][5], s.tagPositions[id][3], s.tagPositions[id][4]]
    ensures r.Ok? ==> ToArray(r.value.1) == s.centerPosition[..4]
  {
    var c := s.centerPosition;
    if |c| < 4 then Err(IndexError)
    else if exists id | id in s.tagPositions :: |s.tagPositions[id]| != 9 then Err(ValueError)
    else
      var center := Pose(c[0], c[1], c[2], c[3]);
      Ok((map id | id in s.tagPositions :: FromTransform(Reshape(s.tagPositions[id]).value), center))
  }

  /** Saving then loading keeps every id and each tag's position and heading;
      velocities come back as 0. The centre round-trips the same way. */
  lemma SerializationRoundTrip(tags: map<int, Position2D>, center: Position2D)
    ensures var r := FromSerialized(FromTagPositions(tags, center));
      && r.Ok?
      && r.value.0.Keys == tags.Keys
      && (forall id | id in tags :: r.value.0[id] == Pose(tags[id].x, tags[id].y, tags[id].sin, tags[id].cos))
      && r.value.1 == Pose(center.x, center.y, center.sin, center.cos)
  {
    var s := FromTagPositions(tags, center);
    var r := FromSerialized(s);
    forall id | id in tags
      ensures r.value.0[id] == Pose(tags[id].x, tags[id].y, tags[id].sin, tags[id].cos)
    {
      ReshapeFlatten(Transform(tags[id]));
    }
  }
}
