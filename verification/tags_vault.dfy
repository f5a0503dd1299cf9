/** The landmark store of camera/april_tags_vault.py: every sighting of a tag
    is appended to that tag's list; once the running count of sightings
    reaches `optimize_every_n_tags`, every list is pruned by `optimize_array`
    after each further sighting (the count is never reset); a tag's estimate
    is the robust average of its list.  Also the conversion of a detector
    result into a planar pose. */
module TagsVault {
  import opened Wrappers
  import opened Position
  import opened PoseMath
  import opened RobustAverage

  /** `AprilTagsVault`. */
  datatype Vault = Vault(
    tags: map<int, seq<Position2D>>,
    optimizeEveryN: int,
    totalTags: int,
    weightThreshold: real,
    similarityThreshold: real)

  const DefaultOptimizeEveryN: int := 10
  const DefaultWeightThreshold: real := 0.01
  const DefaultSimilarityThreshold: real := 0.1

  /** `AprilTagsVault(optimize_every_n_tags, weight_threshold, similarity_threshold)`:
      no tags, nothing counted yet. */
  function NewVault(optimizeEveryN: int, weightThreshold: real, similarityThreshold: real): (v: Vault)
    ensures v.tags == map[] && v.totalTags == 0
    ensures v.optimizeEveryN == optimizeEveryN
    ensures v.weightThreshold == weightThreshold && v.similarityThreshold == similarityThreshold
  {
    Vault(map[], optimizeEveryN, 0, weightThreshold, similarityThreshold)
  }

  /** The vault built with the default arguments. */
  function DefaultVault(): (v: Vault)
    ensures v.tags == map[] && v.totalTags == 0
    ensures v.optimizeEveryN == 10 && v.weightThreshold == 0.01 && v.similarityThreshold == 0.1
  {
    NewVault(DefaultOptimizeEveryN, DefaultWeightThreshold, DefaultSimilarityThreshold)
  }

  /** Pruning every list of the vault returns (see `LoopEnds`). */
  predicate PruningEnds(v: Vault, exp: real -> real) {
    forall id | id in v.tags :: LoopEnds(v.tags[id], v.weightThreshold, v.similarityThreshold, exp)
  }

  /** `optimize_tags`: every list replaced by its pruned version; the ids and
      everything else stay. */
  function OptimizeTags(v: Vault, exp: real -> real): (r: Vault)
    requires PruningEnds(v, exp)
    ensures r.tags.Keys == v.tags.Keys
    ensures forall id | id in v.tags ::
      r.tags[id] == OptimizeArray(v.tags[id], v.weightThreshold, v.similarityThreshold, exp)
    ensures forall id | id in v.tags :: |r.tags[id]| <= |v.tags[id]|
    ensures forall id | id in v.tags && |v.tags[id]| < 2 :: r.tags[id] == v.tags[id]
    ensures r.(tags := v.tags) == v
  {
    var t := map id | id in v.tags :: OptimizeArray(v.tags[id], v.weightThreshold, v.similarityThreshold, exp);
    v.(tags := t)
  }

  /** The sighting appended to its tag's list (a new list for a new id) and
      counted; nothing pruned yet. */
  function Appended(v: Vault, tag: Position2D, id: int): Vault {
    var list := if id in v.tags then v.tags[id] else [];
    v.(tags := v.tags[id := list + [tag]], totalTags := v.totalTags + 1)
  }

  /** `add_tag_on_field`. Below the trigger the thresholds are never read;
      at or above it every appended list is pruned, which must return. */
  function AddTagOnField(v: Vault, tag: Position2D, id: int, exp: real -> real): (r: Vault)
    requires v.totalTags + 1 < v.optimizeEveryN || PruningEnds(Appended(v, tag, id), exp)
    ensures r.tags.Keys == v.tags.Keys + {id}
    ensures r.totalTags == v.totalTags + 1
    ensures r.optimizeEveryN == v.optimizeEveryN
    ensures r.weightThreshold == v.weightThreshold && r.similarityThreshold == v.similarityThreshold
    ensures v.totalTags + 1 < v.optimizeEveryN ==>
      && r.tags[id] == (if id in v.tags then v.tags[id] else []) + [tag]
      && forall other | other in v.tags && other != id :: r.tags[other] == v.tags[other]
    ensures v.totalTags + 1 >= v.optimizeEveryN ==>
      forall other | other in r.tags ::
        r.tags[other] == OptimizeArray(Appended(v, tag, id).tags[other], v.weightThreshold, v.similarityThreshold, exp)
  {
    var a := Appended(v, tag, id);
    if a.totalTags >= v.optimizeEveryN then OptimizeTags(a, exp) else a
  }

  /** The count is never reset: once a sighting has triggered pruning, every
      later sighting does too. */
  lemma OptimizationStaysOn(v: Vault, tag: Position2D, id: int, exp: real -> real)
    requires PruningEnds(Appended(v, tag, id), exp)
    requires v.totalTags >= v.optimizeEveryN
    ensures var r := AddTagOnField(v, tag, id, exp);
      && r.totalTags >= r.optimizeEveryN
      && r == OptimizeTags(Appended(v, tag, id), exp)
  {
  }

  /** Before the threshold is reached, the vault only records: a tag's list is
      exactly its sightings in order. */
  lemma AddBeforeThreshold(v: Vault, tag: Position2D, id: int, exp: real -> real)
    requires v.totalTags + 1 < v.optimizeEveryN
    ensures AddTagOnField(v, tag, id, exp) == Appended(v, tag, id)
  {
  }

  /** One sighting: a tag id and its pose. */
  datatype Sighting = Sighting(tag: Position2D, id: int)

  /** Sightings added in order. */
  function AddAll(v: Vault, s: seq<Sighting>, exp: real -> real): (r: Vault)
    requires v.similarityThreshold >= 0.0
    ensures r.similarityThreshold == v.similarityThreshold
    decreases |s|
  {
    if |s| == 0 then v
    else AddAll(AddTagOnField(v, s[0].tag, s[0].id, exp), s[1..], exp)
  }

  /** After any run of sightings, the count has gone up by their number and
      the ids known are the earlier ones plus every id sighted. */
  lemma {:induction false} AddAllCounts(v: Vault, s: seq<Sighting>, exp: real -> real)
    requires v.similarityThreshold >= 0.0
    ensures AddAll(v, s, exp).totalTags == v.totalTags + |s|
    ensures AddAll(v, s, exp).tags.Keys == v.tags.Keys + set k | 0 <= k < |s| :: s[k].id
    decreases |s|
  {
    if |s| > 0 {
      var v1 := AddTagOnField(v, s[0].tag, s[0].id, exp);
      AddAllCounts(v1, s[1..], exp);
      var rest := set k | 0 <= k < |s| - 1 :: s[1..][k].id;
      var all := set k | 0 <= k < |s| :: s[k].id;
      assert all == {s[0].id} + rest by {
        forall x | x in all
          ensures x in {s[0].id} + rest
        {
          var k :| 0 <= k < |s| && s[k].id == x;
          if k > 0 {
            assert s[1..][k - 1].id == x;
          }
        }
      }
    }
  }

  /** `get_estimated_tag_position`: `None` for an unknown id, the robust
      average of the tag's sightings otherwise. For a list pruned to nothing,
      the row-wise distance norm of the average raises. */
  function GetEstimatedTagPosition(v: Vault, id: int, exp: real -> real): (r: Result<Option<Position2D>>)
    requires ExpLike(exp)
    ensures r == Ok(None) <==> id !in v.tags
    ensures r.Err? <==> id in v.tags && |v.tags[id]| == 0
    ensures r.Err? ==> r.error == ValueError
    ensures r.Ok? && r.value.Some? ==> id in v.tags && |v.tags[id]| > 0 && r.value.value == FancyAverageSlow(v.tags[id], exp)
  {
    if id !in v.tags then Ok(None)
    else if |v.tags[id]| == 0 then Err(ValueError)
    else Ok(Some(FancyAverageSlow(v.tags[id], exp)))
  }

  /** A tag seen once, before any pruning, is estimated at exactly that
      sighting. */
  lemma FirstSightingEstimate(v: Vault, tag: Position2D, id: int, exp: real -> real)
    requires ExpLike(exp)
    requires id !in v.tags && v.totalTags + 1 < v.optimizeEveryN
    ensures GetEstimatedTagPosition(AddTagOnField(v, tag, id, exp), id, exp) == Ok(Some(tag))
  {
    var r := AddTagOnField(v, tag, id, exp);
    FancyAverageOfIdentical(r.tags[id], tag, exp);
  }

  /** No tag's list is empty. */
  predicate NoEmptyList(v: Vault) {
    forall id | id in v.tags :: |v.tags[id]| > 0
  }

  /** `get_all_estimated_tags`: an estimate for every known id; it raises as
      soon as one list is empty. */
  function GetAllEstimatedTags(v: Vault, exp: real -> real): (r: Result<map<int, Position2D>>)
    requires ExpLike(exp)
    ensures r.Ok? <==> NoEmptyList(v)
    ensures r.Err? ==> r.error == ValueError
    ensures r.Ok? ==> r.value.Keys == v.tags.Keys
    ensures r.Ok? ==> forall id | id in v.tags :: GetEstimatedTagPosition(v, id, exp) == Ok(Some(r.value[id]))
  {
    if !NoEmptyList(v) then Err(ValueError)
    else Ok(map id | id in v.tags :: GetEstimatedTagPosition(v, id, exp).value.value)
  }

  /** What the detector reports for one tag: the translation `pose_t` and
      rotation `pose_R` of the tag in the camera frame, either possibly absent. */
  datatype Detection = Detection(tagId: int, poseT: Option<Vec3>, poseR: Option<Mat3>)

  /** `from_tags_detection_to_pos2d`: the camera's depth axis becomes x and
      its horizontal axis y; the heading is read from the rotation's last row.
      Either part missing fails the function's assertion. */
  function FromTagsDetectionToPos2d(d: Detection): (r: Result<Position2D>)
    ensures r.Ok? <==> d.poseT.Some? && d.poseR.Some?
    ensures r.Err? ==> r.error == AssertionError
    ensures r.Ok? ==>
      && r.value.x == d.poseT.value.v2 && r.value.y == d.poseT.value.v0
      && r.value.sin == d.poseR.value.m20 && r.value.cos == -d.poseR.value.m22
      && r.value.vx == 0.0 && r.value.vy == 0.0
  {
    if d.poseT.None? || d.poseR.None? then Err(AssertionError)
    else
      var t, rot := d.poseT.value, d.poseR.value;
      Ok(Pose(t.v2, t.v0, rot.Get(2, 0), -rot.Get(2, 2)))
  }

  /** For a rotation whose last row is a unit vector in the camera's x-z
      plane (a tag turned about the camera's vertical axis), the heading read
      out lies on the unit circle. */
  lemma DetectionHeadingUnit(d: Detection)
    requires d.poseT.Some? && d.poseR.Some?
    requires d.poseR.value.m21 == 0.0
    requires d.poseR.value.m20 * d.poseR.value.m20 + d.poseR.value.m21 * d.poseR.value.m21
      + d.poseR.value.m22 * d.poseR.value.m22 == 1.0
    ensures FromTagsDetectionToPos2d(d).Ok? && UnitHeading(FromTagsDetectionToPos2d(d).value)
  {
  }
}
