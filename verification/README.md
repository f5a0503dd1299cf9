# calibrator — a Dafny model of the pose and landmark core

The calibrator repository localises a robot on a field map. A camera detects
AprilTags and converts each detection into a planar pose. A landmark vault
collects every sighting of every tag and prunes each tag's list to a few
well-separated representatives. A tag's position is then estimated as a
robust, Gaussian-weighted average of its list. A Kalman-filter wrapper holds
the robot's six-dimensional state. Two scripts export the tag map to 3D and
annotate obstacle cells on a map image.

This project models that core in Dafny 4.11, over exact `real` arithmetic:

| module | file | source |
|---|---|---|
| `Wrappers` | wrappers.dfy | `Option` for `X \| None`, and `Result` for a call that returns a value or raises |
| `Position` | position.dfy | `src/util/position.py`: `Position2D`, the 2D transform, the array layouts, the 4x4 assembly |
| `PoseMath` | pose_math.dfy | `src/util/math.py`: pose composition and pixel scaling |
| `TagSerialization` | tag_serialization.dfy | `src/serialize/serializable_tag_position.py`: flatten/reshape and the save/load record |
| `Statistics` | statistics.dfy | the NumPy reductions the averaging needs: `np.median` (by sorting), `np.sum`, normalisation, weighted sum |
| `RobustAverage` | robust_average.dfy | `fancy_average_slow` and `optimize_array` from `src/position/position_extrapolator.py` |
| `Extrapolator` | extrapolator.dfy | the Kalman shell of `src/position/position_extrapolator.py`: `Sensor`, `F`, `update_time_step`, `get_position` |
| `TagsVault` | tags_vault.dfy | `src/camera/april_tags_vault.py` |
| `Export3D` | export3d.dfy | `sin_cos_to_direction_vector` and the per-tag loop of `src/to_pos_extrapolator_pos.py` |
| `MapAnnotator` | map_annotator.dfy | the click state machine and saved record of `src/annotate_map_obstacles.py` |

Modelling choices:

- **Functions passed as parameters.** `np.exp` and `np.sqrt` have no counterpart on `real`, so they are parameters.
  - `exp: real -> real` comes with `ExpLike(exp)`: every value is positive and `exp(0) = 1`.
  - `sqrt: real -> real` comes with `IsSqrt(sqrt)`: on non-negative inputs it returns the non-negative square root.
- **Squared distances.** `np.linalg.norm(d) > t` is compared as `|d|² > t²`. This is exact for `t >= 0`.
  - `optimize_array` returns a list of fewer than two poses before it reads a threshold. Its loop runs only over indices whose weight passes `weight_threshold`.
  - Once the loop runs, a negative `similarity_threshold` keeps the picked index among the candidates, since its own distance 0 exceeds the threshold. The loop then never ends.
  - So `optimize_array` returns exactly when the list is shorter than two, the similarity threshold is non-negative, or no weight passes. `RobustAverage.LoopEnds` states this, and it is the precondition of `RobustAverage.OptimizeArray` and of the vault operations that prune.
  - The Gaussian weight is `exp(-|d|²/2)`.
- **Exceptions become `Err` values.** Each one carries the exception the source raises:
  - `ValueError` for a reshape of the wrong size, for averaging an empty tag list, or for a grid size of 0 in the annotator;
  - `IndexError` for a short centre list;
  - `AssertionError` for a detection without a pose;
  - `LinAlgError` for inverting a singular transform;
  - `ZeroDivisionError` for a square size of 0 in the annotator, and in `on_click` for a grid size of 0. An annotator that was constructed never has grid size 0, so this second case is unreachable from one.
- **The vault.**
  - The sighting counter is never reset. Once the threshold is reached, every later sighting prunes all lists (`TagsVault.OptimizationStaysOn`).
  - A tag whose list was pruned to nothing stays in the vault, and querying it raises (`Err(ValueError)`). The raise is not from `np.median` on the empty array, which returns nan with a warning. It is from the row-wise `np.linalg.norm(..., axis=1)` at src/position/position_extrapolator.py:62, which raises `AxisError`, a `ValueError`, on the resulting 1-D array.
- **No clock.** The time step `dt` is an argument, as it is in the source.

## Model

| member | source | states |
|---|---|---|
| `Position.Pose` | src/util/position.py:6-14 | the constructor keeps x, y, sin, cos and defaults both velocities to 0 |
| `Position.Transform` | src/util/position.py:63-70 | the transform is `[[cos, -sin, x], [sin, cos, y], [0, 0, 1]]` read entry by entry from the pose's own fields, and has the pose-transform shape |
| `Position.FromTransform` | src/util/position.py:25-31 | from any 3x3 matrix `T`: `x = T[0, 2]`, `y = T[1, 2]`, `sin = T[1, 0]`, `cos = T[1, 1]`, velocities 0 |
| `Position.TransformRoundTrip` | src/util/position.py:25-31 | reading back a pose's transform returns its x, y, sin, cos with velocities 0, and returns the pose itself when it was at rest |
| `Position.FromTransformRoundTrip` | src/util/position.py:63-70 | every matrix of the pose-transform shape is the transform of the pose read out of it |
| `Position.ToArray` | src/util/position.py:18-19 | the fixed layout `[x, y, sin, cos]` |
| `Position.ToArrayWithVelocity` | src/util/position.py:21-22 | the fixed layout `[x, y, vx, vy, sin, cos]` |
| `Position.ArrayWithVelocityRoundTrip` | src/position/position_extrapolator.py:69-71 | unpacking `x, y, vx, vy, sin, cos` inverts the six-vector layout, in both directions |
| `Position.CreateTransformationMatrix3D` | src/util/position.py:92-99 | a 4x4 matrix with the rotation in the top-left 3x3, the translation in rows 0-2 of column 3 and bottom row `[0, 0, 0, 1]` |
| `Position.CreateTransformationMatrix3DIdentity` | src/util/position.py:92-99 | the identity rotation with zero translation leaves `np.eye(4)` unchanged |
| `PoseMath.MathTransformationMatrix2D` | src/util/math.py:5-10 | the second copy of the 2D transform builds exactly the same matrix as the first |
| `PoseMath.ToTagGlobalPosition` | src/util/math.py:15-20 | the composed pose is `x = cg·xt − sg·yt + xg`, `y = sg·xt + cg·yt + yg`, `sin = sg·ct + cg·st`, `cos = cg·ct − sg·st`, with velocities 0 |
| `PoseMath.CameraLocalIgnored` | src/util/math.py:15-20 | the result does not depend on the camera's local pose |
| `PoseMath.ToTagGlobalPositionIdentity` | src/util/math.py:15-20 | composing with the origin pose `(0, 0, sin 0, cos 1)` returns the tag's x, y, sin, cos |
| `PoseMath.ToTagGlobalPositionUnit` | src/util/math.py:15-20 | if both headings lie on the unit circle, so does the composed heading |
| `PoseMath.ToTagGlobalPositionIsProduct` | src/util/math.py:15-20 | reading the product back loses nothing: the composed pose's transform is `T_global @ T_tag` |
| `PoseMath.GetPositionPixels` | src/util/math.py:22-28 | x and y are scaled by pixels/meters (`r.x · meters = x · pixels`), the heading is kept, velocities are 0; meters must be non-zero |
| `TagSerialization.Flatten` | src/serialize/serializable_tag_position.py:51-54 | nine numbers, entry (i, j) at position `3i + j` (row-major) |
| `TagSerialization.Reshape` | src/serialize/serializable_tag_position.py:57-60 | succeeds exactly on nine numbers, placing number `3i + j` at (i, j), and raises `ValueError` otherwise |
| `TagSerialization.ReshapeFlatten` | src/serialize/serializable_tag_position.py:51-60 | reshape inverts flatten |
| `TagSerialization.FlattenReshape` | src/serialize/serializable_tag_position.py:51-60 | flatten inverts a successful reshape |
| `TagSerialization.FromTagPositions` | src/serialize/serializable_tag_position.py:12-29 | exactly the input ids, each stored as a list that reshapes to its tag's transform; the centre stored as `[x, y, sin, cos]` |
| `TagSerialization.FromSerialized` | src/serialize/serializable_tag_position.py:36-48 | succeeds iff the centre has at least four numbers and every tag has nine; `IndexError` for a short centre, otherwise `ValueError` for a tag list of the wrong length; the same ids; each tag's `[x, y, sin, cos]` read from list positions 2, 5, 3, 4; the centre from the first four numbers |
| `TagSerialization.SerializationRoundTrip` | src/serialize/serializable_tag_position.py:12-48 | saving then loading returns the same ids and, per tag and for the centre, the same x, y, sin, cos with velocities 0 |
| `Statistics.Insert` | src/position/position_extrapolator.py:61 | inserting into a sorted list gives a sorted list with the element added (as a multiset) |
| `Statistics.Sort` | src/position/position_extrapolator.py:61 | the sorted permutation of a column, the first step of `np.median` |
| `Statistics.SortElementBounds` | src/position/position_extrapolator.py:61 | every sorted element is an input element, so it keeps the input's bounds |
| `Statistics.Median` | src/position/position_extrapolator.py:61 | `np.median` lies between the two middle values of the sorted column; it is the middle value for an odd count and the mean of the two middle values for an even count |
| `Statistics.MedianBounds` | src/position/position_extrapolator.py:61 | the median lies within any bounds that every value respects |
| `Statistics.MedianOddIsElement` | src/position/position_extrapolator.py:61 | for an odd count the median is one of the values |
| `Statistics.MedianOfConstant` | src/position/position_extrapolator.py:61 | the median of a constant column is that constant |
| `Statistics.SumPositive` | src/position/position_extrapolator.py:65 | a non-empty sum of positive weights is positive, so the normalising division is defined |
| `Statistics.SumDivideAll` | src/position/position_extrapolator.py:65 | dividing every weight by `d` divides their sum by `d` |
| `Statistics.Normalize` | src/position/position_extrapolator.py:65 | `weights / np.sum(weights)` of positive weights is positive and sums to 1 |
| `Statistics.WeightedSumBounds` | src/position/position_extrapolator.py:67 | with non-negative weights, the weighted sum of values in `[lo, hi]` lies between `lo` and `hi` times the total weight |
| `Statistics.ConvexCombinationBounds` | src/position/position_extrapolator.py:67 | weights that are non-negative and sum to 1 give a value in `[lo, hi]` |
| `RobustAverage.SqDist` | src/position/position_extrapolator.py:62 | a squared distance is non-negative |
| `RobustAverage.SqDistSelf` | src/position/position_extrapolator.py:62 | a sample's distance to itself is 0 |
| `RobustAverage.SqDistSymmetric` | src/position/position_extrapolator.py:94-96 | the distance is symmetric |
| `RobustAverage.SampleWeights` | src/position/position_extrapolator.py:60-64 | one Gaussian weight per pose, all positive |
| `RobustAverage.AverageWeights` | src/position/position_extrapolator.py:60-65 | the normalised weights are positive and sum to 1 |
| `RobustAverage.FancyAverageSlow` | src/position/position_extrapolator.py:59-71 | every component of the robust average lies between that component of two of the input poses, so the average stays inside the range the poses span |
| `RobustAverage.FancyAverageWithinBounds` | src/position/position_extrapolator.py:59-71 | each component of the robust average lies between that component's bounds over the inputs |
| `RobustAverage.FancyAverageOfIdentical` | src/position/position_extrapolator.py:59-71 | the average of identical poses is that pose, every field in its place |
| `RobustAverage.GoodIndices` | src/position/position_extrapolator.py:84-87 | the increasing list of exactly the indices whose weight exceeds the threshold |
| `RobustAverage.ArgMax` | src/position/position_extrapolator.py:90 | `np.argmax`: a maximal element, the first one on ties |
| `RobustAverage.FartherSpec` | src/position/position_extrapolator.py:93-98 | the filter keeps exactly the remaining indices farther than the threshold from the pick, in their order |
| `RobustAverage.FartherShrinks` | src/position/position_extrapolator.py:89-98 | for a non-negative threshold the pick itself is dropped, so the loop terminates |
| `RobustAverage.Greedy` | src/position/position_extrapolator.py:89-98 | the picks are valid indices, and there is at least one exactly when some index remains |
| `RobustAverage.GreedyLength` | src/position/position_extrapolator.py:89-98 | no more picks than candidates |
| `RobustAverage.PickDominates` | src/position/position_extrapolator.py:90-98 | every index surviving a round is a candidate other than the pick, far from it, and after it in weight order |
| `RobustAverage.GreedyFromCandidates` | src/position/position_extrapolator.py:89-98 | every pick is a candidate |
| `RobustAverage.GreedyPairwise` | src/position/position_extrapolator.py:89-98 | the picks are pairwise far apart, in non-increasing weight order, ties to the lower index |
| `RobustAverage.CoveredMeans` | src/position/position_extrapolator.py:93-98 | an index is covered exactly when it was picked or lies within the threshold of a pick |
| `RobustAverage.GreedyCovers` | src/position/position_extrapolator.py:89-98 | every candidate is picked or lies within the threshold of a pick |
| `RobustAverage.OptimizeArray` | src/position/position_extrapolator.py:73-100 | defined exactly where the source returns (`LoopEnds`); never more poses than given, and every pose returned is an input pose |
| `RobustAverage.OptimizeArrayEmpty` | src/position/position_extrapolator.py:84-100 | for two or more poses, the result is empty exactly when no weight passes the weight threshold, for either sign of the similarity threshold |
| `RobustAverage.OptimizeArraySmall` | src/position/position_extrapolator.py:74-75 | fewer than two poses are returned unchanged, whatever the thresholds |
| `RobustAverage.PruneKeepsHeavy` | src/position/position_extrapolator.py:84-100 | every kept pose is the input pose at its index, and that index's weight exceeds the threshold |
| `RobustAverage.PruneSeparated` | src/position/position_extrapolator.py:89-100 | no index is kept twice; kept poses are pairwise farther apart than the threshold; they come in non-increasing weight order, ties to the lower index |
| `RobustAverage.PruneCovers` | src/position/position_extrapolator.py:89-98 | every input pose above the weight threshold is kept or lies within the threshold of a kept pose |
| `RobustAverage.PruneLength` | src/position/position_extrapolator.py:84-100 | the pruned list is no longer than the input |
| `RobustAverage.PruneEmpty` | src/position/position_extrapolator.py:84-100 | the result is empty exactly when no weight exceeds the threshold |
| `RobustAverage.PruneCollapse` | src/position/position_extrapolator.py:89-100 | when no two samples are far apart, exactly the heaviest candidate is kept |
| `RobustAverage.IdenticalWeights` | src/position/position_extrapolator.py:76-82 | identical poses all get weight `exp(0) = 1` |
| `RobustAverage.PruneOfIdentical` | src/position/position_extrapolator.py:84-100 | identical poses above the weight threshold prune to one copy |
| `RobustAverage.OptimizeArrayOfIdentical` | src/position/position_extrapolator.py:73-100 | two or more identical poses, with a threshold below 1, are reduced to one copy |
| `RobustAverage.OptimizeArrayLoop` | src/position/position_extrapolator.py:73-100 | `optimize_array` written as the source's steps (early return, weights, weight mask, the `while` loop picking the heaviest remaining index and dropping its neighbours, selection) computes the greedy functional definition `RobustAverage.OptimizeArray` |
| `RobustAverage.GoodIndicesNone` | src/position/position_extrapolator.py:84-86 | when no weight exceeds the threshold the weight mask selects no index, so the loop does not run |
| `RobustAverage.NothingPasses` | src/position/position_extrapolator.py:73-98 | for two or more poses, a call with a negative similarity threshold that returns has an empty weight mask, so its loop never runs |
| `Extrapolator.GetState` | src/position/position_extrapolator.py:20-21 | the measurement is a six-vector that unpacks to the sensor's pose |
| `Extrapolator.NewSensor` | src/position/position_extrapolator.py:13-18 | a sensor keeps its pose, type and noise, with velocities defaulting to 0 |
| `Extrapolator.GetStateIgnoresSensorVelocity` | src/position/position_extrapolator.py:13-21 | the sensor's own `vx`, `vy` never reach the measurement; the pose's velocities sit at slots 2 and 3 |
| `Extrapolator.TransitionMatrix` | src/position/position_extrapolator.py:30-37 | `F` is 6x6, with ones on the diagonal, `dt` at (0, 2) and (1, 3), and zeros elsewhere |
| `Extrapolator.NewPositionExtrapolator` | src/position/position_extrapolator.py:24-37 | the initial state is `[m/2, m/2, 0, 0, 1, 0]` and the initial `F` is the transition matrix of `initial_dt` |
| `Extrapolator.UpdateTimeStep` | src/position/position_extrapolator.py:39-41 | only `F[0, 2]` and `F[1, 3]` change, both to `dt`; every other entry and the state are unchanged |
| `Extrapolator.UpdateTimeStepFresh` | src/position/position_extrapolator.py:30-41 | after one update, a fresh filter's `F` is the transition matrix of the new step |
| `Extrapolator.UpdateTimeStepTwice` | src/position/position_extrapolator.py:39-41 | the last update wins |
| `Extrapolator.TransitionStep` | src/position/position_extrapolator.py:30-37 | `F · [x, y, vx, vy, s, c] = [x + dt·vx, y + dt·vy, vx, vy, s, c]` |
| `Extrapolator.GetPositionAsWritten` | src/position/position_extrapolator.py:49-57 | as written, the pose's six-vector is the state with slots 4 and 5 exchanged |
| `Extrapolator.GetPositionAsWrittenSwaps` | src/position/position_extrapolator.py:49-57 | a state equal to a measurement reads back with sine and cosine swapped; the pose survives iff its sine equals its cosine |
| `Extrapolator.GetPositionAsWrittenCounterexample` | src/position/position_extrapolator.py:49-57 | a sensor at `(0, 0, sin 1, cos 0)` reads back as `(0, 0, sin 0, cos 1)` |
| `Extrapolator.GetPosition` | src/position/position_extrapolator.py:49-57 | read in the measurement layout, the pose's six-vector is the state itself |
| `Extrapolator.GetPositionOfMeasurement` | src/position/position_extrapolator.py:49-57 | a state equal to a measurement reads back as the measured pose |
| `Extrapolator.InitialPosition` | src/position/position_extrapolator.py:29-57 | a fresh filter reports the map centre at rest with heading `(sin 1, cos 0)`; as written it reports `(sin 0, cos 1)` |
| `TagsVault.NewVault` | src/camera/april_tags_vault.py:11-16 | a new vault has no tags, a zero count and the given parameters |
| `TagsVault.DefaultVault` | src/camera/april_tags_vault.py:11 | the defaults are 10 sightings, weight threshold 0.01 and similarity threshold 0.1 |
| `TagsVault.OptimizeTags` | src/camera/april_tags_vault.py:34-36 | the same ids, each list replaced by `optimize_array` of itself; no list grows; lists shorter than 2 are untouched; nothing but the lists changes |
| `TagsVault.AddTagOnField` | src/camera/april_tags_vault.py:18-26 | the id becomes known and the count rises by one. Below the threshold, the sighting is appended to its id's list (a new list for a new id) and no other list changes. At or above it, every list becomes `optimize_array` of the appended lists |
| `TagsVault.OptimizationStaysOn` | src/camera/april_tags_vault.py:24-26 | the count is never reset: once it reaches the threshold, every later sighting prunes all lists |
| `TagsVault.AddBeforeThreshold` | src/camera/april_tags_vault.py:18-26 | below the threshold a sighting is only recorded, whatever the similarity threshold |
| `TagsVault.AddAllCounts` | src/camera/april_tags_vault.py:18-26 | after any run of sightings the count has risen by their number, and the known ids are the old ones plus every id sighted |
| `TagsVault.GetEstimatedTagPosition` | src/camera/april_tags_vault.py:28-32 | `None` exactly for an unknown id; `ValueError` exactly for a known id with an empty list; otherwise the robust average of the list |
| `TagsVault.FirstSightingEstimate` | src/camera/april_tags_vault.py:18-32 | a tag seen once, before any pruning, is estimated at exactly that sighting |
| `TagsVault.GetAllEstimatedTags` | src/camera/april_tags_vault.py:38-43 | succeeds iff no list is empty; then it has exactly the vault's ids, each mapped to that id's estimate |
| `TagsVault.FromTagsDetectionToPos2d` | src/camera/april_tags_vault.py:47-51 | `AssertionError` iff a pose field is missing; otherwise `x = pose_t[2]`, `y = pose_t[0]`, `sin = R[2, 0]`, `cos = −R[2, 2]`, velocities 0 |
| `TagsVault.DetectionHeadingUnit` | src/camera/april_tags_vault.py:47-51 | a rotation about the camera's vertical axis gives a heading on the unit circle |
| `Export3D.SquaredNorm` | src/to_pos_extrapolator_pos.py:24 | `sin² + cos²` is non-negative and zero exactly for the zero heading |
| `Export3D.SinCosToDirectionVector` | src/to_pos_extrapolator_pos.py:23-29 | the middle component is 0; a zero heading is returned unscaled as `(cos, 0, −sin)` |
| `Export3D.DirectionUnit` | src/to_pos_extrapolator_pos.py:23-29 | a non-zero heading gives `(cos/m, 0, −sin/m)` with `m > 0` its length, and the first and third components have squared sum 1 |
| `Export3D.DirectionScaleInvariant` | src/to_pos_extrapolator_pos.py:23-29 | scaling sine and cosine by the same positive factor leaves the direction unchanged |
| `Export3D.PoseInverse` | src/to_pos_extrapolator_pos.py:49 | the inverse of a pose transform exists iff the heading is not zero, and raises `LinAlgError` otherwise |
| `Export3D.PoseInverseCorrect` | src/to_pos_extrapolator_pos.py:49 | whenever it exists, `inv(T) @ T` and `T @ inv(T)` are the identity |
| `Export3D.PoseInverseRigid` | src/to_pos_extrapolator_pos.py:49 | for a unit heading the inverse is the rigid one: the transposed rotation and the rotated, negated translation |
| `Export3D.OriginInverse` | src/to_pos_extrapolator_pos.py:48-49 | the origin pose inverts to the identity |
| `Export3D.ExportTag` | src/to_pos_extrapolator_pos.py:51-63 | with `R = inv(center) @ T_tag`: `x = R[0, 2]`, `y = 0`, `z = R[1, 2]`, and the direction built from `R[1, 0]`, `R[1, 1]` |
| `Export3D.ExportTagRelative` | src/to_pos_extrapolator_pos.py:48-63 | for a unit-heading centre the export is the tag's offset rotated into the centre's frame, and the heading is the difference of the two headings |
| `Export3D.IntToString` | src/to_pos_extrapolator_pos.py:58 | `str(tag_id)` is non-empty and starts with `-` exactly for negative ids |
| `Export3D.IntToStringInjective` | src/to_pos_extrapolator_pos.py:58 | different ids give different keys, so no tag overwrites another |
| `Export3D.ExportTags` | src/to_pos_extrapolator_pos.py:44-63 | fails with `LinAlgError` iff the centre is singular; otherwise exactly one entry per tag, keyed by `str(tag_id)` and holding that tag's export |
| `Export3D.ExportTagIdentity` | src/to_pos_extrapolator_pos.py:51-63 | relative to the identity, a tag is exported at its own position with its own heading's direction |
| `Export3D.ExportTagsIdentityCenter` | src/to_pos_extrapolator_pos.py:44-63 | with the origin pose as centre, every tag is exported as if no centre were applied |
| `MapAnnotator.FloorDiv` | src/annotate_map_obstacles.py:75-76 | Python's `//`: the quotient rounded towards minus infinity, for either sign of divisor |
| `MapAnnotator.NewAnnotator` | src/annotate_map_obstacles.py:20-31 | fails iff the square size or the grid size is 0: `ZeroDivisionError` for a zero square size (line 20 runs first), otherwise `ValueError` from `draw_grid`'s zero `range` step (line 53). On success the grid size is non-zero, `pixels_per_meter · square_size = grid_size` and `squares_per_meter · square_size = 1`, with no obstacles and no drag |
| `MapAnnotator.RatiosConsistent` | src/annotate_map_obstacles.py:20-21 | pixels per metre equals grid size times squares per metre |
| `MapAnnotator.Toggle` | src/annotate_map_obstacles.py:67-71 | the cell's membership flips and no other cell changes |
| `MapAnnotator.ToggleTwice` | src/annotate_map_obstacles.py:67-71 | toggling a cell twice restores the set |
| `MapAnnotator.ToggleCommutes` | src/annotate_map_obstacles.py:67-71 | toggles of two cells commute |
| `MapAnnotator.ToggleSquare` | src/annotate_map_obstacles.py:67-72 | only the obstacle set changes, by toggling the cell |
| `MapAnnotator.OnClick` | src/annotate_map_obstacles.py:74-88 | `ZeroDivisionError` iff the grid size is 0, which a constructed annotator never has. Button-down starts a drag, records the cell and toggles it. A move during a drag onto a new cell toggles it and records it; any other move changes nothing. Button-up ends the drag, forgets the cell and keeps the obstacles. Other events change nothing |
| `MapAnnotator.OnClickValid` | src/annotate_map_obstacles.py:74-88 | every event keeps "dragging exactly when a last cell is recorded" |
| `MapAnnotator.CellContainsPixel` | src/annotate_map_obstacles.py:75-76 | the cell computed for a pixel contains it: `gx · grid <= x < gx · grid + grid` |
| `MapAnnotator.DragWithinCell` | src/annotate_map_obstacles.py:82-85 | moves that stay in the cell where the drag started toggle nothing more |
| `MapAnnotator.ClickToggles` | src/annotate_map_obstacles.py:78-88 | a press and release at one pixel toggles that pixel's cell and leaves no drag behind |
| `MapAnnotator.ClickTwiceRestores` | src/annotate_map_obstacles.py:78-88 | clicking the same pixel twice restores the annotator |
| `MapAnnotator.ObstacleRecords` | src/annotate_map_obstacles.py:91 | one `{x, y}` record per obstacle: the records name exactly the obstacle cells, without repeats |
| `MapAnnotator.SaveAnnotations` | src/annotate_map_obstacles.py:90-100 | the saved data carries the image path, square size, grid size and both ratios, plus one record per obstacle |

## Left out

- The Kalman filter's `predict` and `update` (src/position/position_extrapolator.py:43-47) belong to filterpy, which is not part of this model. Only `F`, the state layout and the pose read-out are modelled.
- The filter's measurement matrix `H` is never set in the source (src/position/position_extrapolator.py:24-37), so `update` runs with filterpy's default, a zero matrix. The model has no `H`. Its statements about a state equal to a measurement are about the read-out alone, not about a state the filter is known to reach.
- `Position3D` and `make_transformation_matrix_3d` (src/util/position.py:37-89) normalise vectors with `np.linalg.norm` and cross products. Only the `create_transformation_matrix_3d` assembly is modelled.
- `reverse_radians` (src/util/math.py:11-12) needs `np.pi`, and nothing in the core calls it.
- Floating point is not modelled: all arithmetic is over exact reals. `np.exp` and `np.sqrt` are the parameters described above.
- JSON and file I/O are not modelled: pydantic validation, `from_json`'s file read, the export script's argument parsing and file write, and the annotator's prompts, image loading, drawing, window loop and output path. The records these read and write are modelled.
- The lidar, detector, orchestration, map-area and plotting files are I/O, hardware or threads. Also, the map-area code calls a function that does not exist and passes four arguments to a three-parameter function.
- The vault and the filter are shared between threads without locks; concurrency is not modelled.
- RobustAverage.FancyAverageSlow: requires a non-empty list. NumPy raises on an empty one, in the row-wise norm; that error is modelled where it can arise, in `TagsVault.GetEstimatedTagPosition` and `TagsVault.GetAllEstimatedTags`.
- RobustAverage.OptimizeArray: requires `LoopEnds`, because for two or more poses, a negative similarity threshold and some weight above the weight threshold, the source's loop never ends.
- TagsVault.AddAll: requires, as does `TagsVault.AddAllCounts`, a non-negative similarity threshold for the whole run of sightings, rather than tracking per sighting whether the pruning it triggers returns.
- Export3D.SinCosToDirectionVector: `np.sqrt` is an `IsSqrt` parameter, not a computed square root. Its unit-length and scaling properties are stated in `Export3D.DirectionUnit` and `Export3D.DirectionScaleInvariant`.
- Export3D.PoseInverse: written in closed form as the inverse of a pose transform, not as general Gaussian elimination. NumPy raises `LinAlgError` only for an exactly singular matrix, and so does the model.
- MapAnnotator.ObstacleRecords: Python's set iteration order is unspecified, so the order of the records is left open. Only their contents and count are stated.

## Findings

| source | as written | input that shows it | evidently intended | confidence | as-written member | corrected member |
|---|---|---|---|---|---|---|
| src/position/position_extrapolator.py:29-57 | `get_position` passes `x[5]` as sin and `x[4]` as cos. The measurement layout `to_array_with_velocity` puts sin at slot 4 and cos at slot 5. The initial state `[m/2, m/2, 0, 0, 1, 0]` at line 29 agrees with the `[.., cos, sin]` reading: read that way it is heading `(sin 0, cos 1)` | a state equal to the measurement of a sensor at `(0, 0, sin 1, cos 0)` reads back as `(0, 0, sin 0, cos 1)`, a quarter turn away. No code in the source sets the filter's measurement matrix `H`, and filterpy's default is zero, so the program as a whole may never reach such a state; the input is one of the read-out alone | one layout shared by measurement and read-out. `Extrapolator.GetPosition` reads sin from slot 4 and cos from slot 5, so a state equal to a measurement reads back as the measured pose. The price is shown by `Extrapolator.InitialPosition`: under this fix a fresh filter's heading turns a quarter turn, to `(sin 1, cos 0)`. Reordering `to_array_with_velocity` to `[.., cos, sin]` instead would keep line 29 and `get_position` as they are and is an equally good correction | not executed; low, because which of the two layouts was meant cannot be told from the code | `Extrapolator.GetPositionAsWritten` | `Extrapolator.GetPosition` |
