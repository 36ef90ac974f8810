# Dance practice: motion matching in Dafny

This project models the motion-matching engine of a browser dance-practice
app and proves properties of the model.

- A recording is a time-ordered list of samples, each a timestamp plus a
  body position. A body position is six leg angles and the direction the
  dancer faces.
- The engine scores such poses against target positions. A target is six
  tolerance bands: a band gives no penalty inside it and a weighted squared
  distance outside it.
- It searches a time window for the sample that best fits a target.
- It locks a move (a cyclic list of targets, one per beat) to a recording
  beat by beat.
- In free-style mode it detects any catalog position with a moving pointer,
  then de-duplicates the detections in place. It then segments them greedily
  into named steps.
- It also scores how still the feet are on the beat, tracks knee angles
  with a two-field state machine, and parses the song list.

Module layout, one module per part of the program:

| file | module | models |
|---|---|---|
| wrappers.dfy | Wrappers | `Option` (for `null` and `Infinity`) |
| pose.dfy | Pose | `BodyPosition`, `interpolate`, `keypointsToDirection` |
| ranges.dfy | Ranges | `Range` |
| named_positions.dfy | NamedPositions | `NamedPosition`: scoring, `diff`, the `bestFit` scan |
| catalog.dfy | Catalog | `POSITIONS` |
| matching.dfy | Matching | what `matchToRecording` promises, as predicates and lemmas |
| moves.dfy | Moves | class `Move`: `then`, the factory moves, `matchToRecording` |
| moves_db.dfy | MovesDb | `STEPS`, `CHOREOS` |
| detect.dfy | Detect | `detectAnyPositions`, the de-duplication, `computePositions` |
| steps.dfy | StepDetection | `detectSteps` |
| rhythm.dfy | Rhythm | `onBeatScore`, `stillnessScore`, `perFeetScore` |
| dance.dfy | Dance | classes `Leg` and `Tracker` |
| musiclib.dfy | MusicLib | `listSongs` |

How the code's forms map to Dafny:

- Values that are copied rather than shared become datatypes: `Range`,
  `NamedPosition` and `BodyPosition`. The builder setters become functions
  that return the updated value.
- `Move`, `Leg` and `Tracker` update their fields in place, so they are
  classes.
- Every loop of the source is a method with invariants, proved equal to a
  recursive specification function. These loops are:
  - the `bestFit` scan;
  - `errorScore`'s sum over the keys;
  - `matchToRecording`'s first-window loop and its beat loop with inner
    search;
  - the pointer loop of `detectAnyPositions`, with its catalog loop and its
    fast-forward;
  - the backward splice loop of the de-duplication;
  - the labelled loops of `detectSteps`;
  - the two nested loops of `onBeatScore`.
- The properties are proved about those specification functions.
- Times and angles are `real`.

Where the documented behaviour and the code disagree, the model follows the
code:

- When two same-id detections are merged and their errors are equal, the
  de-duplication removes the **earlier** entry (`splice(i - 1, 1)`).
- The de-duplication compares `positions[i-1].start - positions[i].start`,
  which is never positive for ascending starts. So with a positive
  `minDtRepeat`, every pair of same-id neighbours is merged, however far
  apart they are (`Detect.DedupRemovesRepeats`).
- `ReverseRunningMan` is filed under the name "Double Running Man", as the
  code has it.

## Model

| member | source | states |
|---|---|---|
| Pose.MirrorSwapsSides | src/moves.js:504-507 | swapping legs twice gives back the joint, and it moves a joint to the other leg (what relates the left and right catalog entries) |
| Pose.Lerp | src/moves.js:313-315 | ratio 1 gives the first value, ratio 0 the second, and a ratio in [0, 1] gives a value between the two |
| Pose.LerpBounds | src/rhythm.js:74-76 | `a·ratio + b·(1 − ratio)` lies between `a` and `b` for a ratio in [0, 1] |
| Pose.LerpScales | src/moves.js:313-315 | the blend moves away from the second value by exactly `ratio` times the difference |
| Pose.BodyPosition.LeftLeg | src/moves.js:276-281 | the three left-leg angles take the given values; the right leg and the facing are unchanged |
| Pose.BodyPosition.RightLeg | src/moves.js:283-288 | the three right-leg angles take the given values; the left leg and the facing are unchanged |
| Pose.BodyPosition.Interpolate | src/moves.js:290-299 | keeps this pose's facing; each angle lies between the two poses' angles for a ratio in [0, 1] |
| Pose.BodyPosition.Diff | src/moves.js:301-310 | facing is 'unknown' and adding the difference to the other pose gives back this one, angle by angle |
| Pose.BodyPosition.Mirror | src/moves.js:504-507 | the pose with left and right exchanged, facing mirrored too |
| Pose.Standing | src/moves.js:225-234 | a new body position has every angle 0 and the given facing |
| Pose.InterpolateEndpoints | src/moves.js:290-299 | ratio 1 gives this pose and ratio 0 gives the other pose with this pose's facing |
| Pose.InterpolateAlongDiff | src/moves.js:290-310 | interpolating and then taking the difference to the other pose is the same as scaling the difference down towards standing |
| Pose.InterpolateScales | src/moves.js:290-299 | every angle moves from the other pose by `ratio` times the difference between the two poses |
| Pose.DiffSelfIsStanding | src/moves.js:301-310 | the difference of a pose to itself is the all-zero pose facing 'unknown' |
| Pose.KeypointsToDirection | src/moves.js:259-274 | the four shoulder-angle sectors as four if-and-only-ifs (left for \|a\| ≤ 45, back, right for \|a\| ≥ 135, front); 'unknown' never occurs; the correction is −1 exactly when facing left |
| Pose.FromAngles | src/moves.js:244-257 | the facing of the built pose is the one the shoulder angle gives |
| Pose.FacingLeftNegatesAngles | src/moves.js:244-257 | facing left gives the pose that any other facing gives for the negated raw angles, now facing left |
| Ranges.Range.WithTolerance | src/moves.js:466-468 | the band is centred on the perfect value, `2·tolerance` wide, has the given weight, and holds the perfect value for a non-negative tolerance |
| Ranges.Range.ErrorScore | src/moves.js:474-479 | 0 inside the band; never negative for a non-negative weight; for a proper band with positive weight it is 0 exactly inside the band |
| Ranges.Range.Diff | src/moves.js:481-486 | the signed distance to the nearer bound, the upper bound on a tie |
| Ranges.OutsideScore | src/moves.js:474-479 | outside the band, the weighted smaller squared distance is never negative, and positive for a proper band with positive weight |
| Ranges.ErrorScoreIsWeightedSquaredDiff | src/moves.js:474-486 | the penalty is the weight times the square of `diff`, or 0 inside the band |
| Ranges.ScoreBelow | src/moves.js:474-479 | below a proper band the penalty is weight × (min − x)² |
| Ranges.ScoreAbove | src/moves.js:474-479 | above a proper band the penalty is weight × (x − max)² |
| Ranges.ErrorScoreGrowsBelow | src/moves.js:474-479 | below the band the penalty grows the further away the value is (strictly for a positive weight) |
| Ranges.ErrorScoreGrowsAbove | src/moves.js:474-479 | above the band the penalty grows the further away the value is (strictly for a positive weight) |
| NamedPositions.NamedPosition.LeftLeg | src/moves.js:338-343 | the three left bands are centred on the given angles, `2·tolerance` wide, with the given weights; all else is unchanged |
| NamedPositions.NamedPosition.RightLeg | src/moves.js:345-350 | the three right bands are centred on the given angles, `2·tolerance` wide, with the given weights; all else is unchanged |
| NamedPositions.NamedPosition.Bind | src/analyze.js:45-46 | the copy carries the given facing and is otherwise the catalog entry, which stays unchanged |
| NamedPositions.NamedPosition.ErrorScores | src/moves.js:376-385 | each joint's penalty is its band's penalty of that joint's angle |
| NamedPositions.NamedPosition.ComputeErrorScore | src/moves.js:367-374 | the key-by-key loop computes the total penalty, which is the sum of the six per-joint penalties |
| NamedPositions.NamedPosition.Diff | src/moves.js:387-396 | facing 'unknown'; each angle is its band's `diff`, which lies between the distances to the bounds when the angle is inside |
| NamedPositions.NamedPosition.Mirror | src/moves.js:504-507 | the target with left and right bands exchanged; identity, image and facing are kept |
| NamedPositions.NamedPosition.CenterPose | src/moves.js:432-436 | the pose at the centre of every band (what `toKeypoints` draws) |
| NamedPositions.NamedPosition.Penalties | src/moves.js:416 | one penalty per sample |
| NamedPositions.NamedPosition.BestFitOf | src/moves.js:398-430 | a result index lies in `[start, len)` |
| NamedPositions.NamedPosition.BestFit | src/moves.js:398-430 | the scan loop returns exactly the specified best fit (`BestFitOfSpec`) |
| NamedPositions.ScanTo | src/moves.js:412-421 | the best candidate among the scanned samples lies in the scanned range |
| NamedPositions.PenaltiesSpec | src/moves.js:416 | the penalty of sample k is its position's penalty divided by 1000 |
| NamedPositions.ScanEnd | src/moves.js:412 | the scan stops at the first sample later than `ts[start] + maxDt`; every sample before it is within the end time |
| NamedPositions.ScanToSpec | src/moves.js:412-421 | no result iff no scanned sample is late enough; otherwise a late-enough sample with minimal penalty, and the first such one |
| NamedPositions.BestFitOfSpec | src/moves.js:398-430 | null iff no scanned sample lies in the window; otherwise an in-window sample with its timestamp and penalty, minimal over the window, ties going to the earliest index |
| NamedPositions.BestFitAfterStart | src/moves.js:398-430 | with a positive `minDt` the fit lies strictly after `start` |
| NamedPositions.ScannedWindow | src/moves.js:410-415 | among the scanned samples, being in the window means being late enough, and no window sample precedes `start` |
| NamedPositions.SortedScanCoversWindow | src/moves.js:410-412 | with sorted timestamps the scan reaches every sample of the window |
| NamedPositions.SortedBestFitNone | src/moves.js:422-424 | with sorted timestamps, null iff no sample at all lies in the window |
| NamedPositions.ErrorScoreAddsUp | src/moves.js:367-385 | `errorScore` is the sum of the six `errorScores` |
| NamedPositions.ScoreDependsOnBandsOnly | src/moves.js:353-374 | two targets with the same bands score every pose alike, so a clone scores as its original |
| NamedPositions.ErrorScoreSpec | src/moves.js:367-385 | the total is 0 when every angle is in its band, never negative for well-formed bands, and 0 exactly when every positively weighted band holds its angle |
| NamedPositions.ScoresSumSpec | src/moves.js:376-385 | the same three facts for the sum of `errorScores` |
| NamedPositions.CenterPoseScoresZero | src/moves.js:488-490 | the pose at the band centres scores 0 |
| NamedPositions.MirrorKeepsScore | src/moves.js:367-385 | the mirrored target scores the mirrored pose exactly as the original target scores the original pose |
| Catalog.RightUpBuilt | src/moves.js:504 | "right-up" is `pos(...)` refined by the builder calls with the listed tolerances and weights |
| Catalog.RightForwardBuilt | src/moves.js:505 | "right-forward" is `pos(...)` refined by the builder calls, missing weights taken as 1 |
| Catalog.LeftUpBuilt | src/moves.js:506 | "left-up" is `pos(...)` refined by the builder calls with the listed tolerances and weights |
| Catalog.LeftForwardBuilt | src/moves.js:507 | "left-forward" is `pos(...)` refined by the builder calls, missing weights taken as 1 |
| Catalog.EntriesAreTheTable | src/moves.js:503-508 | each entry is filed under its own id, the ids are distinct, and the table holds nothing else |
| Catalog.EntriesWellFormed | src/moves.js:503-508 | every band of every entry is proper with a non-negative weight, and no entry has a facing |
| Catalog.UpWellFormed | src/moves.js:504-506 | the same for the two "up" entries |
| Catalog.ForwardWellFormed | src/moves.js:505-507 | the same for the two "forward" entries |
| Catalog.LeftUpMirrorsRightUp | src/moves.js:504-506 | "left-up" has the bands of "right-up" with the legs exchanged, so it scores a mirrored pose as "right-up" scores the pose |
| Catalog.LeftForwardMirrorsRightForward | src/moves.js:505-507 | "left-forward" has the bands of "right-forward" with the legs exchanged, with the same effect on the scores |
| Matching.Beat | src/moves.js:213-215 | the target of a beat is one of the move's positions |
| Matching.BeatIsRemainder | src/moves.js:213-215 | beat `i` uses entry `i mod len` |
| Matching.BeatPeriodic | src/moves.js:172 | the targets repeat with the length of the move |
| Matching.FirstReach | src/moves.js:126 | the first window reaches `maxDt` times the number of positions, which is non-negative for a non-negative `maxDt` |
| Matching.MissesExtend | src/moves.js:159-163 | one more empty window extends a run of empty searches |
| Matching.BeatsFirst | src/moves.js:137-153 | the first match opens a valid record: one detection with delta 0, its error and its frame |
| Matching.BeatsNext | src/moves.js:158-186 | appending the next beat's match (error, delta to the previous start, frame, bound detection) keeps the record valid, given that every pointer from the previous match up to the one that found it passed the loop guard and every earlier one found nothing |
| Matching.BeatsMatched | src/moves.js:189-201 | the assembled result is what `matchToRecording` promises: offset, start, counts, the mean error, and the scan stopping at the first sample after the last match that fails the loop guard, with every pointer before it finding nothing |
| Matching.StepsAgree | src/moves.js:158-163 | two matches of the same beat after the same previous match come from the same pointer and report the same sample, start, error and delta |
| Matching.MatchedAgreeAt | src/moves.js:137-187 | two results satisfying `Matched` agree on match `k`: its detection, error, frame, delta and pointer |
| Matching.MatchedHasNoFurtherStep | src/moves.js:158-166 | after the last match of a `Matched` result, no pointer passing the loop guard finds the next beat's target |
| Matching.MatchedSameLength | src/moves.js:158-166 | two results satisfying `Matched` have the same number of matches |
| Matching.MatchedAgreeAll | src/moves.js:137-187 | two results satisfying `Matched` agree entry by entry |
| Matching.MatchedSameLists | src/moves.js:137-187 | two results satisfying `Matched` hold the same lists, found from the same pointers |
| Matching.MatchedUnique | src/moves.js:107-202 | `Matched` determines the result: two results satisfying it for the same move, history and bounds are equal and stop at the same sample |
| Matching.FirstWindowHoldsFirstSample | src/moves.js:124-135 | the first search (minDt 0, start 0) always succeeds for a non-negative reach, so the give-up branch is unreachable |
| Matching.BeatsReportSamples | src/moves.js:158-187 | each entry reports its sample's timestamp and penalty, found in the window of a pointer between the previous match and its own |
| Matching.MatchedEntries | src/moves.js:192-201 | errors, frames and positions have length `numMoves` and deltas one less; entry k is the frame at its index, its id is `onBeat[k mod len].id`, and its facing is the frame's |
| Matching.MatchedInOrder | src/moves.js:158-187 | the matched indices strictly increase and the offset is never negative |
| Matching.MatchedDeltas | src/moves.js:169 | each delta is the difference of consecutive starts and, with sorted timestamps, at least `minDt` |
| Moves.Move.constructor | src/moves.js:6-15 | a new move has its name, no positions, and an empty id list under its name |
| Moves.Move.Then | src/moves.js:81-86 | appends the catalog entry to `onBeat` and its id to `steps[name]`, keeping the two in step |
| Moves.Move.ThenAll | src/moves.js:23-30 | a chain of `then` calls appends all the ids in order under the move's name, leaves every other key of `steps` alone, and appends their catalog positions to `onBeat` |
| Moves.Move.RunningMan | src/moves.js:23-30 | the "Running Man" move; `steps` is exactly its name mapped to its four ids |
| Moves.Move.DoubleRunningMan | src/moves.js:32-43 | the "Double Running Man" move; `steps` is exactly its name mapped to its eight ids |
| Moves.Move.ReverseRunningMan | src/moves.js:45-52 | the reverse move under the name "Double Running Man"; `steps` is exactly that name mapped to its four ids |
| Moves.Move.DoubleTurnRunningMan | src/moves.js:54-79 | the "Double Turn Running Man" move; `steps` is exactly its name mapped to its sixteen ids |
| Moves.Move.ErrorScore | src/moves.js:88-91 | the penalty of the target `onBeat[i mod len]`, divided by 1000 |
| Moves.Move.ErrorScores | src/moves.js:93-96 | the per-joint penalties of the target `onBeat[i mod len]` |
| Moves.Move.Diff | src/moves.js:98-101 | the `diff` of the target `onBeat[i mod len]` |
| Moves.Move.BestFit | src/moves.js:213-215 | the best fit of the target `onBeat[beat mod len]` in the window |
| Moves.Move.MatchToRecording | src/moves.js:107-202 | null exactly for an empty history or an empty move; otherwise a result satisfying `Matched`, which by `MatchedUnique` is the only such result |
| Moves.Move.FollowBeats | src/moves.js:137-187 | the beat loop builds a valid record from the first match and stops at the first sample after the last match that fails the loop guard, every pointer in between finding nothing |
| Moves.Move.Record | src/moves.js:168-186 | one beat's bookkeeping appends exactly the match's error, frame and delta, the detection with the beat's target bound to the frame's facing and the delta, and the pointer that found it; the record stays valid |
| Moves.Move.FirstMatch | src/moves.js:124-135 | the expanding first search returns the best fit of the first window |
| Moves.Move.BestFitFirstWindow | src/moves.js:128 | one search of the first window, which always succeeds |
| Moves.Move.NextMatch | src/moves.js:159-163 | the inner search moves the pointer one sample per empty window; it returns the fit of the window before the pointer, or nothing once the pointer is too late |
| MovesDb.StepNames | src/moves_db.js:1-7 | the keys of `STEPS` in order |
| MovesDb.StepsShape | src/moves_db.js:3-6 | four patterns with distinct names, each of two ids |
| MovesDb.StepIdsInCatalog | src/moves_db.js:3-6 | every id in `STEPS` is a key of `POSITIONS` |
| MovesDb.PatternsDistinct | src/moves_db.js:3-6 | the patterns are pairwise distinct and equally long |
| MovesDb.ChoreoStepsKnown | src/moves_db.js:9-20 | every step name in a choreography is a key of `STEPS` |
| Detect.Found | src/analyze.js:44-46 | the kept candidate is a copy of the catalog entry with the facing of the sample found |
| Detect.Fits | src/analyze.js:40-42 | one `bestFit` result per catalog entry |
| Detect.FitsUpTo | src/analyze.js:40-42 | one result for each of the first n entries |
| Detect.FitsSpec | src/analyze.js:40-42 | result m is entry m's `bestFit` at the pointer |
| Detect.Pick | src/analyze.js:43-47 | the chosen entry has a result |
| Detect.PickSpec | src/analyze.js:43-47 | nothing chosen iff no entry fits; the chosen one has a strictly smaller error than every earlier fit and no larger one than every later fit |
| Detect.CatalogBest | src/analyze.js:39-48 | a detection lies strictly after the pointer |
| Detect.CatalogBestSpec | src/analyze.js:39-48 | none iff no catalog entry fits; otherwise the detection reports its sample, its entry bound to the sample's facing, and its penalty |
| Detect.CatalogBestIsMinimal | src/analyze.js:43-47 | the kept error is at most every entry's error, and on a tie the kept entry comes no later in key order |
| Detect.FastForward | src/analyze.js:56-59 | the pointer moves to the first sample at or after the target time, or to the end |
| Detect.DetectFromFound | src/analyze.js:49-53 | a found detection is reported only within the threshold, and the pointer jumps to its sample either way |
| Detect.DetectFromSkip | src/analyze.js:54-59 | with nothing found, nothing is reported and the pointer fast-forwards by `maxDt − minDt` |
| Detect.DetectFromSpec | src/analyze.js:34-62 | every reported detection describes its sample and is within the threshold, and the reported indices strictly increase |
| Detect.BestInCatalog | src/analyze.js:39-48 | the loop over the catalog computes the best detection at the pointer |
| Detect.SkipUntil | src/analyze.js:56-59 | the fast-forward loop computes `FastForward` |
| Detect.Advance | src/analyze.js:37-60 | one pass of the pointer loop moves the pointer forward and reports what the specification reports |
| Detect.DetectAnyPositions | src/analyze.js:34-62 | the pointer loop returns exactly the specified detections |
| Detect.Merge | src/analyze.js:12-19 | a merge keeps both neighbours, drops the second, or drops the first |
| Detect.Dedup | src/analyze.js:11-21 | never longer than its input, and non-empty when the input is |
| Detect.Deduplicate | src/analyze.js:11-21 | the backward splice loop computes `Dedup` |
| Detect.MergeAt | src/analyze.js:12-19 | one splice step merges entry `i − 1` into the already merged rest |
| Detect.DedupIsSubsequence | src/analyze.js:11-21 | the result is a subsequence of the input |
| Detect.DedupKeepsEntries | src/analyze.js:11-21 | every kept entry comes from the input |
| Detect.DedupRemovesRepeats | src/analyze.js:12-13 | with ascending starts and a positive `minDtRepeat`, no id is next to itself afterwards |
| Detect.MergeKeepsSmallerError | src/analyze.js:14-18 | merging a pair keeps the one with the smaller error, and drops the earlier one on equal errors |
| Detect.ComputePositions | src/analyze.js:5-31 | free style: the de-duplicated detections with threshold 5; otherwise null iff the history or the move is empty, and else the positions of the one result satisfying `Matched` |
| StepDetection.FirstFit | src/analyze.js:70-80 | a chosen key fits at the pointer |
| StepDetection.FirstFitSpec | src/analyze.js:70-80 | none iff no key fits; otherwise no earlier key fits (first key wins) |
| StepDetection.Segments | src/analyze.js:68-92 | every segment's pattern matches the ids from its start on, at or after the pointer |
| StepDetection.SegmentsFound | src/analyze.js:81-88 | a match is emitted and the pointer jumps past the pattern |
| StepDetection.SegmentsSkip | src/analyze.js:90-91 | on a miss the pointer advances by exactly one |
| StepDetection.StepOf | src/analyze.js:82-86 | a step has the key's name, the start of its first position and the start of its last |
| StepDetection.StepsOf | src/analyze.js:82-86 | one step per segment, in order |
| StepDetection.StepsFromFound | src/analyze.js:81-88 | a matching key emits its step and moves the pointer by the pattern length |
| StepDetection.StepsFromSkip | src/analyze.js:90-91 | no key matching means no step, and the pointer moves by one |
| StepDetection.StepsFromSegments | src/analyze.js:65-94 | the steps are exactly the steps of the greedy segmentation |
| StepDetection.SegmentsDisjoint | src/analyze.js:87 | segments do not overlap and come out in increasing position order |
| StepDetection.SegmentsTakeFirstKey | src/analyze.js:70-80 | no earlier key fits where a segment starts |
| StepDetection.SegmentsMissNothing | src/analyze.js:90-91 | no pattern fits at any position not covered by a segment |
| StepDetection.FindStep | src/analyze.js:70-80 | the labelled key loop finds the first fitting key |
| StepDetection.NextStep | src/analyze.js:68-92 | one pass of the outer loop moves the pointer forward and emits what the specification emits |
| StepDetection.DetectSteps | src/analyze.js:65-94 | the loop returns exactly the specified steps |
| StepDetection.RunningManSteps | src/moves_db.js:3-4 | the running man's four ids are detected as "running man right" followed by "running man left" |
| Rhythm.PerFeetScore | src/rhythm.js:61-71 | within [0, 50]; 50 for a still foot, 0 for a fast one |
| Rhythm.PerFeetScoreNonIncreasing | src/rhythm.js:61-71 | more movement never scores higher |
| Rhythm.PerFeetScoreLinear | src/rhythm.js:68-69 | between the two thresholds the score falls linearly, 50 points over the span |
| Rhythm.FeetScore | src/rhythm.js:56-59 | within [0, 100]; 100 when both feet are still, 0 when both move fast |
| Rhythm.FeetScoreSymmetric | src/rhythm.js:56-59 | the score does not depend on which foot is which |
| Rhythm.OneStillFoot | src/rhythm.js:56-59 | one still foot alone earns at least 75 |
| Rhythm.StillnessScore | src/rhythm.js:51-60 | within [0, 100], and 0 for a missing movement vector |
| Rhythm.BeatScore | src/rhythm.js:22-28 | the interpolated score at a beat boundary lies within [0, 100] and between the two neighbouring scores |
| Rhythm.BeatRatioInRange | src/rhythm.js:26-28 | at a boundary the early offset is positive, the late one non-negative, and the ratio in [0, 1) |
| Rhythm.Beats | src/rhythm.js:21-33 | the beat count only grows |
| Rhythm.BeatsBounded | src/rhythm.js:21-33 | the running total stays within [0, 100 × beats] |
| Rhythm.CandidateScore | src/rhythm.js:17-36 | a candidate's mean score lies within [0, 100] |
| Rhythm.BestUpTo | src/rhythm.js:38-40 | the best score lies within [0, 100] |
| Rhythm.BestUpToSpec | src/rhythm.js:14-42 | the best score is at least every candidate's; no offset iff it is 0; otherwise the offset of the first candidate reaching it |
| Rhythm.FirstReaching | src/rhythm.js:16 | the candidates are the samples before the first one at or after one beat |
| Rhythm.OnBeatSpec | src/rhythm.js:7-44 | the plain 0 exactly for no samples; for a negative tempo no candidate qualifies and the result is score 0 without an offset |
| Rhythm.OnBeatSpecSpec | src/rhythm.js:14-43 | score in [0, 100]; no offset iff the score is 0; the offset is below one beat and, with sorted timestamps, not negative |
| Rhythm.ScoreCandidate | src/rhythm.js:17-37 | the inner loop computes the candidate's score |
| Rhythm.OnBeatScore | src/rhythm.js:7-44 | the two loops compute the specified result |
| Dance.Leg.constructor | src/dance.js:14-19 | a new leg has its name, 90 degrees and increasing |
| Dance.Leg.IsSignificantChange | src/dance.js:39-45 | significant iff the new angle lies more than 5 degrees away |
| Dance.Leg.CheckForDirectionChange | src/dance.js:21-32 | going back only when increasing and the angle fell, going forward only when decreasing and it rose, by the size of the change; reads the state and changes nothing |
| Dance.Leg.Update | src/dance.js:34-37 | increasing iff the new angle is above the old one, and the new angle becomes current |
| Dance.Leg.Track | src/dance.js:47-52 | an insignificant change leaves both fields alone; a significant one is taken over; a turn is reported exactly when the direction flips |
| Dance.Tracker.constructor | src/dance.js:2-5 | two fresh, distinct legs "left" and "right" in the start state |
| Dance.Tracker.Track | src/dance.js:7-10 | each leg tracks its own angle, independently of the other |
| MusicLib.At | src/musiclib.js:8-9 | the table entry at an index, absent past the end |
| MusicLib.Clamp | src/musiclib.js:6 | a position clamped into the string, unchanged when already inside |
| MusicLib.Substring | src/musiclib.js:5-6 | `substring` is the plain slice for in-range ordered positions and never longer than the string |
| MusicLib.SubstringSwap | src/musiclib.js:6 | the order of the two positions does not matter |
| MusicLib.DigitsValue | src/musiclib.js:5 | the empty digit string is 0 |
| MusicLib.ParseNumber | src/musiclib.js:5 | NaN exactly when some character is not a decimal digit |
| MusicLib.Digit | src/musiclib.js:14-16 | the digit character of a number below ten |
| MusicLib.ThreeDigits | src/musiclib.js:14-16 | three digit characters |
| MusicLib.FileName | src/musiclib.js:14-16 | the file-name form "NNN - Title.mp3" is ten characters longer than the title |
| MusicLib.SongOf | src/musiclib.js:4-10 | the entry keeps the full name, delay and fast-forward, and its name is no longer than the file name |
| MusicLib.SongsOf | src/musiclib.js:3-12 | one entry per file, in order, built from the file and the table entries at the same index |
| MusicLib.ListSongs | src/musiclib.js:3-12 | one entry per file, with its full name, `DELAYS[i]` and `FFS[i]` |
| MusicLib.ThreeDigitsValue | src/musiclib.js:5 | three written digits read back as the number they were written from |
| MusicLib.SongOfFileName | src/musiclib.js:5-6 | any well-formed file name gives back its tempo and its title |
| MusicLib.FileTempo | src/musiclib.js:15 | the file name starts with "100" |
| MusicLib.FileTitle | src/musiclib.js:15 | characters 6 to length − 4 of the file name are the title |
| MusicLib.ListSongsEntry | src/musiclib.js:14-26 | the single entry: 100 bpm, "Rock the Party - Alexi Action", delay 14, fast-forward 30 |

## Left out

- `BodyPosition.fromKeypoints` geometry: the trigonometric helpers
  (`signedPolarAngle`, `polarAngle`, `azimuth`) live in src/util.js, which is
  not part of this model. `Pose.FromAngles` and `Pose.KeypointsToDirection`
  take the raw angles as given real inputs.
- `NamedPosition.toKeypoints`: the same trigonometric geometry. Only the
  band centres it draws are modelled, as `CenterPose`.
- Images: `loadImage`/`IMAGES` is DOM work. An image is an opaque value with
  two cases.
- `Move.StandingStraight`: it passes a body position where `then` expects a
  catalog id, so the lookup yields `undefined`. It is not modelled.
- Console logging in src/moves.js and src/analyze.js.
- The `Date` arithmetic (`updateTime`) and the sound (`playSound` on changes
  above 10 degrees of the right leg) in src/dance.js. The times and amounts
  that are logged become the returned `Turn`.
- src/util.js: its keypoint index tables are inlined as constants (ankles 27
  and 28).
- src/renderer_canvas2d.js, src/camera.js, src/index.js, src/review.js,
  src/sound.js and src/params.js (canvas, media, DOM, audio and configuration)
  are not part of this model.
- Aliasing: `clone` and the copy-on-bind of targets are modelled on values,
  so the model cannot express the sharing of `Range` objects between
  positions.
- Floating point: all numbers are exact reals. Rounding in `*= 1.2` and in the
  divisions is not modelled.
- MusicLib.ParseNumber: models `Number` only on the strings it meets here.
  The empty string gives 0 and a string of decimal digits gives its value.
  Everything else, including whitespace, signs, decimal points and hex, is
  NaN (None), whereas `Number` accepts some of those.
- Rhythm.OnBeatScore: requires some sample at or after one beat after the
  first, because without one the outer loop of src/rhythm.js:16 reads past
  the end of the array and throws. It also requires every movement vector
  to reach both ankles, and a tempo other than 0: a tempo of 0 makes the
  beat infinite, so the outer loop reads past the end as well. A negative
  tempo is modelled (score 0 without an offset). A NaN tempo, for which the
  source also returns score 0, has no counterpart among the reals.
- Moves.Move.MatchToRecording: requires `0 < minDt ≤ maxDt` and a last
  timestamp no earlier than the first. With `minDt = 0` the beat loop of
  src/moves.js:158-187 can fail to end: it runs forever when, beat after
  beat, the best fit is the pointer's own sample. `bestFit` asserts
  `minDt ≤ maxDt`, and the first search needs a non-negative span.
- Detect.DetectAnyPositions: requires a non-empty history and
  `1 ≤ minDt < maxDt`. With `minDt = maxDt` the fast-forward of
  src/analyze.js:56-59 never moves the pointer. The first window is searched
  with `minDt = 1`, and `bestFit` asserts `ts[0] + 1 ≤ ts[last]` there
  (src/moves.js:401-406). The loop guard at src/analyze.js:37 only gives
  `ts[0] + minDt ≤ ts[last]`, so only `minDt ≥ 1` guarantees it. `Infinity`
  as the threshold is `None`.
- StepDetection.DetectSteps: requires every allowed pattern to be non-empty.
  When the loop reaches an empty pattern it fits trivially. At pointer 0,
  src/analyze.js:85 then reads `positions[-1].start` and throws a
  `TypeError`. At a later pointer the step is pushed without moving the
  pointer, so the loop can fail to end. If an earlier key fits at every
  pointer, the empty pattern is never tried.
- Default arguments are not modelled; every caller passes them explicitly:
  `matchToRecording`'s `minDt = 190` and `maxDt = 1350` (src/moves.js:107),
  `detectSteps`'s `allowedSteps = STEPS` (src/analyze.js:65),
  `computePositions`'s `freestyle = true` (src/analyze.js:5) and the `Move`
  constructor's `name = "unknown step name"` (src/moves.js:6).
- Moves.Move.Then: requires the id to be a catalog key. The source would push
  `undefined` otherwise.
