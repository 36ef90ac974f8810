/** Target positions: six tolerance bands, one per leg angle, with the
    penalty they give a recorded pose and the windowed search for the
    recorded sample that fits them best (src/moves.js, class NamedPosition). */
module NamedPositions {
  import opened Wrappers
  import opened Pose
  import opened Ranges

  /** The keys of `errorScores`, in the order they are listed and added up. */
  const ScoreKeys: seq<Joint> := [LeftThigh, RightThigh, LeftShin, RightShin, RightFullLeg, LeftFullLeg]

  /** The illustration shown with a position; only its identity matters here. */
  datatype Image = BetweenSteps | StepWide

  /** The six per-joint penalties of `errorScores`. */
  datatype Scores = Scores(
    leftThigh: real, rightThigh: real,
    leftShin: real, rightShin: real,
    rightFullLeg: real, leftFullLeg: real)
  {
    function Get(j: Joint): real {
      match j
      case LeftThigh => leftThigh
      case RightThigh => rightThigh
      case LeftShin => leftShin
      case RightShin => rightShin
      case LeftFullLeg => leftFullLeg
      case RightFullLeg => rightFullLeg
    }

    /** The total, added up in the order the fields are listed. */
    function Sum(): real {
      leftThigh + rightThigh + leftShin + rightShin + rightFullLeg + leftFullLeg
    }
  }

  /** One candidate found by the window search: the sample index, its
      timestamp and its penalty (already divided by 1000). */
  datatype Fit = Fit(index: nat, start: real, error: real)

  /** A position the dancer should hit. `facingDirection` is absent in the
      catalog and set on the copies that report a detection. */
  datatype NamedPosition = NamedPosition(
    id: string, name: string, img: Image,
    leftThigh: Range, rightThigh: Range,
    leftShin: Range, rightShin: Range,
    leftFullLeg: Range, rightFullLeg: Range,
    facingDirection: Option<Facing>)
  {
    function Get(j: Joint): Range {
      match j
      case LeftThigh => leftThigh
      case RightThigh => rightThigh
      case LeftShin => leftShin
      case RightShin => rightShin
      case LeftFullLeg => leftFullLeg
      case RightFullLeg => rightFullLeg
    }

    /** Every band is proper and no weight is negative. */
    predicate WellFormed()
      ensures WellFormed() <==> forall j: Joint :: Get(j).min <= Get(j).max && Get(j).weight >= 0.0
    {
      assert Get(LeftThigh) == leftThigh && Get(RightThigh) == rightThigh && Get(LeftShin) == leftShin;
      assert Get(RightShin) == rightShin && Get(LeftFullLeg) == leftFullLeg && Get(RightFullLeg) == rightFullLeg;
      && leftThigh.min <= leftThigh.max && leftThigh.weight >= 0.0
      && rightThigh.min <= rightThigh.max && rightThigh.weight >= 0.0
      && leftShin.min <= leftShin.max && leftShin.weight >= 0.0
      && rightShin.min <= rightShin.max && rightShin.weight >= 0.0
      && leftFullLeg.min <= leftFullLeg.max && leftFullLeg.weight >= 0.0
      && rightFullLeg.min <= rightFullLeg.max && rightFullLeg.weight >= 0.0
    }

    /** Replaces the three left-leg bands by bands of half-width `tolerance`
        around the given angles; nothing else changes. */
    function LeftLeg(thigh: real, shin: real, leg: real, tolerance: real,
                     thighWeight: real, shinWeight: real, legWeight: real): (p: NamedPosition)
      ensures p.leftThigh.Center() == thigh && p.leftShin.Center() == shin && p.leftFullLeg.Center() == leg
      ensures forall j: Joint :: j.IsLeft() ==> p.Get(j).max - p.Get(j).min == 2.0 * tolerance
      ensures p.leftThigh.weight == thighWeight && p.leftShin.weight == shinWeight && p.leftFullLeg.weight == legWeight
      ensures forall j: Joint :: !j.IsLeft() ==> p.Get(j) == Get(j)
      ensures p.id == id && p.name == name && p.img == img && p.facingDirection == facingDirection
    {
      this.(leftThigh := Range.WithTolerance(thigh, tolerance, thighWeight),
            leftShin := Range.WithTolerance(shin, tolerance, shinWeight),
            leftFullLeg := Range.WithTolerance(leg, tolerance, legWeight))
    }

    /** Replaces the three right-leg bands; nothing else changes. */
    function RightLeg(thigh: real, shin: real, leg: real, tolerance: real,
                      thighWeight: real, shinWeight: real, legWeight: real): (p: NamedPosition)
      ensures p.rightThigh.Center() == thigh && p.rightShin.Center() == shin && p.rightFullLeg.Center() == leg
      ensures forall j: Joint :: !j.IsLeft() ==> p.Get(j).max - p.Get(j).min == 2.0 * tolerance
      ensures p.rightThigh.weight == thighWeight && p.rightShin.weight == shinWeight && p.rightFullLeg.weight == legWeight
      ensures forall j: Joint :: j.IsLeft() ==> p.Get(j) == Get(j)
      ensures p.id == id && p.name == name && p.img == img && p.facingDirection == facingDirection
    {
      this.(rightThigh := Range.WithTolerance(thigh, tolerance, thighWeight),
            rightShin := Range.WithTolerance(shin, tolerance, shinWeight),
            rightFullLeg := Range.WithTolerance(leg, tolerance, legWeight))
    }

    /** The copy a detection reports: same identity and bands, and the facing
        direction of the matched sample. The catalog entry itself is a value
        and is never altered. */
    function Bind(facing: Facing): (p: NamedPosition)
      ensures p.facingDirection == Some(facing)
      ensures p.(facingDirection := facingDirection) == this
    {
      this.(facingDirection := Some(facing))
    }

    /** Per-joint penalties of a recorded pose. */
    function ErrorScores(b: BodyPosition): (s: Scores)
      ensures forall j: Joint :: s.Get(j) == Get(j).ErrorScore(b.Get(j))
    {
      Scores(
        leftThigh.ErrorScore(b.leftThigh), rightThigh.ErrorScore(b.rightThigh),
        leftShin.ErrorScore(b.leftShin), rightShin.ErrorScore(b.rightShin),
        rightFullLeg.ErrorScore(b.rightFullLeg), leftFullLeg.ErrorScore(b.leftFullLeg))
    }

    /** Total penalty of a recorded pose: the per-joint penalties added up
        over the keys of `errorScores` (its properties are
        `ErrorScoreSpec`). */
    function ErrorScore(b: BodyPosition): real {
      RunningScore(b, |ScoreKeys|)
    }

    /** The running total after the first `n` keys. */
    function RunningScore(b: BodyPosition, n: nat): real
      requires n <= |ScoreKeys|
    {
      if n == 0 then 0.0
      else RunningScore(b, n - 1) + Get(ScoreKeys[n - 1]).ErrorScore(b.Get(ScoreKeys[n - 1]))
    }

    /** `errorScore` as the source runs it: compute the per-joint penalties,
        then add them up key by key. */
    method ComputeErrorScore(b: BodyPosition) returns (sum: real)
      ensures sum == ErrorScore(b)
      ensures sum == ErrorScores(b).Sum()
    {
      var scores := ErrorScores(b);
      sum := 0.0;
      var i := 0;
      while i < |ScoreKeys|
        invariant i <= |ScoreKeys|
        invariant sum == RunningScore(b, i)
      {
        sum := sum + scores.Get(ScoreKeys[i]);
        i := i + 1;
      }
      ErrorScoreAddsUp(this, b);
    }

    /** Per-joint signed offsets to the nearer band bound. */
    function Diff(b: BodyPosition): (d: BodyPosition)
      ensures d.facingDirection == Unknown
      ensures forall j: Joint :: d.Get(j) == Get(j).Diff(b.Get(j))
      ensures forall j: Joint :: Get(j).Contains(b.Get(j)) && Get(j).min < Get(j).max ==>
        Get(j).min - b.Get(j) <= d.Get(j) <= Get(j).max - b.Get(j)
    {
      Standing(Unknown)
        .LeftLeg(leftThigh.Diff(b.leftThigh), leftShin.Diff(b.leftShin), leftFullLeg.Diff(b.leftFullLeg))
        .RightLeg(rightThigh.Diff(b.rightThigh), rightShin.Diff(b.rightShin), rightFullLeg.Diff(b.rightFullLeg))
    }

    /** The same position for a mirrored dancer: the legs trade bands. */
    function Mirror(): (p: NamedPosition)
      ensures forall j: Joint :: p.Get(j.Mirror()) == Get(j)
      ensures p.id == id && p.name == name && p.img == img && p.facingDirection == facingDirection
    {
      this.(leftThigh := rightThigh, rightThigh := leftThigh,
            leftShin := rightShin, rightShin := leftShin,
            leftFullLeg := rightFullLeg, rightFullLeg := leftFullLeg)
    }

    /** The pose at the centre of every band (what `toKeypoints` draws). */
    function CenterPose(facing: Facing): (b: BodyPosition)
      ensures forall j: Joint :: b.Get(j) == Get(j).Center()
      ensures b.facingDirection == facing
    {
      BodyPosition(
        leftThigh.Center(), rightThigh.Center(), leftShin.Center(), rightShin.Center(),
        leftFullLeg.Center(), rightFullLeg.Center(), facing)
    }

    /** The penalty `bestFit` compares. */
    function FitError(b: BodyPosition): real {
      ErrorScore(b) / 1000.0
    }

    /** The penalty of every sample of the history, in order; the search
        compares these (see `PenaltiesSpec`). */
    function Penalties(h: seq<Sample>): (e: seq<real>)
      ensures |e| == |h|
    {
      if |h| == 0 then [] else Penalties(h[..|h| - 1]) + [FitError(h[|h| - 1].bodyPos)]
    }

    /** `bestFit`: the first sample of smallest penalty among those scanned
        from `start` whose timestamp lies in `[ts[start] + minDt, ts[start] +
        maxDt]`; the scan stops at the first sample past the window (see
        `BestFitOfSpec`). */
    function BestFitOf(h: seq<Sample>, start: nat, minDt: real, maxDt: real): (r: Option<Fit>)
      requires start < |h|
      ensures r.Some? ==> start <= r.value.index < |h|
    {
      ScanTo(h, Penalties(h), start, minDt, ScanEnd(h, start, h[start].timestamp + maxDt))
    }

    /** `bestFit` as the source runs it: one pass from `start` that keeps the
        smallest penalty seen so far and replaces it only on a strictly
        smaller one. */
    method BestFit(h: seq<Sample>, start: nat, minDt: real, maxDt: real) returns (r: Option<Fit>)
      requires minDt <= maxDt
      requires start < |h|
      requires h[start].timestamp + minDt <= h[|h| - 1].timestamp
      ensures r == BestFitOf(h, start, minDt, maxDt)
    {
      var errs := Penalties(h);
      PenaltiesSpec(this, h);
      var smallestError: Option<real> := None;
      var smallestErrorIndex: Option<nat> := None;
      var startTime := h[start].timestamp + minDt;
      var endTime := h[start].timestamp + maxDt;
      var i := start;
      while i < |h| && h[i].timestamp <= endTime
        invariant start <= i <= ScanEnd(h, start, endTime)
        invariant smallestErrorIndex.None? <==> ScanTo(h, errs, start, minDt, i).None?
        invariant smallestError.None? <==> smallestErrorIndex.None?
        invariant smallestErrorIndex.Some? ==> smallestErrorIndex.value < i
        invariant smallestErrorIndex.Some? ==>
          ScanTo(h, errs, start, minDt, i) == Some(Fit(smallestErrorIndex.value, h[smallestErrorIndex.value].timestamp, smallestError.value))
        decreases |h| - i
      {
        if h[i].timestamp < startTime {
          i := i + 1;
          continue;
        }
        var score := ComputeErrorScore(h[i].bodyPos);
        var error := score / 1000.0;
        if smallestError.None? || error < smallestError.value {
          smallestError := Some(error);
          smallestErrorIndex := Some(i);
        }
        i := i + 1;
      }
      if smallestErrorIndex.None? {
        return None;
      }
      r := Some(Fit(smallestErrorIndex.value, h[smallestErrorIndex.value].timestamp, smallestError.value));
    }
  }

  /** The best fit among the samples in `[start, i)` whose timestamp is at
      least `ts[start] + minDt`, judged by the penalties `errs`: the first
      sample of smallest penalty, or `None` when there is no such sample
      (see `ScanToSpec`). */
  function ScanTo(h: seq<Sample>, errs: seq<real>, start: nat, minDt: real, i: nat): (r: Option<Fit>)
    requires |errs| == |h| && start < |h| && start <= i <= |h|
    ensures r.Some? ==> start <= r.value.index < i
    decreases i
  {
    if i == start then None
    else
      var best := ScanTo(h, errs, start, minDt, i - 1);
      var k := i - 1;
      if h[k].timestamp < h[start].timestamp + minDt then best
      else if best.None? || errs[k] < best.value.error then Some(Fit(k, h[k].timestamp, errs[k]))
      else best
  }

  /** Entry `k` of the penalty list is the penalty of sample `k`. */
  lemma {:induction false} PenaltiesSpec(p: NamedPosition, h: seq<Sample>)
    ensures forall k :: 0 <= k < |h| ==> p.Penalties(h)[k] == p.FitError(h[k].bodyPos)
    decreases |h|
  {
    if |h| > 0 {
      var n := |h| - 1;
      PenaltiesSpec(p, h[..n]);
      forall k | 0 <= k < |h| ensures p.Penalties(h)[k] == p.FitError(h[k].bodyPos) {
        if k < n {
          assert h[..n][k] == h[k];
        }
      }
    }
  }

  /** A sample lies in the search window of `start`. */
  predicate InWindow(h: seq<Sample>, start: nat, minDt: real, maxDt: real, k: nat)
    requires start < |h|
  {
    start <= k < |h| && h[start].timestamp + minDt <= h[k].timestamp <= h[start].timestamp + maxDt
  }

  /** The first index at or after `i` whose timestamp exceeds `endTime`: the
      scan stops there even if later samples are back in range. */
  function ScanEnd(h: seq<Sample>, i: nat, endTime: real): (e: nat)
    requires i <= |h|
    ensures i <= e <= |h|
    ensures forall k :: i <= k < e ==> h[k].timestamp <= endTime
    ensures e < |h| ==> h[e].timestamp > endTime
    decreases |h| - i
  {
    if i == |h| || h[i].timestamp > endTime then i else ScanEnd(h, i + 1, endTime)
  }

  /** `ScanTo` is the first minimum over the samples of `[start, i)` that are
      not too early, and `None` exactly when there is none. */
  lemma {:induction false} ScanToSpec(h: seq<Sample>, errs: seq<real>, start: nat, minDt: real, i: nat)
    requires |errs| == |h| && start < |h| && start <= i <= |h|
    ensures var r := ScanTo(h, errs, start, minDt, i);
      r.None? <==> forall k :: start <= k < i ==> h[k].timestamp < h[start].timestamp + minDt
    ensures var r := ScanTo(h, errs, start, minDt, i);
      r.Some? ==>
        && h[r.value.index].timestamp >= h[start].timestamp + minDt
        && r.value.start == h[r.value.index].timestamp
        && r.value.error == errs[r.value.index]
    ensures var r := ScanTo(h, errs, start, minDt, i);
      r.Some? ==> forall k :: start <= k < i && h[k].timestamp >= h[start].timestamp + minDt ==>
        r.value.error <= errs[k]
    ensures var r := ScanTo(h, errs, start, minDt, i);
      r.Some? ==> forall k :: start <= k < r.value.index && h[k].timestamp >= h[start].timestamp + minDt ==>
        r.value.error < errs[k]
    decreases i
  {
    if i > start {
      ScanToSpec(h, errs, start, minDt, i - 1);
    }
  }

  /** `BestFitOf` is `None` exactly when no scanned sample lies in the
      window; otherwise it reports a sample of the window, its timestamp and
      its penalty divided by 1000, that penalty is minimal over the scanned
      window, and every earlier sample of the window scores strictly worse. */
  lemma {:induction false} BestFitOfSpec(p: NamedPosition, h: seq<Sample>, start: nat, minDt: real, maxDt: real)
    requires start < |h|
    ensures var r := p.BestFitOf(h, start, minDt, maxDt);
      var stop := ScanEnd(h, start, h[start].timestamp + maxDt);
      r.None? <==> forall k :: start <= k < stop ==> !InWindow(h, start, minDt, maxDt, k)
    ensures var r := p.BestFitOf(h, start, minDt, maxDt);
      var stop := ScanEnd(h, start, h[start].timestamp + maxDt);
      r.Some? ==>
        && r.value.index < stop
        && InWindow(h, start, minDt, maxDt, r.value.index)
        && r.value.start == h[r.value.index].timestamp
        && r.value.error == p.FitError(h[r.value.index].bodyPos)
    ensures var r := p.BestFitOf(h, start, minDt, maxDt);
      var stop := ScanEnd(h, start, h[start].timestamp + maxDt);
      r.Some? ==> forall k :: 0 <= k < stop && InWindow(h, start, minDt, maxDt, k) ==>
        r.value.error <= p.FitError(h[k].bodyPos)
    ensures var r := p.BestFitOf(h, start, minDt, maxDt);
      r.Some? ==> forall k :: 0 <= k < r.value.index && InWindow(h, start, minDt, maxDt, k) ==>
        r.value.error < p.FitError(h[k].bodyPos)
  {
    var stop := ScanEnd(h, start, h[start].timestamp + maxDt);
    ScannedWindow(h, start, minDt, maxDt, stop);
    ScanToSpec(h, p.Penalties(h), start, minDt, stop);
    PenaltiesSpec(p, h);
  }

  /** With a positive minimum distance a fit lies strictly after the
      sample its window starts at. */
  lemma {:induction false} BestFitAfterStart(p: NamedPosition, h: seq<Sample>, start: nat, minDt: real, maxDt: real)
    requires start < |h| && minDt > 0.0
    ensures var r := p.BestFitOf(h, start, minDt, maxDt);
      r.Some? ==> start < r.value.index < |h|
  {
    BestFitOfSpec(p, h, start, minDt, maxDt);
  }

  /** Before the scan stops, a sample is in the window exactly when it is
      not too early. */
  lemma {:induction false} ScannedWindow(h: seq<Sample>, start: nat, minDt: real, maxDt: real, stop: nat)
    requires start < |h| && stop == ScanEnd(h, start, h[start].timestamp + maxDt)
    ensures forall k :: start <= k < stop ==>
      (InWindow(h, start, minDt, maxDt, k) <==> h[k].timestamp >= h[start].timestamp + minDt)
    ensures forall k :: InWindow(h, start, minDt, maxDt, k) ==> start <= k
  {
  }

  /** On a time-ordered history the scan reaches every sample of the window,
      so `BestFitOf` is the first minimum over the whole window. */
  lemma {:induction false} SortedScanCoversWindow(h: seq<Sample>, start: nat, minDt: real, maxDt: real, k: nat)
    requires Sorted(h) && start < |h|
    requires InWindow(h, start, minDt, maxDt, k)
    ensures k < ScanEnd(h, start, h[start].timestamp + maxDt)
  {
  }

  /** A window that starts no later than the last sample and is empty only
      because of a gap: on a sorted history with `minDt <= maxDt`, the search
      fails exactly when no timestamp falls in the window. */
  lemma {:induction false} SortedBestFitNone(p: NamedPosition, h: seq<Sample>, start: nat, minDt: real, maxDt: real)
    requires Sorted(h) && start < |h|
    ensures p.BestFitOf(h, start, minDt, maxDt).None? <==>
      forall k :: start <= k < |h| ==> !InWindow(h, start, minDt, maxDt, k)
  {
    BestFitOfSpec(p, h, start, minDt, maxDt);
    if p.BestFitOf(h, start, minDt, maxDt).None? {
      forall k | start <= k < |h| && InWindow(h, start, minDt, maxDt, k)
        ensures false
      {
        SortedScanCoversWindow(h, start, minDt, maxDt, k);
      }
    }
  }

  /** Adding up key by key gives the sum of the six per-joint penalties. */
  lemma {:induction false} ErrorScoreAddsUp(p: NamedPosition, b: BodyPosition)
    ensures p.ErrorScore(b) == p.ErrorScores(b).Sum()
  {
    var s := p.ErrorScores(b);
    assert p.RunningScore(b, 1) == s.leftThigh;
    assert p.RunningScore(b, 2) == s.leftThigh + s.rightThigh;
    assert p.RunningScore(b, 3) == s.leftThigh + s.rightThigh + s.leftShin;
    assert p.RunningScore(b, 4) == s.leftThigh + s.rightThigh + s.leftShin + s.rightShin;
    assert p.RunningScore(b, 5) == s.leftThigh + s.rightThigh + s.leftShin + s.rightShin + s.rightFullLeg;
  }

  /** The penalty depends on the six bands only, not on the identity or
      facing direction of the position. */
  lemma {:induction false} ScoreDependsOnBandsOnly(p: NamedPosition, q: NamedPosition, b: BodyPosition)
    requires forall j: Joint :: p.Get(j) == q.Get(j)
    ensures p.ErrorScore(b) == q.ErrorScore(b)
  {
    ErrorScoreAddsUp(p, b);
    ErrorScoreAddsUp(q, b);
    assert p.Get(LeftThigh) == q.Get(LeftThigh) && p.Get(RightThigh) == q.Get(RightThigh);
    assert p.Get(LeftShin) == q.Get(LeftShin) && p.Get(RightShin) == q.Get(RightShin);
    assert p.Get(LeftFullLeg) == q.Get(LeftFullLeg) && p.Get(RightFullLeg) == q.Get(RightFullLeg);
  }

  /** The total penalty of a pose is never negative for a well-formed
      position, and it is zero exactly when every band that carries weight
      contains the pose's angle; zero-weight bands never count. */
  lemma {:induction false} ErrorScoreSpec(p: NamedPosition, b: BodyPosition)
    ensures (forall j: Joint :: p.Get(j).Contains(b.Get(j))) ==> p.ErrorScore(b) == 0.0
    ensures p.WellFormed() ==> p.ErrorScore(b) >= 0.0
    ensures p.WellFormed() ==>
      (p.ErrorScore(b) == 0.0 <==> forall j: Joint :: p.Get(j).weight > 0.0 ==> p.Get(j).Contains(b.Get(j)))
  {
    ErrorScoreAddsUp(p, b);
    ScoresSumSpec(p, b);
  }

  /** The same facts about the sum of the six per-joint penalties. */
  lemma {:induction false} ScoresSumSpec(p: NamedPosition, b: BodyPosition)
    ensures (forall j: Joint :: p.Get(j).Contains(b.Get(j))) ==> p.ErrorScores(b).Sum() == 0.0
    ensures p.WellFormed() ==> p.ErrorScores(b).Sum() >= 0.0
    ensures p.WellFormed() ==>
      (p.ErrorScores(b).Sum() == 0.0 <==> forall j: Joint :: p.Get(j).weight > 0.0 ==> p.Get(j).Contains(b.Get(j)))
  {
    var s := p.ErrorScores(b);
    if forall j: Joint :: p.Get(j).Contains(b.Get(j)) {
      assert p.Get(LeftThigh).Contains(b.Get(LeftThigh)) && p.Get(RightThigh).Contains(b.Get(RightThigh));
      assert p.Get(LeftShin).Contains(b.Get(LeftShin)) && p.Get(RightShin).Contains(b.Get(RightShin));
      assert p.Get(LeftFullLeg).Contains(b.Get(LeftFullLeg)) && p.Get(RightFullLeg).Contains(b.Get(RightFullLeg));
    }
    if p.WellFormed() {
      forall j: Joint ensures s.Get(j) >= 0.0 && (s.Get(j) == 0.0 <==> (p.Get(j).weight > 0.0 ==> p.Get(j).Contains(b.Get(j)))) {
        var r := p.Get(j);
        assert r.min <= r.max && r.weight >= 0.0;
      }
      assert s.Get(LeftThigh) >= 0.0 && s.Get(RightThigh) >= 0.0 && s.Get(LeftShin) >= 0.0;
      assert s.Get(RightShin) >= 0.0 && s.Get(LeftFullLeg) >= 0.0 && s.Get(RightFullLeg) >= 0.0;
    }
  }

  /** The centre pose of a well-formed position is a perfect match. */
  lemma {:induction false} CenterPoseScoresZero(p: NamedPosition, facing: Facing)
    requires p.WellFormed()
    ensures p.ErrorScore(p.CenterPose(facing)) == 0.0
  {
    var b := p.CenterPose(facing);
    forall j: Joint ensures p.Get(j).Contains(b.Get(j)) {
      assert p.Get(j).min <= p.Get(j).max;
    }
    ErrorScoreSpec(p, b);
  }

  /** Scores mirror with the pose: a mirrored position judges a mirrored
      pose exactly as the original judges the original. */
  lemma {:induction false} MirrorKeepsScore(p: NamedPosition, b: BodyPosition)
    ensures p.Mirror().ErrorScore(b.Mirror()) == p.ErrorScore(b)
  {
    ErrorScoreAddsUp(p, b);
    ErrorScoreAddsUp(p.Mirror(), b.Mirror());
  }
}
