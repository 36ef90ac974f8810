/** The on-beat score (src/rhythm.js): how still the dancer's feet are on the
    beats of a target tempo, with the beat offset chosen so that the score is
    best. */
module Rhythm {
  import opened Wrappers
  import Pose

  /** Below this movement a foot counts as perfectly still. */
  const PerfectlyStill: real := 0.1
  /** Above this movement a foot scores nothing. */
  const MaxMovement: real := 0.75
  /** Keypoint index of the left ankle. */
  const LeftAnkle: nat := 27
  /** Keypoint index of the right ankle. */
  const RightAnkle: nat := 28

  /** One sample: its time in milliseconds and the movement of every
      keypoint since the previous sample (`null` when unknown). */
  datatype Sample = Sample(timestamp: real, movement: Option<seq<real>>)

  /** The result of `onBeatScore`: the plain number 0 for no samples, or the
      best score with the offset that achieved it (absent when no candidate
      scored above 0). */
  datatype OnBeat = NoSamples | Best(score: real, offset: Option<real>)

  /** A movement vector, when present, reaches both ankles. */
  predicate HasAnkles(mv: Option<seq<real>>) {
    mv.Some? ==> |mv.value| > RightAnkle
  }

  /** Every sample's movement vector reaches both ankles. */
  predicate WellFormed(s: seq<Sample>) {
    forall k :: 0 <= k < |s| ==> HasAnkles(s[k].movement)
  }

  /** The score of one foot: 50 when still, 0 when moving fast, linear in
      between. */
  function PerFeetScore(m: real): (score: real)
    ensures 0.0 <= score <= 50.0
    ensures m <= PerfectlyStill ==> score == 50.0
    ensures m >= MaxMovement ==> score == 0.0
  {
    if m < PerfectlyStill then 50.0
    else if m > MaxMovement then 0.0
    else 50.0 * (1.0 - (m - PerfectlyStill) / (MaxMovement - PerfectlyStill))
  }

  /** More movement never scores more. */
  lemma {:induction false} PerFeetScoreNonIncreasing(a: real, b: real)
    requires a <= b
    ensures PerFeetScore(b) <= PerFeetScore(a)
  {
    if PerfectlyStill <= a && b <= MaxMovement {
      var d := MaxMovement - PerfectlyStill;
      assert (a - PerfectlyStill) / d <= (b - PerfectlyStill) / d;
    }
  }

  /** Between the two thresholds the score falls by the same amount for the
      same increase in movement. */
  lemma {:induction false} PerFeetScoreLinear(a: real, b: real)
    requires PerfectlyStill <= a <= MaxMovement && PerfectlyStill <= b <= MaxMovement
    ensures PerFeetScore(a) - PerFeetScore(b) == (b - a) * 50.0 / (MaxMovement - PerfectlyStill)
  {
  }

  /** The score of both feet: their sum plus twice the better one, halved. */
  function FeetScore(left: real, right: real): (score: real)
    ensures 0.0 <= score <= 100.0
    ensures left <= PerfectlyStill && right <= PerfectlyStill ==> score == 100.0
    ensures left >= MaxMovement && right >= MaxMovement ==> score == 0.0
  {
    var l := PerFeetScore(left);
    var r := PerFeetScore(right);
    var better := if l >= r then l else r;
    (l + r + 2.0 * better) / 2.0
  }

  /** Swapping the feet does not change the score. */
  lemma {:induction false} FeetScoreSymmetric(left: real, right: real)
    ensures FeetScore(left, right) == FeetScore(right, left)
  {
  }

  /** One still foot is enough for three quarters of the score. */
  lemma {:induction false} OneStillFoot(left: real, right: real)
    requires left <= PerfectlyStill
    ensures 75.0 <= FeetScore(left, right)
  {
  }

  /** The stillness of a sample: 0 without movement data, otherwise the
      score of its two ankles. */
  function StillnessScore(mv: Option<seq<real>>): (score: real)
    requires HasAnkles(mv)
    ensures 0.0 <= score <= 100.0
    ensures mv.None? ==> score == 0.0
  {
    if mv.None? then 0.0 else FeetScore(mv.value[LeftAnkle], mv.value[RightAnkle])
  }

  /** No sample after `left` and before `j` reached the beat after `left`. */
  predicate BeforeNextBeat(s: seq<Sample>, bd: real, left: nat, j: nat)
    requires left < j <= |s|
  {
    forall k :: left < k < j ==> s[k].timestamp < s[left].timestamp + bd
  }

  /** The score of the beat that sample `j` crossed: the stillness of the
      samples on both sides of the beat instant, interpolated (`interpolate`,
      the same blend as `Pose.Lerp`) by how close each lies to it. */
  function BeatScore(s: seq<Sample>, bd: real, left: nat, j: nat): (score: real)
    requires 0.0 < bd && left < j < |s| && WellFormed(s)
    requires BeforeNextBeat(s, bd, left, j) && s[j].timestamp >= s[left].timestamp + bd
    ensures 0.0 <= score <= 100.0
    ensures var before := StillnessScore(s[j - 1].movement);
            var after := StillnessScore(s[j].movement);
            Pose.Min(before, after) <= score <= Pose.Max(before, after)
  {
    var nextBeat := s[left].timestamp + bd;
    var before := StillnessScore(s[j - 1].movement);
    var after := StillnessScore(s[j].movement);
    var earlyOffset := nextBeat - s[j - 1].timestamp;
    var lateOffset := s[j].timestamp - nextBeat;
    BeatRatioInRange(s, bd, left, j);
    Pose.Lerp(before, after, lateOffset / (earlyOffset + lateOffset))
  }

  /** The beat instant lies strictly after the sample before the crossing
      sample and at or before the crossing sample, so the interpolation
      ratio lies in [0, 1). */
  lemma {:induction false} BeatRatioInRange(s: seq<Sample>, bd: real, left: nat, j: nat)
    requires 0.0 < bd && left < j < |s|
    requires BeforeNextBeat(s, bd, left, j) && s[j].timestamp >= s[left].timestamp + bd
    ensures var nextBeat := s[left].timestamp + bd;
            var earlyOffset := nextBeat - s[j - 1].timestamp;
            var lateOffset := s[j].timestamp - nextBeat;
            earlyOffset > 0.0 && lateOffset >= 0.0 &&
            0.0 <= lateOffset / (earlyOffset + lateOffset) < 1.0
  {
    var nextBeat := s[left].timestamp + bd;
    var earlyOffset := nextBeat - s[j - 1].timestamp;
    var lateOffset := s[j].timestamp - nextBeat;
    if j - 1 > left {
      assert s[j - 1].timestamp < nextBeat;
    }
    RatioBelowOne(lateOffset, earlyOffset + lateOffset);
  }

  /** A part of a positive whole is a fraction in [0, 1). */
  lemma {:induction false} RatioBelowOne(x: real, y: real)
    requires 0.0 <= x < y
    ensures 0.0 <= x / y < 1.0
  {
    assert x / y * y == x;
  }

  /** The walk over the samples after candidate start `i`: the running total
      and beat count, given the last beat's sample `left` and the next sample
      `j`. Each sample that reaches one beat duration after `left` adds the
      score of that beat and becomes the new `left`. */
  function Beats(s: seq<Sample>, bd: real, left: nat, j: nat, total: real, numBeats: nat): (r: (real, nat))
    requires 0.0 < bd && left < j <= |s| && WellFormed(s)
    requires BeforeNextBeat(s, bd, left, j)
    ensures r.1 >= numBeats
    decreases |s| - j
  {
    if j == |s| then (total, numBeats)
    else if s[j].timestamp >= s[left].timestamp + bd then
      Beats(s, bd, j, j + 1, total + BeatScore(s, bd, left, j), numBeats + 1)
    else
      Beats(s, bd, left, j + 1, total, numBeats)
  }

  /** The walk keeps the total between 0 and 100 per beat. */
  lemma {:induction false} BeatsBounded(s: seq<Sample>, bd: real, left: nat, j: nat, total: real, numBeats: nat)
    requires 0.0 < bd && left < j <= |s| && WellFormed(s)
    requires BeforeNextBeat(s, bd, left, j)
    requires 0.0 <= total <= 100.0 * numBeats as real
    ensures var r := Beats(s, bd, left, j, total, numBeats);
            0.0 <= r.0 <= 100.0 * r.1 as real
    decreases |s| - j
  {
    if j == |s| {
    } else if s[j].timestamp >= s[left].timestamp + bd {
      BeatsBounded(s, bd, j, j + 1, total + BeatScore(s, bd, left, j), numBeats + 1);
    } else {
      BeatsBounded(s, bd, left, j + 1, total, numBeats);
    }
  }

  /** The score of starting the beats at sample `i`: the mean score over
      the beats, the first being sample `i` itself. */
  function CandidateScore(s: seq<Sample>, bd: real, i: nat): (score: real)
    requires 0.0 < bd && i < |s| && WellFormed(s)
    ensures 0.0 <= score <= 100.0
  {
    var still := StillnessScore(s[i].movement);
    BeatsBounded(s, bd, i, i + 1, still, 1);
    var r := Beats(s, bd, i, i + 1, still, 1);
    MeanBounded(r.0, r.1);
    r.0 / r.1 as real
  }

  /** A total of at most 100 per beat averages to at most 100. */
  lemma {:induction false} MeanBounded(total: real, n: nat)
    requires 0 < n && 0.0 <= total <= 100.0 * n as real
    ensures 0.0 <= total / n as real <= 100.0
  {
    assert total / n as real * n as real == total;
  }

  /** The best of the candidates starting at samples `0 .. n-1`: a candidate
      replaces the best so far only when it scores strictly more, starting
      from score 0 without an offset. */
  function BestUpTo(s: seq<Sample>, bd: real, n: nat): (b: (real, Option<real>))
    requires 0.0 < bd && n <= |s| && WellFormed(s)
    ensures 0.0 <= b.0 <= 100.0
  {
    if n == 0 then (0.0, None)
    else
      var prev := BestUpTo(s, bd, n - 1);
      var c := CandidateScore(s, bd, n - 1);
      if c > prev.0 then (c, Some(s[n - 1].timestamp - s[0].timestamp)) else prev
  }

  /** The best is the highest candidate score (or 0), and its offset is
      that of the earliest candidate reaching it; there is no offset exactly
      when no candidate scores above 0. */
  lemma {:induction false} BestUpToSpec(s: seq<Sample>, bd: real, n: nat)
    requires 0.0 < bd && n <= |s| && WellFormed(s)
    ensures var b := BestUpTo(s, bd, n);
            (forall k :: 0 <= k < n ==> CandidateScore(s, bd, k) <= b.0) &&
            (b.1.None? <==> b.0 == 0.0) &&
            (b.1.Some? ==> exists k :: 0 <= k < n && b.1.value == s[k].timestamp - s[0].timestamp &&
                                  b.0 == CandidateScore(s, bd, k) &&
                                  forall e :: 0 <= e < k ==> CandidateScore(s, bd, e) < b.0)
  {
    if n > 0 {
      BestUpToSpec(s, bd, n - 1);
    }
  }

  /** The first index at or after `i` whose sample reaches time `t`, or |s|. */
  function FirstReaching(s: seq<Sample>, t: real, i: nat): (k: nat)
    requires i <= |s|
    ensures i <= k <= |s|
    ensures forall e :: i <= e < k ==> s[e].timestamp < t
    ensures k < |s| ==> s[k].timestamp >= t
    decreases |s| - i
  {
    if i == |s| || s[i].timestamp >= t then i else FirstReaching(s, t, i + 1)
  }

  /** What `onBeatScore` computes: 0 for no samples, otherwise the best over
      the candidates that start less than one beat after the first sample.
      A negative tempo gives a negative beat duration, so no candidate
      qualifies and the result is the initial best, score 0 without an
      offset. */
  function OnBeatSpec(s: seq<Sample>, bpm: real): (r: OnBeat)
    requires bpm != 0.0 && WellFormed(s)
    ensures r.NoSamples? <==> |s| == 0
    ensures bpm < 0.0 && |s| > 0 ==> r == Best(0.0, None)
  {
    if |s| == 0 then NoSamples
    else
      var bd := 60000.0 / bpm;
      var n := FirstReaching(s, s[0].timestamp + bd, 0);
      if n == 0 then Best(0.0, None)
      else
        var b := BestUpTo(s, bd, n);
        Best(b.0, b.1)
  }

  /** The time-ordered samples. */
  predicate Sorted(s: seq<Sample>) {
    forall a, b :: 0 <= a < b < |s| ==> s[a].timestamp <= s[b].timestamp
  }

  /** The result's score lies in [0, 100]; with time-ordered samples its
      offset lies in [0, beat duration), and it is the offset of the first
      candidate with the best score. */
  lemma {:induction false} OnBeatSpecSpec(s: seq<Sample>, bpm: real)
    requires bpm != 0.0 && WellFormed(s) && |s| > 0
    ensures var r := OnBeatSpec(s, bpm);
            0.0 <= r.score <= 100.0 &&
            (r.offset.None? <==> r.score == 0.0) &&
            (r.offset.Some? ==> r.offset.value < 60000.0 / bpm) &&
            (r.offset.Some? && Sorted(s) ==> 0.0 <= r.offset.value)
  {
    var bd := 60000.0 / bpm;
    var n := FirstReaching(s, s[0].timestamp + bd, 0);
    if n > 0 {
      assert s[0].timestamp < s[0].timestamp + bd;
      BestUpToSpec(s, bd, n);
      var b := BestUpTo(s, bd, n);
      if b.1.Some? {
        var k :| 0 <= k < n && b.1.value == s[k].timestamp - s[0].timestamp;
        assert s[k].timestamp < s[0].timestamp + bd;
        if Sorted(s) {
          assert s[0].timestamp <= s[k].timestamp;
        }
      }
    }
  }

  /** The inner loop: the score of the candidate starting at sample `i`. */
  method ScoreCandidate(s: seq<Sample>, bd: real, i: nat) returns (score: real)
    requires 0.0 < bd && i < |s| && WellFormed(s)
    ensures score == CandidateScore(s, bd, i)
  {
    var total := StillnessScore(s[i].movement);
    var numBeats: nat := 1;
    var left := i;
    var j := i + 1;
    while j < |s|
      invariant i <= left < j <= |s|
      invariant BeforeNextBeat(s, bd, left, j)
      invariant Beats(s, bd, left, j, total, numBeats) == Beats(s, bd, i, i + 1, StillnessScore(s[i].movement), 1)
      decreases |s| - j
    {
      var nextBeat := s[left].timestamp + bd;
      if s[j].timestamp >= nextBeat {
        var before := StillnessScore(s[j - 1].movement);
        var after := StillnessScore(s[j].movement);
        var earlyOffset := nextBeat - s[j - 1].timestamp;
        var lateOffset := s[j].timestamp - nextBeat;
        BeatRatioInRange(s, bd, left, j);
        total := total + Pose.Lerp(before, after, lateOffset / (earlyOffset + lateOffset));
        numBeats := numBeats + 1;
        left := j;
      }
      j := j + 1;
    }
    score := total / numBeats as real;
  }

  /** `onBeatScore`: tries every sample before the first beat as the start of
      the beats and keeps the first best. The source reads past the end when
      no sample reaches one beat after the first, so that is required; a
      tempo of 0 gives an infinite beat and reads past the end as well. */
  method OnBeatScore(s: seq<Sample>, bpm: real) returns (r: OnBeat)
    requires bpm != 0.0 && WellFormed(s)
    requires |s| > 0 ==> exists k :: 0 <= k < |s| && s[k].timestamp >= s[0].timestamp + 60000.0 / bpm
    ensures r == OnBeatSpec(s, bpm)
  {
    if |s| == 0 {
      return NoSamples;
    }
    var bd := 60000.0 / bpm;
    var start := s[0].timestamp;
    ghost var n := FirstReaching(s, start + bd, 0);
    assert n < |s|;
    var bestScore := 0.0;
    var bestOffset: Option<real> := None;
    var i := 0;
    while s[i].timestamp < start + bd
      invariant i <= n
      invariant i == 0 ==> bestScore == 0.0 && bestOffset == None
      invariant i > 0 ==> 0.0 < bd && (bestScore, bestOffset) == BestUpTo(s, bd, i)
      decreases n - i
    {
      assert s[0].timestamp < start + bd;
      var candidate := ScoreCandidate(s, bd, i);
      if candidate > bestScore {
        bestScore, bestOffset := candidate, Some(s[i].timestamp - start);
      }
      i := i + 1;
    }
    r := Best(bestScore, bestOffset);
  }
}
