/** Dance moves: a cyclic sequence of target positions, one per beat, and
    the beat-by-beat matching of a move against a recording
    (src/moves.js, class Move). */
module Moves {
  import opened Wrappers
  import opened Pose
  import opened NamedPositions
  import opened Catalog
  import opened Matching

  const RunningManIds: seq<string> := ["right-forward", "left-up", "left-forward", "right-up"]
  const DoubleRunningManIds: seq<string> :=
    ["right-forward", "left-up", "right-forward", "left-up",
     "left-forward", "right-up", "left-forward", "right-up"]
  const ReverseRunningManIds: seq<string> := ["right-forward", "right-up", "left-forward", "left-up"]
  const DoubleTurnRunningManIds: seq<string> :=
    ["right-forward", "left-up", "left-forward", "right-up",
     "left-forward", "right-up",
     "right-forward", "left-up",
     "left-forward", "right-up",
     "right-forward", "left-up", "right-forward", "left-up",
     "left-forward", "right-up"]

  /** Updating a key twice keeps only the second value. */
  lemma {:induction false} UpdateTwice<K, V>(m: map<K, V>, k: K, a: V, b: V)
    ensures m[k := a][k := b] == m[k := b]
  {
  }

  /** Writing back a key's own value changes nothing. */
  lemma {:induction false} UpdateSame<K, V>(m: map<K, V>, k: K)
    requires k in m
    ensures m[k := m[k]] == m
  {
  }

  class Move {
    /** The move's name, also the key of its id list in `steps`. */
    var name: string
    /** The positions to hit, one per beat (beats and off-beats), repeating. */
    var onBeat: seq<NamedPosition>
    /** The catalog ids of `onBeat`, filed under the move's name. */
    var steps: map<string, seq<string>>

    /** `steps[name]` lists the catalog ids of `onBeat`, in order. */
    ghost predicate Valid()
      reads this
    {
      && name in steps
      && |steps[name]| == |onBeat|
      && forall k :: 0 <= k < |onBeat| ==> steps[name][k] in Positions && onBeat[k] == Positions[steps[name][k]]
    }

    /** A move without positions. */
    constructor(name: string)
      ensures this.name == name && onBeat == [] && steps == map[name := []]
      ensures Valid()
    {
      this.name := name;
      onBeat := [];
      steps := map[name := []];
    }

    /** Appends a catalog position to the move and its id to the id list. */
    method Then(id: string)
      requires Valid() && id in Positions
      modifies this
      ensures name == old(name)
      ensures onBeat == old(onBeat) + [Positions[id]]
      ensures steps == old(steps)[name := old(steps[name]) + [id]]
      ensures Valid()
    {
      onBeat := onBeat + [Positions[id]];
      steps := steps[name := steps[name] + [id]];
    }

    /** Appends several catalog positions in order. */
    method ThenAll(ids: seq<string>)
      requires Valid() && forall k :: 0 <= k < |ids| ==> ids[k] in Positions
      modifies this
      ensures name == old(name) && Valid()
      ensures steps == old(steps)[name := old(steps[name]) + ids]
      ensures onBeat == old(onBeat) + seq(|ids|, k requires 0 <= k < |ids| => Positions[ids[k]])
    {
      ghost var before := old(steps[name]);
      var n := 0;
      assert before + ids[..0] == before;
      UpdateSame(old(steps), name);
      while n < |ids|
        invariant 0 <= n <= |ids|
        invariant name == old(name) && Valid()
        invariant steps == old(steps)[name := before + ids[..n]]
        invariant onBeat == old(onBeat) + seq(n, k requires 0 <= k < n => Positions[ids[k]])
      {
        Then(ids[n]);
        assert before + ids[..n + 1] == before + ids[..n] + [ids[n]];
        UpdateTwice(old(steps), name, before + ids[..n], before + ids[..n + 1]);
        n := n + 1;
      }
      assert ids[..n] == ids;
    }

    /** The classic: right foot forward, left knee up, left foot forward,
        right knee up. */
    static method RunningMan() returns (m: Move)
      ensures fresh(m) && m.Valid()
      ensures m.name == "Running Man" && m.steps[m.name] == RunningManIds
      ensures m.steps == map[m.name := RunningManIds]
    {
      m := new Move("Running Man");
      m.ThenAll(RunningManIds);
    }

    static method DoubleRunningMan() returns (m: Move)
      ensures fresh(m) && m.Valid()
      ensures m.name == "Double Running Man" && m.steps[m.name] == DoubleRunningManIds
      ensures m.steps == map[m.name := DoubleRunningManIds]
    {
      m := new Move("Double Running Man");
      m.ThenAll(DoubleRunningManIds);
    }

    /** The reverse running man; the source files it under the name
        "Double Running Man" as well. */
    static method ReverseRunningMan() returns (m: Move)
      ensures fresh(m) && m.Valid()
      ensures m.name == "Double Running Man" && m.steps[m.name] == ReverseRunningManIds
      ensures m.steps == map[m.name := ReverseRunningManIds]
    {
      m := new Move("Double Running Man");
      m.ThenAll(ReverseRunningManIds);
    }

    static method DoubleTurnRunningMan() returns (m: Move)
      ensures fresh(m) && m.Valid()
      ensures m.name == "Double Turn Running Man" && m.steps[m.name] == DoubleTurnRunningManIds
      ensures m.steps == map[m.name := DoubleTurnRunningManIds]
    {
      m := new Move("Double Turn Running Man");
      m.ThenAll(DoubleTurnRunningManIds);
    }

    /** `errorScore(pos, i)`: the penalty of the target of beat `i`, the
        entry `i % |onBeat|`, divided by 1000. */
    function ErrorScore(b: BodyPosition, i: nat): (e: real)
      reads this
      requires |onBeat| > 0
      ensures e == onBeat[i % |onBeat|].FitError(b)
    {
      BeatIsRemainder(onBeat, i);
      Beat(onBeat, i).ErrorScore(b) / 1000.0
    }

    /** `errorScores(pos, i)`: the per-joint penalties of the target of beat `i`. */
    function ErrorScores(b: BodyPosition, i: nat): (s: Scores)
      reads this
      requires |onBeat| > 0
      ensures s == onBeat[i % |onBeat|].ErrorScores(b)
    {
      BeatIsRemainder(onBeat, i);
      Beat(onBeat, i).ErrorScores(b)
    }

    /** `diff(pos, i)`: the correction towards the target of beat `i`. */
    function Diff(b: BodyPosition, i: nat): (d: BodyPosition)
      reads this
      requires |onBeat| > 0
      ensures d == onBeat[i % |onBeat|].Diff(b)
    {
      BeatIsRemainder(onBeat, i);
      Beat(onBeat, i).Diff(b)
    }

    /** Searches the window of `start` for the position of beat `beat`. */
    method BestFit(h: seq<Sample>, start: nat, beat: nat, minDt: real, maxDt: real) returns (r: Option<Fit>)
      requires |onBeat| > 0
      requires minDt <= maxDt && start < |h|
      requires h[start].timestamp + minDt <= h[|h| - 1].timestamp
      ensures r == Beat(onBeat, beat).BestFitOf(h, start, minDt, maxDt)
      ensures r == onBeat[beat % |onBeat|].BestFitOf(h, start, minDt, maxDt)
    {
      BeatIsRemainder(onBeat, beat);
      r := Beat(onBeat, beat).BestFit(h, start, minDt, maxDt);
    }

    /** `matchToRecording`: finds the first position anywhere in the first
        cycle, then each following beat in the window after the previous
        match, moving the search pointer forward one sample at a time while
        a window is empty. `from[k]` is the pointer whose window held match
        `k`; the scan ended at `stop`. */
    method MatchToRecording(h: seq<Sample>, minDt: real, maxDt: real)
      returns (r: Option<MatchResult>, ghost from: seq<nat>, ghost stop: nat)
      requires |h| > 0 && |onBeat| > 0 ==> 0.0 < minDt <= maxDt && h[0].timestamp <= h[|h| - 1].timestamp
      ensures r.None? <==> |h| == 0 || |onBeat| == 0
      ensures r.Some? ==> Matched(onBeat, h, minDt, maxDt, r.value, from, stop)
    {
      if |h| == 0 {
        return None, [], 0;
      }
      if |onBeat| == 0 {
        return None, [], 0;
      }

      var f := FirstMatch(h, maxDt);

      var hack, errors, frames, deltas;
      hack, errors, frames, deltas, from, stop := FollowBeats(h, minDt, maxDt, f);
      var averageError := Sum(errors) / (|errors| as real);
      r := Some(MatchResult(f.start - h[0].timestamp, f.start, |frames|, averageError, frames, errors, deltas, hack));
      BeatsMatched(onBeat, h, minDt, maxDt, r.value, from, stop);
    }

    /** The beat-by-beat part of `matchToRecording`: starting from the first
        match `f`, looks for the position of each following beat after the
        previous match, until a search comes back empty or the last match
        leaves no room for another. */
    method FollowBeats(h: seq<Sample>, minDt: real, maxDt: real, f: Fit)
      returns (hack: seq<Detection>, errors: seq<real>, frames: seq<Sample>, deltas: seq<real>,
               ghost from: seq<nat>, ghost stop: nat)
      requires |h| > 0 && |onBeat| > 0 && 0.0 < minDt <= maxDt
      requires Beat(onBeat, 0).BestFitOf(h, 0, 0.0, FirstReach(onBeat, maxDt)) == Some(f)
      ensures Beats(onBeat, h, minDt, maxDt, hack, errors, frames, deltas, from)
      ensures hack[0].start == f.start
      ensures hack[|hack| - 1].index <= stop < |h|
      ensures h[stop].timestamp + minDt >= h[|h| - 1].timestamp
      ensures forall q :: hack[|hack| - 1].index <= q < stop ==> h[q].timestamp + minDt < h[|h| - 1].timestamp
      ensures Misses(Beat(onBeat, |hack|), h, hack[|hack| - 1].index, stop, minDt, maxDt)
    {
      BeatsFirst(onBeat, h, minDt, maxDt, f);
      hack := [Detection(f.start, f.index, f.error, Beat(onBeat, 0).Bind(h[f.index].bodyPos.facingDirection), Some(0.0))];
      errors := [f.error];
      frames := [h[f.index]];
      deltas := [];
      from := [0];

      var i := f.index;
      var endOfHistory := h[|h| - 1].timestamp;
      var beat := 1;
      while h[i].timestamp + minDt < endOfHistory
        invariant 1 <= beat == |hack| == |errors| == |frames| == |from| && |deltas| == beat - 1
        invariant i == hack[beat - 1].index < |h|
        invariant Beats(onBeat, h, minDt, maxDt, hack, errors, frames, deltas, from)
        invariant hack[0].start == f.start
        decreases |h| - i
      {
        var next;
        next, i := NextMatch(h, i, beat, minDt, maxDt);
        if next.None? {
          break;
        }
        var n := next.value;
        hack, errors, frames, deltas, from := Record(h, minDt, maxDt, hack, errors, frames, deltas, from, i - 1, n);
        i := n.index;
        beat := beat + 1;
      }
      stop := i;
    }

    /** Records match `n` of the next beat, found in the window of pointer
        `p`: its error, its distance to the previous match, its frame and
        the detection with the beat's target bound to the frame's facing. */
    method Record(h: seq<Sample>, minDt: real, maxDt: real, hack: seq<Detection>, errors: seq<real>,
                  frames: seq<Sample>, deltas: seq<real>, ghost from: seq<nat>, ghost p: nat, n: Fit)
      returns (hack': seq<Detection>, errors': seq<real>, frames': seq<Sample>, deltas': seq<real>, ghost from': seq<nat>)
      requires |onBeat| > 0
      requires Beats(onBeat, h, minDt, maxDt, hack, errors, frames, deltas, from)
      requires hack[|hack| - 1].index <= p < n.index < |h|
      requires Beat(onBeat, |hack|).BestFitOf(h, p, minDt, maxDt) == Some(n)
      requires Misses(Beat(onBeat, |hack|), h, hack[|hack| - 1].index, p, minDt, maxDt)
      requires forall q :: hack[|hack| - 1].index <= q <= p ==> h[q].timestamp + minDt < h[|h| - 1].timestamp
      ensures Beats(onBeat, h, minDt, maxDt, hack', errors', frames', deltas', from')
      ensures |hack'| == |hack| + 1 && hack'[0] == hack[0] && hack'[|hack|].index == n.index
      ensures hack'[|hack|].start == n.start
      ensures hack'[..|hack|] == hack && hack'[|hack|].error == n.error
      ensures errors' == errors + [n.error] && frames' == frames + [h[n.index]]
      ensures deltas' == deltas + [n.start - hack[|hack| - 1].start]
      ensures hack' == hack + [Detection(n.start, n.index, n.error, Beat(onBeat, |hack|).Bind(h[n.index].bodyPos.facingDirection),
                                         Some(n.start - hack[|hack| - 1].start))]
      ensures from' == from + [p]
    {
      BeatsNext(onBeat, h, minDt, maxDt, hack, errors, frames, deltas, from, p, n);
      var prev := hack[|hack| - 1].start;
      errors' := errors + [n.error];
      deltas' := deltas + [n.start - prev];
      frames' := frames + [h[n.index]];
      hack' := hack + [Detection(n.start, n.index, n.error, Beat(onBeat, |hack|).Bind(h[n.index].bodyPos.facingDirection), Some(n.start - prev))];
      from' := from + [p];
    }

    /** The search for the first position: the window starts at the first
        sample and reaches `maxDt` per position of the move, growing by a
        fifth while it finds nothing; it holds the first sample, so the first
        search already succeeds. */
    method FirstMatch(h: seq<Sample>, maxDt: real) returns (f: Fit)
      requires |h| > 0 && |onBeat| > 0 && maxDt >= 0.0 && h[0].timestamp <= h[|h| - 1].timestamp
      ensures Beat(onBeat, 0).BestFitOf(h, 0, 0.0, FirstReach(onBeat, maxDt)) == Some(f)
    {
      var first: Option<Fit> := None;
      var totalTime := h[|h| - 1].timestamp - h[0].timestamp;
      var firstMaxDt := FirstReach(onBeat, maxDt);
      ghost var reach := firstMaxDt;
      while first.None?
        invariant first.None? ==> firstMaxDt == reach
        invariant first.Some? ==> first == Beat(onBeat, 0).BestFitOf(h, 0, 0.0, reach)
        decreases if first.None? then 1 else 0
      {
        first := BestFitFirstWindow(h, firstMaxDt);
        if firstMaxDt > totalTime && first.None? {
          assert false;
        }
        firstMaxDt := firstMaxDt * 1.2;
      }
      f := first.value;
    }

    /** One search of the first window. */
    method BestFitFirstWindow(h: seq<Sample>, reach: real) returns (r: Option<Fit>)
      requires |h| > 0 && |onBeat| > 0 && reach >= 0.0 && h[0].timestamp <= h[|h| - 1].timestamp
      ensures r == Beat(onBeat, 0).BestFitOf(h, 0, 0.0, reach) && r.Some?
    {
      FirstWindowHoldsFirstSample(Beat(onBeat, 0), h, reach);
      r := BestFit(h, 0, 0, 0.0, reach);
    }

    /** The search for the position of beat `beat` after the match at
        sample `i0`: one window after the other, moving the pointer forward
        one sample at a time, while nothing is found and the pointer's
        window can still reach past the end of the history. On success the
        pointer has moved one past the window that held the match. */
    method NextMatch(h: seq<Sample>, i0: nat, beat: nat, minDt: real, maxDt: real) returns (next: Option<Fit>, i: nat)
      requires |onBeat| > 0 && i0 < |h| && 0.0 < minDt <= maxDt
      ensures i0 <= i < |h|
      ensures forall q :: i0 <= q < i ==> h[q].timestamp + minDt < h[|h| - 1].timestamp
      ensures next.None? ==> h[i].timestamp + minDt >= h[|h| - 1].timestamp && Misses(Beat(onBeat, beat), h, i0, i, minDt, maxDt)
      ensures next.Some? ==> i0 < i && next == Beat(onBeat, beat).BestFitOf(h, i - 1, minDt, maxDt)
      ensures next.Some? ==> i - 1 < next.value.index < |h| && Misses(Beat(onBeat, beat), h, i0, i - 1, minDt, maxDt)
    {
      var endOfHistory := h[|h| - 1].timestamp;
      ghost var target := Beat(onBeat, beat);
      next := None;
      i := i0;
      while next.None? && h[i].timestamp + minDt < endOfHistory
        invariant i0 <= i < |h|
        invariant forall q :: i0 <= q < i ==> h[q].timestamp + minDt < endOfHistory
        invariant next.None? ==> Misses(target, h, i0, i, minDt, maxDt)
        invariant next.Some? ==> i0 < i && next == target.BestFitOf(h, i - 1, minDt, maxDt) && Misses(target, h, i0, i - 1, minDt, maxDt)
        decreases |h| - i, if next.None? then 1 else 0
      {
        next := BestFit(h, i, beat, minDt, maxDt);
        if next.None? {
          MissesExtend(target, h, i0, i, minDt, maxDt);
        }
        i := i + 1;
      }
      if next.Some? {
        BestFitAfterStart(target, h, i - 1, minDt, maxDt);
      }
    }
  }
}
