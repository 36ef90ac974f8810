/** What matching a move against a recording computes (src/moves.js,
    `Move.matchToRecording`), stated on the move's list of target positions:
    the lists the matcher builds, entry by entry, and the facts they are
    built from one beat at a time. */
module Matching {
  import opened Wrappers
  import opened Pose
  import opened NamedPositions

  /** One matched position as the analysis reports it: when and where in
      the history it was found, its penalty, the target position bound to
      the sample's facing direction, and (for matched moves) the time since
      the previous match. */
  datatype Detection = Detection(
    start: real, index: nat, error: real, position: NamedPosition, delta: Option<real>)

  /** The outcome of `matchToRecording`. */
  datatype MatchResult = MatchResult(
    offset: real, start: real, numMoves: nat, averageError: real,
    frames: seq<Sample>, errors: seq<real>, deltas: seq<real>, positions: seq<Detection>)

  /** The sum of a list of numbers, added from the left. */
  function Sum(s: seq<real>): real {
    if |s| == 0 then 0.0 else Sum(s[..|s| - 1]) + s[|s| - 1]
  }

  /** The position to hit on beat `i`: the beats cycle through `onBeat`,
      so beat `i` takes entry `i % |onBeat|` (`BeatIsRemainder`); counted
      down cycle by cycle here, which keeps the remainder out of proofs. */
  function Beat(onBeat: seq<NamedPosition>, i: nat): (p: NamedPosition)
    requires |onBeat| > 0
    ensures p in onBeat
    decreases i
  {
    if i < |onBeat| then onBeat[i] else Beat(onBeat, i - |onBeat|)
  }

  /** Beat `i` is entry `i % |onBeat|` of the move, as the source indexes it. */
  lemma {:induction false} BeatIsRemainder(onBeat: seq<NamedPosition>, i: nat)
    requires |onBeat| > 0
    ensures Beat(onBeat, i) == onBeat[i % |onBeat|]
    decreases i
  {
    var n := |onBeat|;
    if i < n {
      DivModUnique(i, n, 0, i);
    } else {
      BeatIsRemainder(onBeat, i - n);
      assert i - n == ((i - n) / n) * n + (i - n) % n;
      DivModUnique(i, n, (i - n) / n + 1, (i - n) % n);
    }
  }

  /** The beats come round again after a full cycle. */
  lemma {:induction false} BeatPeriodic(onBeat: seq<NamedPosition>, i: nat)
    requires |onBeat| > 0
    ensures Beat(onBeat, i + |onBeat|) == Beat(onBeat, i)
  {
  }

  /** Division with remainder has one answer. */
  lemma {:induction false} DivModUnique(x: int, n: int, q: int, r: int)
    requires n > 0 && 0 <= r < n && x == q * n + r
    ensures x % n == r && x / n == q
  {
    var q', r' := x / n, x % n;
    assert x == q' * n + r';
    assert (q - q') * n == q * n - q' * n;
    if q' < q {
      MulAtLeast(q - q', n);
    } else if q' > q {
      MulAtLeast(q' - q, n);
    }
  }

  lemma {:induction false} MulAtLeast(a: int, n: int)
    requires a >= 1 && n > 0
    ensures a * n >= n
  {
  }

  /** How far the first window initially reaches: `maxDt` for each position
      of the move. */
  function FirstReach(onBeat: seq<NamedPosition>, maxDt: real): (reach: real)
    ensures maxDt >= 0.0 ==> reach >= 0.0
  {
    NonNegativeProduct(maxDt, |onBeat|);
    maxDt * (|onBeat| as real)
  }

  lemma {:induction false} NonNegativeProduct(x: real, n: nat)
    ensures x >= 0.0 ==> x * (n as real) >= 0.0
  {
  }

  /** No window whose pointer lies in `[lo, hi)` holds a fit. */
  ghost predicate Misses(p: NamedPosition, h: seq<Sample>, lo: nat, hi: nat, minDt: real, maxDt: real) {
    forall q :: lo <= q < hi && q < |h| ==> p.BestFitOf(h, q, minDt, maxDt).None?
  }

  /** One more empty window extends a run of empty windows. */
  lemma {:induction false} MissesExtend(p: NamedPosition, h: seq<Sample>, lo: nat, hi: nat, minDt: real, maxDt: real)
    requires Misses(p, h, lo, hi, minDt, maxDt) && lo <= hi < |h|
    requires p.BestFitOf(h, hi, minDt, maxDt).None?
    ensures Misses(p, h, lo, hi + 1, minDt, maxDt)
  {
  }

  /** Entry `k` of the lists: the detection reports a sample of the history,
      that sample's frame and the detection's error, and the target of beat
      `k` bound to the sample's facing direction. */
  ghost predicate EntryOk(onBeat: seq<NamedPosition>, h: seq<Sample>, k: nat, d: Detection, frame: Sample, error: real)
    requires |onBeat| > 0
  {
    && d.index < |h|
    && frame == h[d.index]
    && error == d.error
    && d.position == Beat(onBeat, k).Bind(h[d.index].bodyPos.facingDirection)
  }

  /** The first match: the best fit of the first position in the first
      window, which starts at sample 0, has no minimum distance and reaches
      `FirstReach`. */
  ghost predicate FirstOk(onBeat: seq<NamedPosition>, h: seq<Sample>, maxDt: real, d: Detection)
    requires |onBeat| > 0 && |h| > 0
  {
    && d.delta == Some(0.0)
    && Beat(onBeat, 0).BestFitOf(h, 0, 0.0, FirstReach(onBeat, maxDt)) == Some(Fit(d.index, d.start, d.error))
  }

  /** Match `k` after match `prev`: found in the window of pointer `p`, with
      every pointer from the previous match up to `p` finding nothing, every
      pointer from the previous match up to and including `p` passing the
      loop guard (its window can still end before the end of the history),
      and `delta` the time since the previous match. */
  ghost predicate StepOk(onBeat: seq<NamedPosition>, h: seq<Sample>, minDt: real, maxDt: real, k: nat,
                         prev: Detection, d: Detection, delta: real, p: nat)
    requires |onBeat| > 0
  {
    && prev.index <= p < d.index < |h|
    && Beat(onBeat, k).BestFitOf(h, p, minDt, maxDt) == Some(Fit(d.index, d.start, d.error))
    && Misses(Beat(onBeat, k), h, prev.index, p, minDt, maxDt)
    && (forall q :: prev.index <= q <= p ==> h[q].timestamp + minDt < h[|h| - 1].timestamp)
    && delta == d.start - prev.start
    && d.delta == Some(delta)
  }

  /** What the lists built beat by beat hold, entry by entry; `from[k]` is
      the pointer whose window held match `k`. */
  ghost predicate Beats(onBeat: seq<NamedPosition>, h: seq<Sample>, minDt: real, maxDt: real, hack: seq<Detection>,
                        errors: seq<real>, frames: seq<Sample>, deltas: seq<real>, from: seq<nat>)
    requires |onBeat| > 0
  {
    && |h| > 0
    && 1 <= |hack| == |errors| == |frames| == |from| && |deltas| == |hack| - 1
    && from[0] == 0
    && FirstOk(onBeat, h, maxDt, hack[0])
    && (forall k :: 0 <= k < |hack| ==> EntryOk(onBeat, h, k, hack[k], frames[k], errors[k]))
    && (forall k :: 1 <= k < |hack| ==>
          StepOk(onBeat, h, minDt, maxDt, k, hack[k - 1], hack[k], deltas[k - 1], from[k]))
  }

  /** A found match: the lists satisfy `Beats`, the summary fields are
      computed from them, and the search ended at `stop`, where from the
      last match on every pointer whose window could still reach the end of
      the history found nothing. */
  ghost predicate Matched(onBeat: seq<NamedPosition>, h: seq<Sample>, minDt: real, maxDt: real,
                          m: MatchResult, from: seq<nat>, stop: nat)
    requires |onBeat| > 0
  {
    && Beats(onBeat, h, minDt, maxDt, m.positions, m.errors, m.frames, m.deltas, from)
    && m.numMoves == |m.positions|
    && m.start == m.positions[0].start
    && m.offset == m.positions[0].start - h[0].timestamp
    && m.averageError == Sum(m.errors) / (m.numMoves as real)
    && m.positions[m.numMoves - 1].index <= stop < |h|
    && h[stop].timestamp + minDt >= h[|h| - 1].timestamp
    && (forall q :: m.positions[m.numMoves - 1].index <= q < stop ==> h[q].timestamp + minDt < h[|h| - 1].timestamp)
    && Misses(Beat(onBeat, m.numMoves), h, m.positions[m.numMoves - 1].index, stop, minDt, maxDt)
  }

  /** The lists start with the first match. */
  lemma {:induction false} BeatsFirst(onBeat: seq<NamedPosition>, h: seq<Sample>, minDt: real, maxDt: real, f: Fit)
    requires |onBeat| > 0 && |h| > 0
    requires Beat(onBeat, 0).BestFitOf(h, 0, 0.0, FirstReach(onBeat, maxDt)) == Some(f)
    ensures f.index < |h|
    ensures Beats(onBeat, h, minDt, maxDt,
      [Detection(f.start, f.index, f.error, Beat(onBeat, 0).Bind(h[f.index].bodyPos.facingDirection), Some(0.0))],
      [f.error], [h[f.index]], [], [0])
  {
  }

  /** A match found from pointer `p`, after every pointer since the previous
      match found nothing, extends the lists. */
  lemma {:induction false} BeatsNext(onBeat: seq<NamedPosition>, h: seq<Sample>, minDt: real, maxDt: real, hack: seq<Detection>,
                  errors: seq<real>, frames: seq<Sample>, deltas: seq<real>, from: seq<nat>, p: nat, n: Fit)
    requires |onBeat| > 0
    requires Beats(onBeat, h, minDt, maxDt, hack, errors, frames, deltas, from)
    requires hack[|hack| - 1].index <= p < n.index < |h|
    requires Beat(onBeat, |hack|).BestFitOf(h, p, minDt, maxDt) == Some(n)
    requires Misses(Beat(onBeat, |hack|), h, hack[|hack| - 1].index, p, minDt, maxDt)
    requires forall q :: hack[|hack| - 1].index <= q <= p ==> h[q].timestamp + minDt < h[|h| - 1].timestamp
    ensures Beats(onBeat, h, minDt, maxDt,
      hack + [Detection(n.start, n.index, n.error, Beat(onBeat, |hack|).Bind(h[n.index].bodyPos.facingDirection),
                        Some(n.start - hack[|hack| - 1].start))],
      errors + [n.error], frames + [h[n.index]], deltas + [n.start - hack[|hack| - 1].start], from + [p])
  {
    var K := |hack|;
    var delta := n.start - hack[K - 1].start;
    var d := Detection(n.start, n.index, n.error, Beat(onBeat, K).Bind(h[n.index].bodyPos.facingDirection), Some(delta));
    var hack', errors', frames', deltas', from' := hack + [d], errors + [n.error], frames + [h[n.index]], deltas + [delta], from + [p];
    forall k | 0 <= k < K + 1
      ensures EntryOk(onBeat, h, k, hack'[k], frames'[k], errors'[k])
    {
      if k < K {
        assert hack'[k] == hack[k] && frames'[k] == frames[k] && errors'[k] == errors[k];
      }
    }
    forall k | 1 <= k < K + 1
      ensures StepOk(onBeat, h, minDt, maxDt, k, hack'[k - 1], hack'[k], deltas'[k - 1], from'[k])
    {
      if k < K {
        assert hack'[k - 1] == hack[k - 1] && hack'[k] == hack[k] && deltas'[k - 1] == deltas[k - 1] && from'[k] == from[k];
      }
    }
    assert hack'[0] == hack[0] && from'[0] == from[0];
  }

  /** The lists, with a search that ended at `stop`, make up a result that
      satisfies `Matched`. */
  lemma {:induction false} BeatsMatched(onBeat: seq<NamedPosition>, h: seq<Sample>, minDt: real, maxDt: real,
                     r: MatchResult, from: seq<nat>, stop: nat)
    requires |onBeat| > 0
    requires Beats(onBeat, h, minDt, maxDt, r.positions, r.errors, r.frames, r.deltas, from)
    requires r.numMoves == |r.frames| && r.start == r.positions[0].start
    requires r.offset == r.positions[0].start - h[0].timestamp
    requires r.averageError == Sum(r.errors) / (|r.errors| as real)
    requires r.positions[|r.positions| - 1].index <= stop < |h|
    requires h[stop].timestamp + minDt >= h[|h| - 1].timestamp
    requires forall q :: r.positions[|r.positions| - 1].index <= q < stop ==> h[q].timestamp + minDt < h[|h| - 1].timestamp
    requires Misses(Beat(onBeat, |r.positions|), h, r.positions[|r.positions| - 1].index, stop, minDt, maxDt)
    ensures Matched(onBeat, h, minDt, maxDt, r, from, stop)
  {
  }

  /** With a non-negative reach the first window contains the first sample,
      so the search for the first position never comes back empty. */
  lemma {:induction false} FirstWindowHoldsFirstSample(p: NamedPosition, h: seq<Sample>, reach: real)
    requires |h| > 0 && reach >= 0.0
    ensures p.BestFitOf(h, 0, 0.0, reach).Some?
  {
    BestFitOfSpec(p, h, 0, 0.0, reach);
    assert InWindow(h, 0, 0.0, reach, 0);
  }

  /** Every match reports the sample it was found at: its start is that
      sample's timestamp and its error the penalty of the beat's target
      there. */
  lemma {:induction false} BeatsReportSamples(onBeat: seq<NamedPosition>, h: seq<Sample>, minDt: real, maxDt: real,
                             hack: seq<Detection>, errors: seq<real>, frames: seq<Sample>, deltas: seq<real>,
                             from: seq<nat>, k: nat)
    requires |onBeat| > 0
    requires Beats(onBeat, h, minDt, maxDt, hack, errors, frames, deltas, from)
    requires k < |hack|
    ensures hack[k].index < |h| && hack[k].start == h[hack[k].index].timestamp
    ensures errors[k] == Beat(onBeat, k).FitError(h[hack[k].index].bodyPos)
    ensures k > 0 ==> hack[k - 1].index <= from[k] < hack[k].index && h[hack[k].index].timestamp >= h[from[k]].timestamp + minDt
  {
    assert EntryOk(onBeat, h, k, hack[k], frames[k], errors[k]);
    if k == 0 {
      BestFitOfSpec(Beat(onBeat, 0), h, 0, 0.0, FirstReach(onBeat, maxDt));
    } else {
      assert StepOk(onBeat, h, minDt, maxDt, k, hack[k - 1], hack[k], deltas[k - 1], from[k]);
      BestFitOfSpec(Beat(onBeat, k), h, from[k], minDt, maxDt);
    }
  }

  /** The lists of a match have one entry per matched beat (one delta
      fewer); entry `k` reports a sample of the history, that sample's
      frame, and the target of beat `k`, entry `k % |onBeat|` of the move,
      bound to the sample's facing direction. */
  lemma {:induction false} MatchedEntries(onBeat: seq<NamedPosition>, h: seq<Sample>, minDt: real, maxDt: real,
                         m: MatchResult, from: seq<nat>, stop: nat, k: nat)
    requires |onBeat| > 0
    requires Matched(onBeat, h, minDt, maxDt, m, from, stop)
    requires k < m.numMoves
    ensures |m.errors| == |m.frames| == |m.positions| == m.numMoves && |m.deltas| == m.numMoves - 1
    ensures m.positions[k].index < |h| && m.frames[k] == h[m.positions[k].index]
    ensures m.positions[k].start == h[m.positions[k].index].timestamp
    ensures m.errors[k] == m.positions[k].error
    ensures m.positions[k].position.id == onBeat[k % |onBeat|].id
    ensures m.positions[k].position.facingDirection == Some(h[m.positions[k].index].bodyPos.facingDirection)
  {
    BeatsReportSamples(onBeat, h, minDt, maxDt, m.positions, m.errors, m.frames, m.deltas, from, k);
    assert EntryOk(onBeat, h, k, m.positions[k], m.frames[k], m.errors[k]);
    BeatIsRemainder(onBeat, k);
  }

  /** The matches lie at strictly increasing samples, and the first one at
      or after the first sample, so the offset is never negative. */
  lemma {:induction false} MatchedInOrder(onBeat: seq<NamedPosition>, h: seq<Sample>, minDt: real, maxDt: real,
                         m: MatchResult, from: seq<nat>, stop: nat)
    requires |onBeat| > 0
    requires Matched(onBeat, h, minDt, maxDt, m, from, stop)
    ensures forall k :: 1 <= k < m.numMoves ==> m.positions[k - 1].index < m.positions[k].index
    ensures m.offset >= 0.0
  {
    forall k | 1 <= k < m.numMoves
      ensures m.positions[k - 1].index < m.positions[k].index
    {
      assert StepOk(onBeat, h, minDt, maxDt, k, m.positions[k - 1], m.positions[k], m.deltas[k - 1], from[k]);
    }
    BestFitOfSpec(Beat(onBeat, 0), h, 0, 0.0, FirstReach(onBeat, maxDt));
  }

  /** On a time-ordered history consecutive matches are at least `minDt`
      apart. */
  lemma {:induction false} MatchedDeltas(onBeat: seq<NamedPosition>, h: seq<Sample>, minDt: real, maxDt: real,
                        m: MatchResult, from: seq<nat>, stop: nat, k: nat)
    requires |onBeat| > 0 && Sorted(h)
    requires Matched(onBeat, h, minDt, maxDt, m, from, stop)
    requires 1 <= k < m.numMoves
    ensures m.deltas[k - 1] == m.positions[k].start - m.positions[k - 1].start
    ensures m.deltas[k - 1] >= minDt
  {
    var prev, d := m.positions[k - 1], m.positions[k];
    assert StepOk(onBeat, h, minDt, maxDt, k, prev, d, m.deltas[k - 1], from[k]);
    BeatsReportSamples(onBeat, h, minDt, maxDt, m.positions, m.errors, m.frames, m.deltas, from, k - 1);
    BeatsReportSamples(onBeat, h, minDt, maxDt, m.positions, m.errors, m.frames, m.deltas, from, k);
    assert prev.index <= from[k] < |h|;
    if prev.index < from[k] {
      assert h[prev.index].timestamp <= h[from[k]].timestamp;
    }
  }

  /** Two results satisfying `Matched` agree on match `k` and on how it was
      found: the first match is the first window's best fit, and each later
      one comes from the first pointer after the previous match whose window
      holds a fit. */
  lemma {:induction false} MatchedAgreeAt(onBeat: seq<NamedPosition>, h: seq<Sample>, minDt: real, maxDt: real,
                         m1: MatchResult, from1: seq<nat>, stop1: nat,
                         m2: MatchResult, from2: seq<nat>, stop2: nat, k: nat)
    requires |onBeat| > 0
    requires Matched(onBeat, h, minDt, maxDt, m1, from1, stop1)
    requires Matched(onBeat, h, minDt, maxDt, m2, from2, stop2)
    requires k < m1.numMoves && k < m2.numMoves
    ensures m1.positions[k] == m2.positions[k] && from1[k] == from2[k]
    ensures m1.errors[k] == m2.errors[k] && m1.frames[k] == m2.frames[k]
    ensures k > 0 ==> m1.deltas[k - 1] == m2.deltas[k - 1]
    decreases k
  {
    var d1, d2 := m1.positions[k], m2.positions[k];
    assert EntryOk(onBeat, h, k, d1, m1.frames[k], m1.errors[k]);
    assert EntryOk(onBeat, h, k, d2, m2.frames[k], m2.errors[k]);
    if k == 0 {
      assert FirstOk(onBeat, h, maxDt, d1) && FirstOk(onBeat, h, maxDt, d2);
    } else {
      MatchedAgreeAt(onBeat, h, minDt, maxDt, m1, from1, stop1, m2, from2, stop2, k - 1);
      StepsAgree(onBeat, h, minDt, maxDt, k, m1.positions[k - 1], d1, m1.deltas[k - 1], from1[k], d2, m2.deltas[k - 1], from2[k]);
    }
  }

  /** Two matches of beat `k` after the same previous match are the same
      match, found from the same pointer. */
  lemma {:induction false} StepsAgree(onBeat: seq<NamedPosition>, h: seq<Sample>, minDt: real, maxDt: real, k: nat,
                     prev: Detection, d1: Detection, delta1: real, p1: nat, d2: Detection, delta2: real, p2: nat)
    requires |onBeat| > 0
    requires StepOk(onBeat, h, minDt, maxDt, k, prev, d1, delta1, p1)
    requires StepOk(onBeat, h, minDt, maxDt, k, prev, d2, delta2, p2)
    ensures p1 == p2 && d1.index == d2.index && d1.start == d2.start && d1.error == d2.error
    ensures delta1 == delta2 && d1.delta == d2.delta
  {
    var target := Beat(onBeat, k);
    assert target.BestFitOf(h, p1, minDt, maxDt).Some? && target.BestFitOf(h, p2, minDt, maxDt).Some?;
    assert p1 == p2;
  }

  /** After the last match of a result satisfying `Matched`, no pointer
      that passes the loop guard finds the next beat's target: a further
      match would have been found before the scan stopped. */
  lemma {:induction false} MatchedHasNoFurtherStep(onBeat: seq<NamedPosition>, h: seq<Sample>, minDt: real, maxDt: real,
                         m: MatchResult, from: seq<nat>, stop: nat, d: Detection, delta: real, p: nat)
    requires |onBeat| > 0
    requires Matched(onBeat, h, minDt, maxDt, m, from, stop)
    ensures !StepOk(onBeat, h, minDt, maxDt, m.numMoves, m.positions[m.numMoves - 1], d, delta, p)
  {
    var last := m.positions[m.numMoves - 1];
    if last.index <= p < stop {
      assert Beat(onBeat, m.numMoves).BestFitOf(h, p, minDt, maxDt).None?;
    } else if last.index <= stop <= p {
      assert !(h[stop].timestamp + minDt < h[|h| - 1].timestamp);
    }
  }

  /** Two results satisfying `Matched` for the same move, history and
      bounds have the same number of matches. */
  lemma {:induction false} MatchedSameLength(onBeat: seq<NamedPosition>, h: seq<Sample>, minDt: real, maxDt: real,
                         m1: MatchResult, from1: seq<nat>, stop1: nat,
                         m2: MatchResult, from2: seq<nat>, stop2: nat)
    requires |onBeat| > 0
    requires Matched(onBeat, h, minDt, maxDt, m1, from1, stop1)
    requires Matched(onBeat, h, minDt, maxDt, m2, from2, stop2)
    ensures m1.numMoves <= m2.numMoves
  {
    var n1, n2 := m1.numMoves, m2.numMoves;
    if n2 < n1 {
      MatchedAgreeAt(onBeat, h, minDt, maxDt, m1, from1, stop1, m2, from2, stop2, n2 - 1);
      assert StepOk(onBeat, h, minDt, maxDt, n2, m1.positions[n2 - 1], m1.positions[n2], m1.deltas[n2 - 1], from1[n2]);
      MatchedHasNoFurtherStep(onBeat, h, minDt, maxDt, m2, from2, stop2, m1.positions[n2], m1.deltas[n2 - 1], from1[n2]);
      assert false;
    }
  }

  /** Two results satisfying `Matched` for the same move, history and
      bounds agree entry by entry. */
  lemma {:induction false} MatchedAgreeAll(onBeat: seq<NamedPosition>, h: seq<Sample>, minDt: real, maxDt: real,
                         m1: MatchResult, from1: seq<nat>, stop1: nat,
                         m2: MatchResult, from2: seq<nat>, stop2: nat)
    requires |onBeat| > 0
    requires Matched(onBeat, h, minDt, maxDt, m1, from1, stop1)
    requires Matched(onBeat, h, minDt, maxDt, m2, from2, stop2)
    ensures m1.numMoves == m2.numMoves
    ensures forall k :: 0 <= k < m1.numMoves ==> m1.positions[k] == m2.positions[k] && from1[k] == from2[k]
    ensures forall k :: 0 <= k < m1.numMoves ==> m1.errors[k] == m2.errors[k] && m1.frames[k] == m2.frames[k]
    ensures forall k :: 0 <= k < m1.numMoves - 1 ==> m1.deltas[k] == m2.deltas[k]
  {
    MatchedSameLength(onBeat, h, minDt, maxDt, m1, from1, stop1, m2, from2, stop2);
    MatchedSameLength(onBeat, h, minDt, maxDt, m2, from2, stop2, m1, from1, stop1);
    forall k | 0 <= k < m1.numMoves
      ensures m1.positions[k] == m2.positions[k] && from1[k] == from2[k]
      ensures m1.errors[k] == m2.errors[k] && m1.frames[k] == m2.frames[k]
    {
      MatchedAgreeAt(onBeat, h, minDt, maxDt, m1, from1, stop1, m2, from2, stop2, k);
    }
    forall k | 0 <= k < m1.numMoves - 1
      ensures m1.deltas[k] == m2.deltas[k]
    {
      MatchedAgreeAt(onBeat, h, minDt, maxDt, m1, from1, stop1, m2, from2, stop2, k + 1);
    }
  }

  /** Two results satisfying `Matched` for the same move, history and
      bounds hold the same lists, found from the same pointers. */
  lemma {:induction false} MatchedSameLists(onBeat: seq<NamedPosition>, h: seq<Sample>, minDt: real, maxDt: real,
                         m1: MatchResult, from1: seq<nat>, stop1: nat,
                         m2: MatchResult, from2: seq<nat>, stop2: nat)
    requires |onBeat| > 0
    requires Matched(onBeat, h, minDt, maxDt, m1, from1, stop1)
    requires Matched(onBeat, h, minDt, maxDt, m2, from2, stop2)
    ensures m1.numMoves == m2.numMoves && from1 == from2
    ensures m1.positions == m2.positions && m1.errors == m2.errors
    ensures m1.frames == m2.frames && m1.deltas == m2.deltas
  {
    MatchedAgreeAll(onBeat, h, minDt, maxDt, m1, from1, stop1, m2, from2, stop2);
  }

  /** `Matched` leaves no choice: two results satisfying it for the same
      move, history and bounds are the same result, found from the same
      pointers, with the scan stopping at the same sample. */
  lemma {:induction false} MatchedUnique(onBeat: seq<NamedPosition>, h: seq<Sample>, minDt: real, maxDt: real,
                         m1: MatchResult, from1: seq<nat>, stop1: nat,
                         m2: MatchResult, from2: seq<nat>, stop2: nat)
    requires |onBeat| > 0
    requires Matched(onBeat, h, minDt, maxDt, m1, from1, stop1)
    requires Matched(onBeat, h, minDt, maxDt, m2, from2, stop2)
    ensures m1 == m2 && from1 == from2 && stop1 == stop2
  {
    MatchedSameLists(onBeat, h, minDt, maxDt, m1, from1, stop1, m2, from2, stop2);
    assert stop1 == stop2 by {
      assert !(stop1 < stop2) && !(stop2 < stop1);
    }
  }
}
