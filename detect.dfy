/** Free-form position detection over a recording and the removal of
    repeated detections (src/analyze.js, `detectAnyPositions` and
    `computePositions`). */
module Detect {
  import opened Wrappers
  import opened Pose
  import opened NamedPositions
  import opened Catalog
  import opened Matching
  import opened Moves

  /** `errorThreshold`: a bound on the reported error, or none at all
      (the source's `Infinity`). */
  predicate WithinThreshold(error: real, threshold: Option<real>) {
    threshold.None? || error <= threshold.value
  }

  /** The detection reported for fit `f` of catalog entry `p`: a copy of
      the entry bound to the facing direction of the sample found. */
  function Found(p: NamedPosition, h: seq<Sample>, f: Fit): (d: Detection)
    requires f.index < |h|
    ensures d.position.facingDirection == Some(h[f.index].bodyPos.facingDirection)
    ensures d.position.id == p.id && d.index == f.index && d.delta.None?
  {
    Detection(f.start, f.index, f.error, p.Bind(h[f.index].bodyPos.facingDirection), None)
  }

  /** The fit of every catalog entry at pointer `i`, in key order. */
  function Fits(h: seq<Sample>, i: nat, minDt: real, maxDt: real): (fs: seq<Option<Fit>>)
    requires i < |h|
    ensures |fs| == |Entries|
  {
    FitsUpTo(h, i, minDt, maxDt, |Entries|)
  }

  function FitsUpTo(h: seq<Sample>, i: nat, minDt: real, maxDt: real, n: nat): (fs: seq<Option<Fit>>)
    requires i < |h| && n <= |Entries|
    ensures |fs| == n
  {
    if n == 0 then [] else FitsUpTo(h, i, minDt, maxDt, n - 1) + [Entries[n - 1].BestFitOf(h, i, minDt, maxDt)]
  }

  lemma {:induction false} FitsSpec(h: seq<Sample>, i: nat, minDt: real, maxDt: real, n: nat)
    requires i < |h| && n <= |Entries|
    ensures forall m :: 0 <= m < n ==> FitsUpTo(h, i, minDt, maxDt, n)[m] == Entries[m].BestFitOf(h, i, minDt, maxDt)
  {
    if n > 0 {
      FitsSpec(h, i, minDt, maxDt, n - 1);
    }
  }

  /** The entry chosen among the first `n` fits: a later fit replaces the
      choice so far only with a strictly smaller error. */
  function Pick(fs: seq<Option<Fit>>, n: nat): (w: Option<nat>)
    requires n <= |fs|
    ensures w.Some? ==> w.value < n && fs[w.value].Some?
  {
    if n == 0 then None
    else
      var best := Pick(fs, n - 1);
      if fs[n - 1].Some? && (best.None? || fs[n - 1].value.error < fs[best.value].value.error) then Some(n - 1)
      else best
  }

  /** Nothing is chosen exactly when nothing fits; otherwise the choice is
      the first fit of smallest error: every earlier fit is strictly worse
      and no later one better. */
  lemma {:induction false} PickSpec(fs: seq<Option<Fit>>, n: nat)
    requires n <= |fs|
    ensures Pick(fs, n).None? <==> forall m :: 0 <= m < n ==> fs[m].None?
    ensures Pick(fs, n).Some? ==> var w := Pick(fs, n).value;
      && (forall m :: 0 <= m < w ==> fs[m].None? || fs[m].value.error > fs[w].value.error)
      && (forall m :: w < m < n ==> fs[m].None? || fs[m].value.error >= fs[w].value.error)
  {
    if n > 0 {
      PickSpec(fs, n - 1);
    }
  }

  /** The scan over the catalog at pointer `i`: the chosen entry, bound to
      the facing direction of the sample it fits best. */
  function CatalogBest(h: seq<Sample>, i: nat, minDt: real, maxDt: real): (r: Option<Detection>)
    requires i < |h| && minDt > 0.0
    ensures r.Some? ==> i < r.value.index < |h|
  {
    var fs := Fits(h, i, minDt, maxDt);
    var w := Pick(fs, |fs|);
    if w.None? then None
    else
      FitsSpec(h, i, minDt, maxDt, |Entries|);
      BestFitAfterStart(Entries[w.value], h, i, minDt, maxDt);
      Some(Found(Entries[w.value], h, fs[w.value].value))
  }

  /** The catalog scan finds nothing exactly when no entry fits; what it
      reports is a later sample, the penalty there of a catalog entry, and
      that entry bound to the sample's facing direction. */
  lemma {:induction false} CatalogBestSpec(h: seq<Sample>, i: nat, minDt: real, maxDt: real)
    requires i < |h| && minDt > 0.0
    ensures CatalogBest(h, i, minDt, maxDt).None? <==>
      forall m :: 0 <= m < |Entries| ==> Entries[m].BestFitOf(h, i, minDt, maxDt).None?
    ensures var r := CatalogBest(h, i, minDt, maxDt);
      r.Some? ==> i < r.value.index && Reports(h, r.value)
  {
    var fs := Fits(h, i, minDt, maxDt);
    FitsSpec(h, i, minDt, maxDt, |Entries|);
    PickSpec(fs, |fs|);
    var w := Pick(fs, |fs|);
    if w.Some? {
      BestFitOfSpec(Entries[w.value], h, i, minDt, maxDt);
      EntriesAreTheTable();
      var d := CatalogBest(h, i, minDt, maxDt).value;
      assert d.position == Entries[w.value].Bind(h[d.index].bodyPos.facingDirection);
      assert d.position.id == Entries[w.value].id;
    } else {
      forall m | 0 <= m < |Entries| ensures Entries[m].BestFitOf(h, i, minDt, maxDt).None? {
        assert fs[m].None?;
      }
    }
  }

  /** Of all catalog entries that fit, the one reported has the smallest
      error, and every entry before it in key order a strictly larger one. */
  lemma {:induction false} CatalogBestIsMinimal(h: seq<Sample>, i: nat, minDt: real, maxDt: real, m: nat)
    requires i < |h| && minDt > 0.0 && m < |Entries|
    requires CatalogBest(h, i, minDt, maxDt).Some?
    ensures var r := CatalogBest(h, i, minDt, maxDt).value;
      var c := Entries[m].BestFitOf(h, i, minDt, maxDt);
      c.None? || r.error <= c.value.error
    ensures var r := CatalogBest(h, i, minDt, maxDt).value;
      var c := Entries[m].BestFitOf(h, i, minDt, maxDt);
      c.Some? && c.value.error == r.error ==>
        exists w :: 0 <= w <= m && Entries[w].id == r.position.id
  {
    var fs := Fits(h, i, minDt, maxDt);
    FitsSpec(h, i, minDt, maxDt, |Entries|);
    PickSpec(fs, |fs|);
    var w := Pick(fs, |fs|).value;
    assert fs[m] == Entries[m].BestFitOf(h, i, minDt, maxDt);
    var r := CatalogBest(h, i, minDt, maxDt).value;
    assert r.position.id == Entries[w].id;
    if fs[m].Some? && fs[m].value.error == r.error {
      assert w <= m;
    }
  }

  /** The first sample at or after `i` whose timestamp reaches `until`. */
  function FastForward(h: seq<Sample>, i: nat, until: real): (j: nat)
    requires i <= |h|
    ensures i <= j <= |h|
    ensures forall k :: i <= k < j ==> h[k].timestamp < until
    ensures j < |h| ==> h[j].timestamp >= until
    decreases |h| - i
  {
    if i == |h| || h[i].timestamp >= until then i else FastForward(h, i + 1, until)
  }

  /** `detectAnyPositions` from pointer `i` on: while the pointer's window
      can still close before the end of the history, find the best catalog
      entry (the very first window with a minimum distance of 1), report it
      if its error is within the threshold and move the pointer to it; when
      nothing fits, move the pointer to the first sample at least
      `maxDt - minDt` later. */
  function DetectFrom(h: seq<Sample>, minDt: real, maxDt: real, threshold: Option<real>, i: nat): (ds: seq<Detection>)
    requires |h| > 0 && 0.0 < minDt < maxDt && i <= |h|
    decreases |h| - i
  {
    if i == |h| || h[i].timestamp > h[|h| - 1].timestamp - minDt then []
    else
      var best := CatalogBest(h, i, if i == 0 then 1.0 else minDt, maxDt);
      if best.Some? then
        (if WithinThreshold(best.value.error, threshold) then [best.value] else [])
          + DetectFrom(h, minDt, maxDt, threshold, best.value.index)
      else
        DetectFrom(h, minDt, maxDt, threshold, FastForward(h, i, h[i].timestamp + maxDt - minDt))
  }

  /** A detection reports a sample of the history: its timestamp, the
      penalty there of the catalog entry it copies, and that entry bound to
      the sample's facing direction. */
  ghost predicate Reports(h: seq<Sample>, d: Detection) {
    && d.index < |h|
    && d.start == h[d.index].timestamp
    && d.delta.None?
    && d.position.id in Positions
    && d.position == Positions[d.position.id].Bind(h[d.index].bodyPos.facingDirection)
    && d.error == Positions[d.position.id].FitError(h[d.index].bodyPos)
  }

  /** A step of the pointer loop that finds a detection: it is reported
      if within the threshold, and the pointer moves to its sample. */
  lemma {:induction false} DetectFromFound(h: seq<Sample>, minDt: real, maxDt: real, threshold: Option<real>, i: nat, d: Detection)
    requires |h| > 0 && 0.0 < minDt < maxDt && i < |h| && h[i].timestamp <= h[|h| - 1].timestamp - minDt
    requires CatalogBest(h, i, if i == 0 then 1.0 else minDt, maxDt) == Some(d)
    ensures i < d.index
    ensures DetectFrom(h, minDt, maxDt, threshold, i) ==
      (if WithinThreshold(d.error, threshold) then [d] else []) + DetectFrom(h, minDt, maxDt, threshold, d.index)
  {
  }

  /** A step of the pointer loop that finds nothing: the pointer skips
      ahead. */
  lemma {:induction false} DetectFromSkip(h: seq<Sample>, minDt: real, maxDt: real, threshold: Option<real>, i: nat, next: nat)
    requires |h| > 0 && 0.0 < minDt < maxDt && i < |h| && h[i].timestamp <= h[|h| - 1].timestamp - minDt
    requires CatalogBest(h, i, if i == 0 then 1.0 else minDt, maxDt).None?
    requires next == FastForward(h, i, h[i].timestamp + maxDt - minDt)
    ensures i < next
    ensures DetectFrom(h, minDt, maxDt, threshold, i) == DetectFrom(h, minDt, maxDt, threshold, next)
  {
  }

  /** Every detection of `ds` reports a sample after pointer `i`, within
      the error threshold. */
  ghost predicate AllReport(h: seq<Sample>, threshold: Option<real>, i: nat, ds: seq<Detection>) {
    forall k :: 0 <= k < |ds| ==> i < ds[k].index && Reports(h, ds[k]) && WithinThreshold(ds[k].error, threshold)
  }

  /** The samples `ds` reports strictly increase. */
  predicate IndicesIncrease(ds: seq<Detection>) {
    forall a, b :: 0 <= a < b < |ds| ==> ds[a].index < ds[b].index
  }

  lemma {:induction false} AllReportCons(h: seq<Sample>, threshold: Option<real>, i: nat, d: Detection, rest: seq<Detection>)
    requires i < d.index && Reports(h, d) && WithinThreshold(d.error, threshold)
    requires AllReport(h, threshold, d.index, rest)
    ensures AllReport(h, threshold, i, [d] + rest)
  {
    forall k | 0 <= k < |[d] + rest|
      ensures i < ([d] + rest)[k].index && Reports(h, ([d] + rest)[k]) && WithinThreshold(([d] + rest)[k].error, threshold)
    {
      if k > 0 {
        assert ([d] + rest)[k] == rest[k - 1];
      }
    }
  }

  lemma {:induction false} AllReportFrom(h: seq<Sample>, threshold: Option<real>, i: nat, j: nat, ds: seq<Detection>)
    requires i <= j && AllReport(h, threshold, j, ds)
    ensures AllReport(h, threshold, i, ds)
  {
  }

  lemma {:induction false} IndicesIncreaseCons(d: Detection, rest: seq<Detection>, threshold: Option<real>, h: seq<Sample>)
    requires IndicesIncrease(rest) && AllReport(h, threshold, d.index, rest)
    ensures IndicesIncrease([d] + rest)
  {
    forall a, b | 0 <= a < b < |[d] + rest| ensures ([d] + rest)[a].index < ([d] + rest)[b].index {
      assert ([d] + rest)[b] == rest[b - 1];
      if a > 0 {
        assert ([d] + rest)[a] == rest[a - 1];
      }
    }
  }

  /** The best catalog entry, when there is one, reports a sample after
      the pointer. */
  lemma {:induction false} CatalogBestReports(h: seq<Sample>, i: nat, minDt: real, maxDt: real)
    requires i < |h| && minDt > 0.0
    ensures var r := CatalogBest(h, i, minDt, maxDt);
      r.Some? ==> i < r.value.index && Reports(h, r.value)
  {
    CatalogBestSpec(h, i, minDt, maxDt);
  }

  /** A detection found at pointer `i`, reported or not, followed by the
      detections from its sample on keeps both invariants. */
  lemma {:induction false} ReportThenRest(h: seq<Sample>, threshold: Option<real>, i: nat, d: Detection, rest: seq<Detection>)
    requires i < d.index && Reports(h, d)
    requires AllReport(h, threshold, d.index, rest) && IndicesIncrease(rest)
    ensures var ds := (if WithinThreshold(d.error, threshold) then [d] else []) + rest;
      AllReport(h, threshold, i, ds) && IndicesIncrease(ds)
  {
    if WithinThreshold(d.error, threshold) {
      AllReportCons(h, threshold, i, d, rest);
      IndicesIncreaseCons(d, rest, threshold, h);
    } else {
      assert [] + rest == rest;
      AllReportFrom(h, threshold, i, d.index, rest);
    }
  }

  /** Every detection from pointer `i` on reports a sample after `i`
      within the error threshold, and the samples reported strictly
      increase. */
  lemma {:induction false} DetectFromSpec(h: seq<Sample>, minDt: real, maxDt: real, threshold: Option<real>, i: nat)
    requires |h| > 0 && 0.0 < minDt < maxDt && i <= |h|
    ensures AllReport(h, threshold, i, DetectFrom(h, minDt, maxDt, threshold, i))
    ensures IndicesIncrease(DetectFrom(h, minDt, maxDt, threshold, i))
    decreases |h| - i
  {
    if i < |h| && h[i].timestamp <= h[|h| - 1].timestamp - minDt {
      var adapted := if i == 0 then 1.0 else minDt;
      var best := CatalogBest(h, i, adapted, maxDt);
      if best.Some? {
        var d := best.value;
        DetectFromFound(h, minDt, maxDt, threshold, i, d);
        CatalogBestReports(h, i, adapted, maxDt);
        DetectFromSpec(h, minDt, maxDt, threshold, d.index);
        ReportThenRest(h, threshold, i, d, DetectFrom(h, minDt, maxDt, threshold, d.index));
      } else {
        var next := FastForward(h, i, h[i].timestamp + maxDt - minDt);
        DetectFromSkip(h, minDt, maxDt, threshold, i, next);
        DetectFromSpec(h, minDt, maxDt, threshold, next);
        AllReportFrom(h, threshold, i, next, DetectFrom(h, minDt, maxDt, threshold, next));
      }
    }
  }

  /** The scan over the catalog at one pointer, entry by entry. */
  method BestInCatalog(h: seq<Sample>, i: nat, minDt: real, maxDt: real) returns (best: Option<Detection>)
    requires 0.0 < minDt <= maxDt && i < |h| && h[i].timestamp + minDt <= h[|h| - 1].timestamp
    ensures best == CatalogBest(h, i, minDt, maxDt)
  {
    ghost var fs := Fits(h, i, minDt, maxDt);
    FitsSpec(h, i, minDt, maxDt, |Entries|);
    best := None;
    var n := 0;
    while n < |Entries|
      invariant n <= |Entries|
      invariant best.None? <==> Pick(fs, n).None?
      invariant best.Some? ==> best.value == Found(Entries[Pick(fs, n).value], h, fs[Pick(fs, n).value].value)
    {
      var position := Entries[n];
      var candidate := position.BestFit(h, i, minDt, maxDt);
      if candidate.Some? && (best.None? || candidate.value.error < best.value.error) {
        best := Some(Found(position, h, candidate.value));
      }
      n := n + 1;
    }
  }

  /** The fast-forward loop of `detectAnyPositions`: the pointer moves on
      while the samples are earlier than `until`. */
  method SkipUntil(h: seq<Sample>, i: nat, until: real) returns (j: nat)
    requires i <= |h|
    ensures j == FastForward(h, i, until)
  {
    j := i;
    while j < |h| && h[j].timestamp < until
      invariant i <= j <= |h|
      invariant FastForward(h, j, until) == FastForward(h, i, until)
      decreases |h| - j
    {
      j := j + 1;
    }
  }

  /** One pass of the pointer loop of `detectAnyPositions`: the best
      catalog entry at pointer `i` and the pointer to continue from (its
      sample, or past the skipped window when nothing fits). */
  method Advance(h: seq<Sample>, minDt: real, maxDt: real, i: nat, ghost threshold: Option<real>)
    returns (best: Option<Detection>, next: nat)
    requires |h| > 0 && 1.0 <= minDt < maxDt && i < |h| && h[i].timestamp <= h[|h| - 1].timestamp - minDt
    ensures i < next <= |h|
    ensures best == CatalogBest(h, i, if i == 0 then 1.0 else minDt, maxDt)
    ensures DetectFrom(h, minDt, maxDt, threshold, i) ==
      (if best.Some? && WithinThreshold(best.value.error, threshold) then [best.value] else [])
        + DetectFrom(h, minDt, maxDt, threshold, next)
  {
    var adaptedMinDt := if i == 0 then 1.0 else minDt;
    best := BestInCatalog(h, i, adaptedMinDt, maxDt);
    if best.Some? {
      DetectFromFound(h, minDt, maxDt, threshold, i, best.value);
      next := best.value.index;
    } else {
      var fastForwardTo := h[i].timestamp + maxDt - minDt;
      next := SkipUntil(h, i, fastForwardTo);
      DetectFromSkip(h, minDt, maxDt, threshold, i, next);
      assert [] + DetectFrom(h, minDt, maxDt, threshold, next) == DetectFrom(h, minDt, maxDt, threshold, next);
    }
  }

  /** `detectAnyPositions`: the pointer loop, reporting what each pass
      finds within the threshold. */
  method DetectAnyPositions(h: seq<Sample>, minDt: real, maxDt: real, threshold: Option<real>)
    returns (positions: seq<Detection>)
    requires |h| > 0 && 1.0 <= minDt < maxDt
    ensures positions == DetectFrom(h, minDt, maxDt, threshold, 0)
  {
    ghost var all := DetectFrom(h, minDt, maxDt, threshold, 0);
    positions := [];
    var end := h[|h| - 1].timestamp - minDt;
    var i := 0;
    while i < |h| && h[i].timestamp <= end
      invariant i <= |h|
      invariant positions + DetectFrom(h, minDt, maxDt, threshold, i) == all
      decreases |h| - i
    {
      var best, next := Advance(h, minDt, maxDt, i, threshold);
      ghost var head := if best.Some? && WithinThreshold(best.value.error, threshold) then [best.value] else [];
      AppendAssoc(positions, head, DetectFrom(h, minDt, maxDt, threshold, next));
      i := next;
      if best.Some? && WithinThreshold(best.value.error, threshold) {
        positions := positions + [best.value];
      } else {
        assert positions + head == positions;
      }
    }
  }

  /** Merges entry `x` into the de-duplicated rest `t`: when `x` repeats
      the id of the first entry of `t` and does not start `minDtRepeat` or
      more after it, only one of the two stays: the first entry of `t`
      unless its error is strictly larger. */
  function Merge(x: Detection, t: seq<Detection>, minDtRepeat: real): (r: seq<Detection>)
    requires |t| > 0
    ensures r == [x] + t || r == [x] + t[1..] || r == t
  {
    if x.position.id == t[0].position.id && x.start - t[0].start < minDtRepeat then
      if t[0].error > x.error then [x] + t[1..] else t
    else [x] + t
  }

  /** The de-duplication of `computePositions`, walking from the back:
      each entry is merged into the already de-duplicated rest. */
  function Dedup(s: seq<Detection>, minDtRepeat: real): (r: seq<Detection>)
    ensures |r| <= |s|
    ensures |s| > 0 ==> |r| > 0
  {
    if |s| <= 1 then s else Merge(s[0], Dedup(s[1..], minDtRepeat), minDtRepeat)
  }

  /** The de-duplication as the source runs it: a backward walk that
      removes one entry of each merged pair in place. */
  method Deduplicate(input: seq<Detection>, minDtRepeat: real) returns (ps: seq<Detection>)
    ensures ps == Dedup(input, minDtRepeat)
  {
    ps := input;
    var i := |ps| - 1;
    while i > 0
      invariant |input| == 0 ==> i == -1 && ps == []
      invariant |input| > 0 ==> 0 <= i < |input| && ps == input[..i] + Dedup(input[i..], minDtRepeat)
    {
      ghost var pre := input[..i - 1];
      ghost var rest := Dedup(input[i..], minDtRepeat);
      DedupUnfold(input, i - 1, minDtRepeat);
      assert ps == pre + [input[i - 1]] + rest;
      SplitAt(pre, input[i - 1], rest);
      ps := MergeAt(ps, i, minDtRepeat);
      i := i - 1;
    }
  }

  /** One step of the backward walk: entry `i - 1` is merged into the
      entries from `i` on, in place. */
  method MergeAt(ps: seq<Detection>, i: nat, minDtRepeat: real) returns (qs: seq<Detection>)
    requires 0 < i < |ps|
    ensures qs == ps[..i - 1] + Merge(ps[i - 1], ps[i..], minDtRepeat)
  {
    SpliceAt(ps[..i - 1], ps[i - 1], ps[i..]);
    assert ps == ps[..i - 1] + [ps[i - 1]] + ps[i..];
    qs := ps;
    if ps[i].position.id == ps[i - 1].position.id {
      if ps[i - 1].start - ps[i].start < minDtRepeat {
        if ps[i].error > ps[i - 1].error {
          qs := ps[..i] + ps[i + 1..];
        } else {
          qs := ps[..i - 1] + ps[i..];
        }
      }
    }
  }

  /** The parts of `pre + [x] + rest` around position `|pre|`. */
  lemma {:induction false} SplitAt<T>(pre: seq<T>, x: T, rest: seq<T>)
    ensures var ps := pre + [x] + rest;
      ps[..|pre|] == pre && ps[|pre|] == x && ps[|pre| + 1..] == rest
  {
  }

  /** The de-duplication of a suffix merges its first entry into the
      de-duplication of the rest. */
  lemma {:induction false} DedupUnfold(s: seq<Detection>, j: nat, minDtRepeat: real)
    requires j + 1 < |s|
    ensures Dedup(s[j..], minDtRepeat) == Merge(s[j], Dedup(s[j + 1..], minDtRepeat), minDtRepeat)
    ensures s[..j + 1] == s[..j] + [s[j]]
  {
    assert s[j..][1..] == s[j + 1..];
  }

  /** Removing either of the two entries around position `|pre|`. */
  lemma {:induction false} SpliceAt<T>(pre: seq<T>, x: T, rest: seq<T>)
    requires |rest| > 0
    ensures var ps := pre + [x] + rest;
      && ps[|pre|] == x && ps[|pre| + 1] == rest[0]
      && ps[..|pre| + 1] + ps[|pre| + 2..] == pre + ([x] + rest[1..])
      && ps[..|pre|] + ps[|pre| + 1..] == pre + rest
      && ps == pre + ([x] + rest)
  {
    var ps := pre + [x] + rest;
    assert ps[..|pre| + 1] == pre + [x];
    assert ps[|pre| + 2..] == rest[1..];
    assert ps[..|pre|] == pre;
    assert ps[|pre| + 1..] == rest;
  }

  /** `a` is `b` with some entries left out, the rest kept in order. */
  predicate Subsequence<T(==)>(a: seq<T>, b: seq<T>)
    decreases |b|
  {
    if |a| == 0 then true
    else if |b| == 0 then false
    else if a[0] == b[0] then Subsequence(a[1..], b[1..])
    else Subsequence(a, b[1..])
  }

  lemma {:induction false} SubsequenceRefl<T>(a: seq<T>)
    ensures Subsequence(a, a)
    decreases |a|
  {
    if |a| > 0 {
      SubsequenceRefl(a[1..]);
    }
  }

  lemma {:induction false} SubsequenceCons<T>(x: T, a: seq<T>, b: seq<T>)
    requires Subsequence(a, b)
    ensures Subsequence(a, [x] + b)
    decreases |a| + |b|, 1
  {
    if |a| > 0 && a[0] == x {
      SubsequenceTail(a, b);
      assert ([x] + b)[1..] == b;
    } else if |a| > 0 {
      assert ([x] + b)[1..] == b;
    }
  }

  lemma {:induction false} SubsequenceTail<T>(a: seq<T>, b: seq<T>)
    requires |a| > 0 && Subsequence(a, b)
    ensures Subsequence(a[1..], b)
    decreases |a| + |b|, 0
  {
    if a[0] == b[0] {
      SubsequenceCons(b[0], a[1..], b[1..]);
      assert [b[0]] + b[1..] == b;
    } else {
      SubsequenceTail(a, b[1..]);
      SubsequenceCons(b[0], a[1..], b[1..]);
      assert [b[0]] + b[1..] == b;
    }
  }

  /** The de-duplication only removes entries. */
  lemma {:induction false} DedupIsSubsequence(s: seq<Detection>, minDtRepeat: real)
    ensures Subsequence(Dedup(s, minDtRepeat), s)
    decreases |s|
  {
    if |s| <= 1 {
      SubsequenceRefl(s);
    } else {
      var t := Dedup(s[1..], minDtRepeat);
      DedupIsSubsequence(s[1..], minDtRepeat);
      var r := Merge(s[0], t, minDtRepeat);
      assert s == [s[0]] + s[1..];
      if r == [s[0]] + t[1..] {
        SubsequenceTail(t, s[1..]);
        assert r[1..] == t[1..];
      } else if r == t {
        SubsequenceCons(s[0], t, s[1..]);
      } else {
        assert r[1..] == t;
      }
    }
  }

  /** Every entry left is one of the input's. */
  lemma {:induction false} DedupKeepsEntries(s: seq<Detection>, minDtRepeat: real)
    ensures forall d :: d in Dedup(s, minDtRepeat) ==> d in s
    decreases |s|
  {
    if |s| > 1 {
      DedupKeepsEntries(s[1..], minDtRepeat);
      var t := Dedup(s[1..], minDtRepeat);
      forall d | d in Dedup(s, minDtRepeat) ensures d in s {
        if d in t {
          var k :| 0 <= k < |s[1..]| && s[1..][k] == d;
          assert s[k + 1] == d;
        } else {
          assert d == s[0];
        }
      }
    }
  }

  /** No two neighbours share an id. */
  predicate NoAdjacentRepeats(s: seq<Detection>) {
    forall k :: 0 < k < |s| ==> s[k - 1].position.id != s[k].position.id
  }

  /** Starts never decrease along the list. */
  predicate StartsAscending(s: seq<Detection>) {
    forall a, b :: 0 <= a < b < |s| ==> s[a].start <= s[b].start
  }

  /** With ascending starts the difference the source compares is never
      positive, so with a positive `minDtRepeat` every pair of neighbours
      with the same id is merged, however far apart: no id repeats
      next to itself afterwards. */
  lemma {:induction false} DedupRemovesRepeats(s: seq<Detection>, minDtRepeat: real)
    requires StartsAscending(s) && minDtRepeat > 0.0
    ensures NoAdjacentRepeats(Dedup(s, minDtRepeat))
    decreases |s|
  {
    if |s| > 1 {
      var t := Dedup(s[1..], minDtRepeat);
      assert StartsAscending(s[1..]) by {
        forall a, b | 0 <= a < b < |s[1..]| ensures s[1..][a].start <= s[1..][b].start {
          assert s[1..][a] == s[a + 1] && s[1..][b] == s[b + 1];
        }
      }
      DedupRemovesRepeats(s[1..], minDtRepeat);
      DedupKeepsEntries(s[1..], minDtRepeat);
      assert t[0] in s[1..];
      var r := Merge(s[0], t, minDtRepeat);
      if r == [s[0]] + t[1..] {
        forall k | 0 < k < |r| ensures r[k - 1].position.id != r[k].position.id {
          if k > 1 {
            assert r[k - 1] == t[k - 1] && r[k] == t[k];
          } else {
            assert r[1] == t[1];
          }
        }
      } else if r == [s[0]] + t {
        forall k | 0 < k < |r| ensures r[k - 1].position.id != r[k].position.id {
          if k > 1 {
            assert r[k - 1] == t[k - 2] && r[k] == t[k - 1];
          }
        }
      }
    }
  }

  /** Of a merged pair the entry with the smaller error stays; on equal
      errors the earlier entry is the one removed. */
  lemma {:induction false} MergeKeepsSmallerError(x: Detection, t: seq<Detection>, minDtRepeat: real)
    requires |t| > 0
    requires x.position.id == t[0].position.id && x.start - t[0].start < minDtRepeat
    ensures var r := Merge(x, t, minDtRepeat);
      |r| == |t| && r[1..] == t[1..] && r[0].error <= x.error && r[0].error <= t[0].error
    ensures x.error == t[0].error ==> Merge(x, t, minDtRepeat) == t
  {
  }

  /** `computePositions`: in free style, the detections of any catalog
      position with an error threshold of 5, de-duplicated; otherwise the
      positions the move matched, if any. */
  method ComputePositions(h: seq<Sample>, move: Move, minDt: real, maxDt: real, minDtRepeat: real, freestyle: bool)
    returns (r: Option<seq<Detection>>)
    requires freestyle ==> |h| > 0 && 1.0 <= minDt < maxDt
    requires !freestyle && |h| > 0 && |move.onBeat| > 0 ==>
      0.0 < minDt <= maxDt && h[0].timestamp <= h[|h| - 1].timestamp
    ensures freestyle ==> r == Some(Dedup(DetectFrom(h, minDt, maxDt, Some(5.0), 0), minDtRepeat))
    ensures !freestyle ==> (r.None? <==> |h| == 0 || |move.onBeat| == 0)
    ensures !freestyle && r.Some? ==> exists m, from, stop ::
      Matched(move.onBeat, h, minDt, maxDt, m, from, stop) && r.value == m.positions
  {
    if freestyle {
      var positions := DetectAnyPositions(h, minDt, maxDt, Some(5.0));
      positions := Deduplicate(positions, minDtRepeat);
      return Some(positions);
    } else {
      var estimate, from, stop := move.MatchToRecording(h, minDt, maxDt);
      if estimate.Some? {
        return Some(estimate.value.positions);
      }
      return None;
    }
  }
}
