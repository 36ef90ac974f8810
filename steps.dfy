/** Step detection over a list of detected positions (src/analyze.js,
    `detectSteps`): a greedy left-to-right scan that, at each pointer, takes
    the first step pattern in key order whose positions follow one another
    there, and otherwise moves on by one. */
module StepDetection {
  import opened Wrappers
  import opened Matching
  import opened MovesDb

  /** A detected step: its name, and the start times of its first and last
      position. */
  datatype Step = Step(name: string, start: real, end: real)

  /** Where a step was recognised: the index of its first position and the
      index of its pattern among the allowed ones. */
  datatype Segment = Segment(at: nat, key: nat)

  /** No pattern is empty (an empty one would make the source read before
      the list and never move its pointer). */
  predicate NonEmptyPatterns(allowed: seq<StepPattern>) {
    forall k :: 0 <= k < |allowed| ==> |allowed[k].positions| > 0
  }

  /** The ids of `pattern` follow one another in `ps` from index `i`. */
  predicate FitsAt(ps: seq<Detection>, i: nat, pattern: seq<string>) {
    i + |pattern| <= |ps| && forall j :: 0 <= j < |pattern| ==> pattern[j] == ps[i + j].position.id
  }

  /** The first allowed pattern, from key `k` on, that fits at `i`. */
  function FirstFit(ps: seq<Detection>, i: nat, allowed: seq<StepPattern>, k: nat): (r: Option<nat>)
    requires k <= |allowed|
    ensures r.Some? ==> k <= r.value < |allowed| && FitsAt(ps, i, allowed[r.value].positions)
    decreases |allowed| - k
  {
    if k == |allowed| then None
    else if FitsAt(ps, i, allowed[k].positions) then Some(k)
    else FirstFit(ps, i, allowed, k + 1)
  }

  /** `FirstFit` finds nothing exactly when no pattern from `k` on fits,
      and no pattern between `k` and the one it finds fits. */
  lemma {:induction false} FirstFitSpec(ps: seq<Detection>, i: nat, allowed: seq<StepPattern>, k: nat)
    requires k <= |allowed|
    ensures FirstFit(ps, i, allowed, k).None? <==>
      forall m :: k <= m < |allowed| ==> !FitsAt(ps, i, allowed[m].positions)
    ensures FirstFit(ps, i, allowed, k).Some? ==>
      forall m :: k <= m < FirstFit(ps, i, allowed, k).value ==> !FitsAt(ps, i, allowed[m].positions)
    decreases |allowed| - k
  {
    if k < |allowed| {
      FirstFitSpec(ps, i, allowed, k + 1);
    }
  }

  /** The segments the scan recognises from pointer `i` on. */
  function Segments(ps: seq<Detection>, allowed: seq<StepPattern>, i: nat): (segs: seq<Segment>)
    requires NonEmptyPatterns(allowed)
    ensures forall k :: 0 <= k < |segs| ==>
      && segs[k].key < |allowed|
      && i <= segs[k].at
      && FitsAt(ps, segs[k].at, allowed[segs[k].key].positions)
    decreases |ps| - i
  {
    if i >= |ps| then []
    else
      match FirstFit(ps, i, allowed, 0)
      case None => Segments(ps, allowed, i + 1)
      case Some(k) => [Segment(i, k)] + Segments(ps, allowed, i + |allowed[k].positions|)
  }

  /** A pointer where a pattern fits starts a segment; the scan goes on
      after it. */
  lemma {:induction false} SegmentsFound(ps: seq<Detection>, allowed: seq<StepPattern>, i: nat, k: nat)
    requires NonEmptyPatterns(allowed) && i < |ps| && FirstFit(ps, i, allowed, 0) == Some(k)
    ensures Segments(ps, allowed, i) == [Segment(i, k)] + Segments(ps, allowed, i + |allowed[k].positions|)
  {
  }

  /** A pointer where no pattern fits starts no segment. */
  lemma {:induction false} SegmentsSkip(ps: seq<Detection>, allowed: seq<StepPattern>, i: nat)
    requires NonEmptyPatterns(allowed) && i < |ps| && FirstFit(ps, i, allowed, 0).None?
    ensures Segments(ps, allowed, i) == Segments(ps, allowed, i + 1)
  {
  }

  /** A segment is a step of `ps`. */
  predicate Valid(ps: seq<Detection>, allowed: seq<StepPattern>, s: Segment) {
    && NonEmptyPatterns(allowed)
    && s.key < |allowed|
    && FitsAt(ps, s.at, allowed[s.key].positions)
  }

  /** The step a segment reports: the pattern's name, the start of its
      first position and the start of its last. */
  function StepOf(ps: seq<Detection>, allowed: seq<StepPattern>, s: Segment): (st: Step)
    requires Valid(ps, allowed, s)
    ensures st.name == allowed[s.key].name
    ensures st.start == ps[s.at].start
    ensures st.end == ps[s.at + |allowed[s.key].positions| - 1].start
  {
    Step(allowed[s.key].name, ps[s.at].start, ps[s.at + |allowed[s.key].positions| - 1].start)
  }

  /** The steps of a list of segments, in order. */
  function StepsOf(ps: seq<Detection>, allowed: seq<StepPattern>, segs: seq<Segment>): (steps: seq<Step>)
    requires forall k :: 0 <= k < |segs| ==> Valid(ps, allowed, segs[k])
    ensures |steps| == |segs|
    ensures forall k :: 0 <= k < |segs| ==> steps[k] == StepOf(ps, allowed, segs[k])
  {
    if |segs| == 0 then [] else [StepOf(ps, allowed, segs[0])] + StepsOf(ps, allowed, segs[1..])
  }

  /** `detectSteps` from pointer `i` on: the step of the first pattern
      that fits at the pointer, then the steps after it; or, when none
      fits, the steps from the next pointer. */
  function StepsFrom(ps: seq<Detection>, allowed: seq<StepPattern>, i: nat): (steps: seq<Step>)
    requires NonEmptyPatterns(allowed)
    decreases |ps| - i
  {
    if i >= |ps| then []
    else
      match FirstFit(ps, i, allowed, 0)
      case None => StepsFrom(ps, allowed, i + 1)
      case Some(k) =>
        [Step(allowed[k].name, ps[i].start, ps[i + |allowed[k].positions| - 1].start)]
          + StepsFrom(ps, allowed, i + |allowed[k].positions|)
  }

  /** A pointer where a pattern fits reports its step; the scan goes on
      after it. */
  lemma {:induction false} StepsFromFound(ps: seq<Detection>, allowed: seq<StepPattern>, i: nat, k: nat)
    requires NonEmptyPatterns(allowed) && i < |ps| && FirstFit(ps, i, allowed, 0) == Some(k)
    ensures 0 < |allowed[k].positions| && i + |allowed[k].positions| <= |ps|
    ensures StepsFrom(ps, allowed, i) ==
      [Step(allowed[k].name, ps[i].start, ps[i + |allowed[k].positions| - 1].start)]
        + StepsFrom(ps, allowed, i + |allowed[k].positions|)
  {
  }

  /** A pointer where no pattern fits reports nothing. */
  lemma {:induction false} StepsFromSkip(ps: seq<Detection>, allowed: seq<StepPattern>, i: nat)
    requires NonEmptyPatterns(allowed) && i < |ps| && FirstFit(ps, i, allowed, 0).None?
    ensures StepsFrom(ps, allowed, i) == StepsFrom(ps, allowed, i + 1)
  {
  }

  /** The steps reported are those of the segments, one for one. */
  lemma {:induction false} StepsFromSegments(ps: seq<Detection>, allowed: seq<StepPattern>, i: nat)
    requires NonEmptyPatterns(allowed)
    ensures StepsFrom(ps, allowed, i) == StepsOf(ps, allowed, Segments(ps, allowed, i))
    decreases |ps| - i
  {
    if i < |ps| {
      match FirstFit(ps, i, allowed, 0)
      case None =>
        SegmentsSkip(ps, allowed, i);
        StepsFromSegments(ps, allowed, i + 1);
      case Some(k) =>
        var next := i + |allowed[k].positions|;
        SegmentsFound(ps, allowed, i, k);
        StepsFromSegments(ps, allowed, next);
        StepsOfCons(ps, allowed, Segment(i, k), Segments(ps, allowed, next));
    }
  }

  /** The segments from pointer `i` on do not overlap and come in order:
      each ends before the next begins. */
  lemma {:induction false} SegmentsDisjoint(ps: seq<Detection>, allowed: seq<StepPattern>, i: nat)
    requires NonEmptyPatterns(allowed)
    ensures var segs := Segments(ps, allowed, i);
      forall a, b :: 0 <= a < b < |segs| ==> segs[a].at + |allowed[segs[a].key].positions| <= segs[b].at
    decreases |ps| - i
  {
    if i < |ps| {
      match FirstFit(ps, i, allowed, 0)
      case None =>
        SegmentsSkip(ps, allowed, i);
        SegmentsDisjoint(ps, allowed, i + 1);
      case Some(k) =>
        var next := i + |allowed[k].positions|;
        SegmentsDisjoint(ps, allowed, next);
        SegmentsFound(ps, allowed, i, k);
        var segs := Segments(ps, allowed, i);
        var rest := Segments(ps, allowed, next);
        assert segs[0] == Segment(i, k);
        forall a, b | 0 <= a < b < |segs|
          ensures segs[a].at + |allowed[segs[a].key].positions| <= segs[b].at
        {
          assert segs[b] == rest[b - 1];
          if a > 0 {
            assert segs[a] == rest[a - 1];
          }
        }
    }
  }

  /** At each segment the pattern recognised is the first in key order
      that fits there. */
  predicate TakesFirstKeys(ps: seq<Detection>, allowed: seq<StepPattern>, segs: seq<Segment>) {
    forall k, m :: 0 <= k < |segs| && 0 <= m < segs[k].key && m < |allowed| ==> !FitsAt(ps, segs[k].at, allowed[m].positions)
  }

  lemma {:induction false} TakesFirstKeysCons(ps: seq<Detection>, allowed: seq<StepPattern>, s: Segment, rest: seq<Segment>)
    requires forall m :: 0 <= m < s.key && m < |allowed| ==> !FitsAt(ps, s.at, allowed[m].positions)
    requires TakesFirstKeys(ps, allowed, rest)
    ensures TakesFirstKeys(ps, allowed, [s] + rest)
  {
    var segs := [s] + rest;
    forall k, m | 0 <= k < |segs| && 0 <= m < segs[k].key && m < |allowed|
      ensures !FitsAt(ps, segs[k].at, allowed[m].positions)
    {
      if k > 0 {
        assert segs[k] == rest[k - 1];
      }
    }
  }

  /** Every segment from pointer `i` on takes the first pattern in key
      order that fits at it. */
  lemma {:induction false} SegmentsTakeFirstKey(ps: seq<Detection>, allowed: seq<StepPattern>, i: nat)
    requires NonEmptyPatterns(allowed)
    ensures TakesFirstKeys(ps, allowed, Segments(ps, allowed, i))
    decreases |ps| - i
  {
    if i < |ps| {
      FirstFitSpec(ps, i, allowed, 0);
      match FirstFit(ps, i, allowed, 0)
      case None =>
        SegmentsSkip(ps, allowed, i);
        SegmentsTakeFirstKey(ps, allowed, i + 1);
      case Some(w) =>
        var next := i + |allowed[w].positions|;
        SegmentsTakeFirstKey(ps, allowed, next);
        SegmentsFound(ps, allowed, i, w);
        TakesFirstKeysCons(ps, allowed, Segment(i, w), Segments(ps, allowed, next));
    }
  }

  /** Index `p` lies inside one of the segments. */
  predicate Covered(allowed: seq<StepPattern>, segs: seq<Segment>, p: nat) {
    exists k :: 0 <= k < |segs| && segs[k].key < |allowed| &&
      segs[k].at <= p < segs[k].at + |allowed[segs[k].key].positions|
  }

  /** What the first of a list of segments does not cover, and what the
      rest does not cover, the whole list does not cover. */
  lemma {:induction false} CoveredTail(allowed: seq<StepPattern>, s: Segment, rest: seq<Segment>, p: nat)
    requires s.key < |allowed| && !Covered(allowed, [s] + rest, p)
    ensures !(s.at <= p < s.at + |allowed[s.key].positions|)
    ensures !Covered(allowed, rest, p)
  {
    assert ([s] + rest)[0] == s;
    forall k | 0 <= k < |rest|
      ensures !(rest[k].key < |allowed| && rest[k].at <= p < rest[k].at + |allowed[rest[k].key].positions|)
    {
      assert ([s] + rest)[k + 1] == rest[k];
    }
  }

  /** Nothing is missed: at every index from `i` on that no segment covers,
      no allowed pattern fits. */
  lemma {:induction false} SegmentsMissNothing(ps: seq<Detection>, allowed: seq<StepPattern>, i: nat, p: nat)
    requires NonEmptyPatterns(allowed)
    requires i <= p < |ps| && !Covered(allowed, Segments(ps, allowed, i), p)
    ensures forall m :: 0 <= m < |allowed| ==> !FitsAt(ps, p, allowed[m].positions)
    decreases |ps| - i
  {
    FirstFitSpec(ps, i, allowed, 0);
    match FirstFit(ps, i, allowed, 0)
    case None =>
      if p > i {
        SegmentsSkip(ps, allowed, i);
        SegmentsMissNothing(ps, allowed, i + 1, p);
      }
    case Some(w) =>
      var next := i + |allowed[w].positions|;
      SegmentsFound(ps, allowed, i, w);
      CoveredTail(allowed, Segment(i, w), Segments(ps, allowed, next), p);
      SegmentsMissNothing(ps, allowed, next, p);
  }

  lemma {:induction false} StepsOfCons(ps: seq<Detection>, allowed: seq<StepPattern>, s: Segment, rest: seq<Segment>)
    requires Valid(ps, allowed, s) && forall k :: 0 <= k < |rest| ==> Valid(ps, allowed, rest[k])
    ensures StepsOf(ps, allowed, [s] + rest) == [StepOf(ps, allowed, s)] + StepsOf(ps, allowed, rest)
  {
    assert ([s] + rest)[1..] == rest;
  }

  /** The search at one pointer as the source runs it: the patterns in
      key order, each compared position by position. */
  method FindStep(ps: seq<Detection>, i: nat, allowed: seq<StepPattern>) returns (found: Option<nat>)
    ensures found == FirstFit(ps, i, allowed, 0)
  {
    found := None;
    var k := 0;
    while k < |allowed| && found.None?
      invariant k <= |allowed|
      invariant found.None? ==> FirstFit(ps, i, allowed, 0) == FirstFit(ps, i, allowed, k)
      invariant found.Some? ==> FirstFit(ps, i, allowed, 0) == found
    {
      var pattern := allowed[k].positions;
      if i + |pattern| <= |ps| {
        var same := true;
        var j := 0;
        while j < |pattern| && same
          invariant j <= |pattern|
          invariant same <==> forall m :: 0 <= m < j ==> pattern[m] == ps[i + m].position.id
        {
          if pattern[j] != ps[i + j].position.id {
            same := false;
          }
          j := j + 1;
        }
        if same {
          found := Some(k);
        }
      }
      k := k + 1;
    }
  }

  /** One pass of the pointer loop of `detectSteps`: the step found at
      pointer `i`, if any, and the pointer to continue from (after the
      step, or the next one). */
  method NextStep(ps: seq<Detection>, allowed: seq<StepPattern>, i: nat) returns (step: Option<Step>, next: nat)
    requires NonEmptyPatterns(allowed) && i < |ps|
    ensures i < next <= |ps|
    ensures StepsFrom(ps, allowed, i) == (if step.Some? then [step.value] else []) + StepsFrom(ps, allowed, next)
  {
    var found := FindStep(ps, i, allowed);
    if found.Some? {
      StepsFromFound(ps, allowed, i, found.value);
      var pattern := allowed[found.value].positions;
      step := Some(Step(allowed[found.value].name, ps[i].start, ps[i + |pattern| - 1].start));
      next := i + |pattern|;
    } else {
      StepsFromSkip(ps, allowed, i);
      step := None;
      next := i + 1;
      assert [] + StepsFrom(ps, allowed, next) == StepsFrom(ps, allowed, next);
    }
  }

  /** `detectSteps`. */
  method DetectSteps(ps: seq<Detection>, allowed: seq<StepPattern>) returns (steps: seq<Step>)
    requires NonEmptyPatterns(allowed)
    ensures steps == StepsFrom(ps, allowed, 0)
  {
    ghost var all := StepsFrom(ps, allowed, 0);
    steps := [];
    var i := 0;
    while i < |ps|
      invariant i <= |ps|
      invariant steps + StepsFrom(ps, allowed, i) == all
      decreases |ps| - i
    {
      var step, next := NextStep(ps, allowed, i);
      ghost var head := if step.Some? then [step.value] else [];
      AppendAssoc(steps, head, StepsFrom(ps, allowed, next));
      if step.Some? {
        steps := steps + [step.value];
      } else {
        assert steps + head == steps;
      }
      i := next;
    }
  }

  /** The running man: right-forward, left-up, left-forward, right-up in a
      row are the two halves "running man right" and "running man left",
      the first from the first to the second position, the second from the
      third to the fourth. */
  lemma {:induction false} RunningManSteps(ps: seq<Detection>)
    requires |ps| == 4
    requires ps[0].position.id == "right-forward" && ps[1].position.id == "left-up"
    requires ps[2].position.id == "left-forward" && ps[3].position.id == "right-up"
    ensures NonEmptyPatterns(Steps)
    ensures StepsFrom(ps, Steps, 0) == [
      Step("running man right", ps[0].start, ps[1].start),
      Step("running man left", ps[2].start, ps[3].start)]
  {
    assert |Steps[0].positions| == 2 && |Steps[1].positions| == 2;
    assert |Steps[2].positions| == 2 && |Steps[3].positions| == 2;
    assert FitsAt(ps, 0, Steps[0].positions);
    assert FirstFit(ps, 0, Steps, 0) == Some(0);
    StepsFromFound(ps, Steps, 0, 0);
    assert !FitsAt(ps, 2, Steps[0].positions) by {
      assert Steps[0].positions[0][0] == 'r' && ps[2].position.id[0] == 'l';
    }
    assert FitsAt(ps, 2, Steps[1].positions);
    assert FirstFit(ps, 2, Steps, 1) == Some(1);
    assert FirstFit(ps, 2, Steps, 0) == Some(1);
    StepsFromFound(ps, Steps, 2, 1);
    assert StepsFrom(ps, Steps, 4) == [];
  }
}
