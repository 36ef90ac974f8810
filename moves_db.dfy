/** The step patterns and choreographies (src/moves_db.js): which catalog
    positions make up a step, and which steps make up a choreography. */
module MovesDb {
  import opened Catalog

  /** A named step: the catalog ids of its positions, in order. */
  datatype StepPattern = StepPattern(name: string, positions: seq<string>)

  /** A choreography: its steps by name and the turns it contains. */
  datatype Choreo = Choreo(name: string, steps: seq<string>, turns: seq<int>)

  /** `STEPS`, in key order (the order in which step detection tries them). */
  const Steps: seq<StepPattern> := [
    StepPattern("running man right", ["right-forward", "left-up"]),
    StepPattern("running man left", ["left-forward", "right-up"]),
    StepPattern("reverse running man right", ["right-forward", "right-up"]),
    StepPattern("reverse running man left", ["left-forward", "left-up"])]

  /** `CHOREOS`, in key order. */
  const Choreos: seq<Choreo> := [
    Choreo("Running One", ["running man right", "running man left"], []),
    Choreo("Turn and Run", ["running man right", "running man left", "running man right", "running man right"], [6])]

  /** The names of the step patterns, in order. */
  function StepNames(steps: seq<StepPattern>): (names: seq<string>)
    ensures |names| == |steps|
    ensures forall k :: 0 <= k < |steps| ==> names[k] == steps[k].name
  {
    if |steps| == 0 then [] else StepNames(steps[..|steps| - 1]) + [steps[|steps| - 1].name]
  }

  /** There are four patterns of exactly two positions each, under four
      different names. */
  lemma StepsShape()
    ensures |Steps| == 4
    ensures forall k :: 0 <= k < |Steps| ==> |Steps[k].positions| == 2
    ensures forall a, b :: 0 <= a < b < |Steps| ==> Steps[a].name != Steps[b].name
  {
    assert |Steps[0].name| == 17 && |Steps[1].name| == 16;
    assert |Steps[2].name| == 25 && |Steps[3].name| == 24;
  }

  /** Every position a step names is in the catalog. */
  lemma StepIdsInCatalog()
    ensures forall k, j :: 0 <= k < |Steps| && 0 <= j < |Steps[k].positions| ==> Steps[k].positions[j] in Positions
  {
  }

  /** The patterns are pairwise different and of equal length, so at any
      pointer at most one of them fits and their order never decides which
      step is detected. */
  lemma PatternsDistinct()
    ensures forall a, b :: 0 <= a < b < |Steps| ==> Steps[a].positions != Steps[b].positions
    ensures forall a, b :: 0 <= a < |Steps| && 0 <= b < |Steps| ==> |Steps[a].positions| == |Steps[b].positions|
  {
    assert Steps[0].positions[0][0] == 'r' && Steps[1].positions[0][0] == 'l';
    assert Steps[0].positions[1][0] == 'l' && Steps[2].positions[1][0] == 'r';
    assert Steps[3].positions[0][0] == 'l';
    assert Steps[1].positions[1][0] == 'r' && Steps[3].positions[1][0] == 'l';
  }

  /** Every step a choreography lists is one of the step patterns. */
  lemma ChoreoStepsKnown()
    ensures forall c, k :: 0 <= c < |Choreos| && 0 <= k < |Choreos[c].steps| ==> Choreos[c].steps[k] in StepNames(Steps)
  {
    var names := StepNames(Steps);
    assert names[0] == "running man right" && names[1] == "running man left";
  }
}
