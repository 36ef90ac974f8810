/** The catalog of target positions (src/moves.js, `POSITIONS`). */
module Catalog {
  import opened Wrappers
  import opened Pose
  import opened Ranges
  import opened NamedPositions

  const TinyTolerance: real := 2.5
  const SmallTolerance: real := 5.0
  const MediumTolerance: real := 10.0
  const BigTolerance: real := 15.0
  const HugeTolerance: real := 20.0

  /** A position whose six bands all accept `[-15, 15]` with weight 1. */
  function Pos(id: string, name: string, img: Image): NamedPosition
  {
    var zeroPos := Range.WithTolerance(0.0, BigTolerance, 1.0);
    NamedPosition(id, name, img, zeroPos, zeroPos, zeroPos, zeroPos, zeroPos, zeroPos, None)
  }

  /** "right-up": right thigh raised to 70 with the shin folded to 100 (the
      shin weighted 0.2), left leg straight down where only the full-leg
      angle counts. The values are those the builder chain in the source
      produces (`RightUpBuilt` and its siblings). */
  const RightUp: NamedPosition := NamedPosition("right-up", "Right Leg Up", BetweenSteps,
    Range(-5.0, 5.0, 0.0), Range(50.0, 90.0, 1.0),
    Range(-5.0, 5.0, 0.0), Range(80.0, 120.0, 0.2),
    Range(-5.0, 5.0, 1.0), Range(-20.0, 20.0, 1.0), None)

  /** "right-forward": right leg stepped forward, left leg behind. */
  const RightForward: NamedPosition := NamedPosition("right-forward", "Right Leg Forward", StepWide,
    Range(-25.0, -15.0, 1.0), Range(37.5, 42.5, 1.0),
    Range(0.0, 10.0, 1.0), Range(37.5, 42.5, 1.0),
    Range(-35.0, -25.0, 1.0), Range(7.5, 12.5, 1.0), None)

  /** "left-up": the mirror image of "right-up". */
  const LeftUp: NamedPosition := NamedPosition("left-up", "Left Leg Up", BetweenSteps,
    Range(50.0, 90.0, 1.0), Range(-5.0, 5.0, 0.0),
    Range(80.0, 120.0, 0.2), Range(-5.0, 5.0, 0.0),
    Range(-20.0, 20.0, 1.0), Range(-5.0, 5.0, 1.0), None)

  /** "left-forward": the mirror image of "right-forward". */
  const LeftForward: NamedPosition := NamedPosition("left-forward", "Left Leg Forward", StepWide,
    Range(37.5, 42.5, 1.0), Range(-25.0, -15.0, 1.0),
    Range(37.5, 42.5, 1.0), Range(0.0, 10.0, 1.0),
    Range(7.5, 12.5, 1.0), Range(-35.0, -25.0, 1.0), None)

  /** Each entry is what the source's builder chain makes of `Pos`: the
      catalog is defined by `rightLeg`/`leftLeg` calls with the tolerances
      above (missing weights default to 1). */
  lemma RightUpBuilt()
    ensures RightUp == Pos("right-up", "Right Leg Up", BetweenSteps)
      .RightLeg(70.0, 100.0, 0.0, HugeTolerance, 1.0, 0.2, 1.0)
      .LeftLeg(0.0, 0.0, 0.0, SmallTolerance, 0.0, 0.0, 1.0)
  {
  }

  lemma RightForwardBuilt()
    ensures RightForward == Pos("right-forward", "Right Leg Forward", StepWide)
      .RightLeg(40.0, 40.0, 10.0, TinyTolerance, 1.0, 1.0, 1.0)
      .LeftLeg(-20.0, 5.0, -30.0, SmallTolerance, 1.0, 1.0, 1.0)
  {
  }

  lemma LeftUpBuilt()
    ensures LeftUp == Pos("left-up", "Left Leg Up", BetweenSteps)
      .LeftLeg(70.0, 100.0, 0.0, HugeTolerance, 1.0, 0.2, 1.0)
      .RightLeg(0.0, 0.0, 0.0, SmallTolerance, 0.0, 0.0, 1.0)
  {
  }

  lemma LeftForwardBuilt()
    ensures LeftForward == Pos("left-forward", "Left Leg Forward", StepWide)
      .RightLeg(-20.0, 5.0, -30.0, SmallTolerance, 1.0, 1.0, 1.0)
      .LeftLeg(40.0, 40.0, 10.0, TinyTolerance, 1.0, 1.0, 1.0)
  {
  }

  /** The entries in key order, the order in which a scan over the
      catalog visits them. */
  const Entries: seq<NamedPosition> := [RightUp, RightForward, LeftUp, LeftForward]

  /** The catalog as a lookup table from id to entry. */
  const Positions: map<string, NamedPosition> := map[
    "right-up" := RightUp, "right-forward" := RightForward,
    "left-up" := LeftUp, "left-forward" := LeftForward]

  /** Each entry is filed under its own id, the ids are distinct, and the
      table holds nothing else. */
  lemma EntriesAreTheTable()
    ensures forall k :: 0 <= k < |Entries| ==> Entries[k].id in Positions && Positions[Entries[k].id] == Entries[k]
    ensures forall a, b :: 0 <= a < b < |Entries| ==> Entries[a].id != Entries[b].id
    ensures forall id :: id in Positions <==> exists k :: 0 <= k < |Entries| && Entries[k].id == id
  {
    assert RightUp.id == "right-up" && |RightUp.id| == 8;
    assert RightForward.id == "right-forward" && |RightForward.id| == 13;
    assert LeftUp.id == "left-up" && |LeftUp.id| == 7;
    assert LeftForward.id == "left-forward" && |LeftForward.id| == 12;
    forall id | id in Positions ensures exists k :: 0 <= k < |Entries| && Entries[k].id == id {
      if id == "right-up" {
        assert Entries[0].id == id;
      } else if id == "right-forward" {
        assert Entries[1].id == id;
      } else if id == "left-up" {
        assert Entries[2].id == id;
      } else {
        assert Entries[3].id == id;
      }
    }
  }

  /** Every entry has proper bands, non-negative weights and no facing
      direction of its own. */
  lemma EntriesWellFormed()
    ensures forall k :: 0 <= k < |Entries| ==> Entries[k].WellFormed() && Entries[k].facingDirection == None
  {
    UpWellFormed();
    ForwardWellFormed();
  }

  lemma UpWellFormed()
    ensures RightUp.WellFormed() && LeftUp.WellFormed()
    ensures RightUp.facingDirection == None && LeftUp.facingDirection == None
  {
  }

  lemma ForwardWellFormed()
    ensures RightForward.WellFormed() && LeftForward.WellFormed()
    ensures RightForward.facingDirection == None && LeftForward.facingDirection == None
  {
  }

  /** "left-up" is "right-up" with the legs swapped. */
  lemma LeftUpMirrorsRightUp()
    ensures forall j: Joint :: LeftUp.Get(j.Mirror()) == RightUp.Get(j)
    ensures forall b: BodyPosition :: LeftUp.ErrorScore(b.Mirror()) == RightUp.ErrorScore(b)
  {
    forall b: BodyPosition ensures LeftUp.ErrorScore(b.Mirror()) == RightUp.ErrorScore(b) {
      MirrorKeepsScore(RightUp, b);
      ScoreDependsOnBandsOnly(RightUp.Mirror(), LeftUp, b.Mirror());
    }
  }

  /** "left-forward" is "right-forward" with the legs swapped. */
  lemma LeftForwardMirrorsRightForward()
    ensures forall j: Joint :: LeftForward.Get(j.Mirror()) == RightForward.Get(j)
    ensures forall b: BodyPosition :: LeftForward.ErrorScore(b.Mirror()) == RightForward.ErrorScore(b)
  {
    forall b: BodyPosition ensures LeftForward.ErrorScore(b.Mirror()) == RightForward.ErrorScore(b) {
      MirrorKeepsScore(RightForward, b);
      ScoreDependsOnBandsOnly(RightForward.Mirror(), LeftForward, b.Mirror());
    }
  }
}
