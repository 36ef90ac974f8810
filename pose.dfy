/** The pose descriptor of one tracked instant: six leg angles in degrees
    and the direction the dancer faces, plus the recorded samples that carry
    them (src/moves.js, class BodyPosition). */
module Pose {

  /** Which way the torso faces; `Unknown` is the fallback of the classifier
      and the direction of a pose built without one. */
  datatype Facing = Left | Right | Front | Back | Unknown {
    /** The direction seen in a horizontally mirrored picture. */
    function Mirror(): Facing {
      match this
      case Left => Right
      case Right => Left
      case _ => this
    }
  }

  /** The six angle fields of a pose, used to speak of all of them at once. */
  datatype Joint = LeftThigh | RightThigh | LeftShin | RightShin | LeftFullLeg | RightFullLeg {
    predicate IsLeft() {
      this == LeftThigh || this == LeftShin || this == LeftFullLeg
    }

    /** The same joint on the other leg. */
    function Mirror(): Joint {
      match this
      case LeftThigh => RightThigh
      case RightThigh => LeftThigh
      case LeftShin => RightShin
      case RightShin => LeftShin
      case LeftFullLeg => RightFullLeg
      case RightFullLeg => LeftFullLeg
    }
  }

  lemma {:induction false} MirrorSwapsSides(j: Joint)
    ensures j.Mirror().Mirror() == j
    ensures j.Mirror().IsLeft() <==> !j.IsLeft()
  {
  }

  function Min(a: real, b: real): real { if a <= b then a else b }
  function Max(a: real, b: real): real { if a <= b then b else a }

  /** Linear blend of two values: all of `a` at ratio 1, all of `b` at ratio 0. */
  function Lerp(a: real, b: real, ratio: real): (r: real)
    ensures ratio == 1.0 ==> r == a
    ensures ratio == 0.0 ==> r == b
    ensures 0.0 <= ratio <= 1.0 ==> Min(a, b) <= r <= Max(a, b)
  {
    LerpBounds(a, b, ratio);
    a * ratio + b * (1.0 - ratio)
  }

  lemma {:induction false} LerpBounds(a: real, b: real, ratio: real)
    ensures 0.0 <= ratio <= 1.0 ==> Min(a, b) <= a * ratio + b * (1.0 - ratio) <= Max(a, b)
  {
    var r := a * ratio + b * (1.0 - ratio);
    assert r - b == ratio * (a - b);
    if !(0.0 <= ratio <= 1.0) {
    } else if a <= b {
      MulMonotone(ratio, 1.0, b - a);
      MulMonotone(0.0, ratio, b - a);
    } else {
      MulMonotone(ratio, 1.0, a - b);
      MulMonotone(0.0, ratio, a - b);
    }
  }

  lemma {:induction false} MulMonotone(x: real, y: real, k: real)
    requires x <= y && 0.0 <= k
    ensures x * k <= y * k
  {
  }

  /** One tracked instant (src/moves.js); all angles zero is standing straight. */
  datatype BodyPosition = BodyPosition(
    leftThigh: real, rightThigh: real,
    leftShin: real, rightShin: real,
    leftFullLeg: real, rightFullLeg: real,
    facingDirection: Facing)
  {
    function Get(j: Joint): real {
      match j
      case LeftThigh => leftThigh
      case RightThigh => rightThigh
      case LeftShin => leftShin
      case RightShin => rightShin
      case LeftFullLeg => leftFullLeg
      case RightFullLeg => rightFullLeg
    }

    /** Sets the three left-leg angles and leaves everything else alone. */
    function LeftLeg(thigh: real, shin: real, leg: real): (p: BodyPosition)
      ensures p.Get(LeftThigh) == thigh && p.Get(LeftShin) == shin && p.Get(LeftFullLeg) == leg
      ensures forall j: Joint :: !j.IsLeft() ==> p.Get(j) == Get(j)
      ensures p.facingDirection == facingDirection
    {
      this.(leftThigh := thigh, leftShin := shin, leftFullLeg := leg)
    }

    /** Sets the three right-leg angles and leaves everything else alone. */
    function RightLeg(thigh: real, shin: real, leg: real): (p: BodyPosition)
      ensures p.Get(RightThigh) == thigh && p.Get(RightShin) == shin && p.Get(RightFullLeg) == leg
      ensures forall j: Joint :: j.IsLeft() ==> p.Get(j) == Get(j)
      ensures p.facingDirection == facingDirection
    {
      this.(rightThigh := thigh, rightShin := shin, rightFullLeg := leg)
    }

    /** A virtual pose between this one (ratio 1) and `other` (ratio 0); it
        keeps this pose's facing direction. */
    function Interpolate(other: BodyPosition, ratio: real): (p: BodyPosition)
      ensures p.facingDirection == facingDirection
      ensures 0.0 <= ratio <= 1.0 ==> forall j :: Min(Get(j), other.Get(j)) <= p.Get(j) <= Max(Get(j), other.Get(j))
    {
      BodyPosition(
        Lerp(leftThigh, other.leftThigh, ratio), Lerp(rightThigh, other.rightThigh, ratio),
        Lerp(leftShin, other.leftShin, ratio), Lerp(rightShin, other.rightShin, ratio),
        Lerp(leftFullLeg, other.leftFullLeg, ratio), Lerp(rightFullLeg, other.rightFullLeg, ratio),
        facingDirection)
    }

    /** Field-wise difference; the result has no facing direction. */
    function Diff(other: BodyPosition): (p: BodyPosition)
      ensures p.facingDirection == Unknown
      ensures forall j :: other.Get(j) + p.Get(j) == Get(j)
    {
      BodyPosition(
        leftThigh - other.leftThigh, rightThigh - other.rightThigh,
        leftShin - other.leftShin, rightShin - other.rightShin,
        leftFullLeg - other.leftFullLeg, rightFullLeg - other.rightFullLeg,
        Unknown)
    }

    /** The pose seen in a horizontally mirrored picture: the legs trade places. */
    function Mirror(): (p: BodyPosition)
      ensures forall j: Joint :: p.Get(j.Mirror()) == Get(j)
      ensures p.facingDirection == facingDirection.Mirror()
    {
      BodyPosition(rightThigh, leftThigh, rightShin, leftShin, rightFullLeg, leftFullLeg,
                   facingDirection.Mirror())
    }
  }

  /** `new BodyPosition(facing)`: standing straight. */
  function Standing(facing: Facing): (p: BodyPosition)
    ensures forall j :: p.Get(j) == 0.0
    ensures p.facingDirection == facing
  {
    BodyPosition(0.0, 0.0, 0.0, 0.0, 0.0, 0.0, facing)
  }

  /** The blend reproduces either end exactly: ratio 1 gives this pose, ratio
      0 gives the other pose's angles under this pose's facing direction. */
  lemma {:induction false} InterpolateEndpoints(p: BodyPosition, o: BodyPosition)
    ensures p.Interpolate(o, 1.0) == p
    ensures p.Interpolate(o, 0.0) == o.(facingDirection := p.facingDirection)
  {
  }

  /** Interpolation moves from `o` towards `p` along their difference: the
      blend differs from `o` by the ratio-scaled difference of `p` and `o`. */
  lemma {:induction false} InterpolateAlongDiff(p: BodyPosition, o: BodyPosition, ratio: real)
    ensures p.Interpolate(o, ratio).Diff(o) == p.Diff(o).Interpolate(Standing(Unknown), ratio)
  {
    LerpShift(p.leftThigh, o.leftThigh, ratio);
    LerpShift(p.rightThigh, o.rightThigh, ratio);
    LerpShift(p.leftShin, o.leftShin, ratio);
    LerpShift(p.rightShin, o.rightShin, ratio);
    LerpShift(p.leftFullLeg, o.leftFullLeg, ratio);
    LerpShift(p.rightFullLeg, o.rightFullLeg, ratio);
  }

  lemma {:induction false} LerpShift(a: real, b: real, ratio: real)
    ensures Lerp(a, b, ratio) - b == Lerp(a - b, 0.0, ratio)
  {
    LerpScales(a, b, ratio);
    LerpScales(a - b, 0.0, ratio);
  }

  /** A blend lies off `b` by the ratio-scaled distance from `b` to `a`. */
  lemma {:induction false} LerpScales(a: real, b: real, ratio: real)
    ensures Lerp(a, b, ratio) - b == ratio * (a - b)
  {
  }

  /** Every angle of the blend lies off the other pose by the ratio-scaled
      difference of the two poses. */
  lemma {:induction false} InterpolateScales(p: BodyPosition, o: BodyPosition, ratio: real)
    ensures forall j :: p.Interpolate(o, ratio).Get(j) - o.Get(j) == ratio * (p.Get(j) - o.Get(j))
  {
    forall j ensures p.Interpolate(o, ratio).Get(j) - o.Get(j) == ratio * (p.Get(j) - o.Get(j)) {
      LerpScales(p.Get(j), o.Get(j), ratio);
    }
  }

  /** A pose differs from itself by the standing pose. */
  lemma {:induction false} DiffSelfIsStanding(p: BodyPosition)
    ensures p.Diff(p) == Standing(Unknown)
  {
  }

  /** The facing sector and the sign that normalizes leg angles for it. */
  datatype Direction = Direction(correction: int, facing: Facing)

  /** Classifies the shoulder azimuth into four 90-degree sectors. */
  function KeypointsToDirection(shoulderAngle: real): (d: Direction)
    ensures d.facing == Left <==> -45.0 <= shoulderAngle <= 45.0
    ensures d.facing == Back <==> 45.0 < shoulderAngle < 135.0
    ensures d.facing == Right <==> shoulderAngle <= -135.0 || 135.0 <= shoulderAngle
    ensures d.facing == Front <==> -135.0 < shoulderAngle < -45.0
    ensures d.facing != Unknown
    ensures d.correction == if d.facing == Left then -1 else 1
  {
    if shoulderAngle <= 45.0 && shoulderAngle >= -45.0 then Direction(-1, Left)
    else if shoulderAngle < 135.0 && shoulderAngle > 45.0 then Direction(1, Back)
    else if shoulderAngle <= -135.0 || shoulderAngle >= 135.0 then Direction(1, Right)
    else if shoulderAngle < -45.0 && shoulderAngle > -135.0 then Direction(1, Front)
    else Direction(1, Unknown)
  }

  /** The angles measured on one leg by the geometry helpers: signed polar
      angle hip-to-knee and hip-to-ankle, polar angle knee-to-ankle. */
  datatype LegAngles = LegAngles(hipToKnee: real, hipToAnkle: real, kneeToAnkle: real) {
    function Negated(): LegAngles { LegAngles(-hipToKnee, -hipToAnkle, -kneeToAnkle) }
  }

  /** `BodyPosition.fromKeypoints` once the geometry helpers have produced
      the raw angles: every angle is multiplied by the direction correction
      and each shin is its thigh minus the corrected knee-to-ankle angle. */
  function FromAngles(shoulderAngle: real, left: LegAngles, right: LegAngles): (p: BodyPosition)
    ensures p.facingDirection == KeypointsToDirection(shoulderAngle).facing
  {
    var d := KeypointsToDirection(shoulderAngle);
    var c := d.correction as real;
    var leftThigh := c * left.hipToKnee;
    var rightThigh := c * right.hipToKnee;
    var leftLeg := c * left.hipToAnkle;
    var rightLeg := c * right.hipToAnkle;
    var leftShin := leftThigh - c * left.kneeToAnkle;
    var rightShin := rightThigh - c * right.kneeToAnkle;
    Standing(d.facing).RightLeg(rightThigh, rightShin, rightLeg).LeftLeg(leftThigh, leftShin, leftLeg)
  }

  /** The direction correction: a dancer facing left yields the pose that a
      dancer facing any other way yields for the negated angles. */
  lemma {:induction false} FacingLeftNegatesAngles(aLeft: real, aOther: real, l: LegAngles, r: LegAngles)
    requires KeypointsToDirection(aLeft).facing == Left
    requires KeypointsToDirection(aOther).facing != Left
    ensures FromAngles(aLeft, l, r) == FromAngles(aOther, l.Negated(), r.Negated()).(facingDirection := Left)
  {
  }

  /** One recorded sample of the history: its time in milliseconds and its pose. */
  datatype Sample = Sample(timestamp: real, bodyPos: BodyPosition)

  /** The history is time-ordered. */
  ghost predicate Sorted(h: seq<Sample>) {
    forall a, b :: 0 <= a < b < |h| ==> h[a].timestamp <= h[b].timestamp
  }
}
