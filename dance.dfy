/** The leg tracker (src/dance.js): each leg follows the angle of its knee,
    ignores small changes, and reports when it turns around. */
module Dance {
  /** A change of at most this many degrees is ignored. */
  const Significance: real := 5.0

  /** Whether moving from `current` to `newAngle` is more than noise. */
  predicate Significant(current: real, newAngle: real) {
    current - newAngle > Significance || newAngle - current > Significance
  }

  /** The turn a leg reports (the source logs it): none, going back after
      increasing, or going forward after decreasing, by the given amount. */
  datatype Turn = NoTurn | GoingBack(amount: real) | GoingForward(amount: real)

  /** One leg: its last significant angle and whether that angle was
      increasing. */
  class Leg {
    const name: string
    var currentAngle: real
    var isIncreasing: bool

    /** A new leg starts at 90 degrees, increasing. */
    constructor(name: string)
      ensures this.name == name
      ensures currentAngle == 90.0 && isIncreasing
    {
      this.name := name;
      currentAngle := 90.0;
      isIncreasing := true;
    }

    /** `isSignificantChange`: the new angle differs from the current one by
        more than the significance threshold. */
    predicate IsSignificantChange(newAngle: real)
      reads this
      ensures IsSignificantChange(newAngle) <==> !(currentAngle - Significance <= newAngle <= currentAngle + Significance)
    {
      Significant(currentAngle, newAngle)
    }

    /** `checkForDirectionChange`: the turn that moving to `newAngle` would
        be, read off the current direction; it changes nothing. */
    function CheckForDirectionChange(newAngle: real): (t: Turn)
      reads this
      ensures t.GoingBack? ==> isIncreasing && t.amount > 0.0 && newAngle == currentAngle - t.amount
      ensures t.GoingForward? ==> !isIncreasing && t.amount > 0.0 && newAngle == currentAngle + t.amount
      ensures t.NoTurn? <==> (if isIncreasing then currentAngle <= newAngle else newAngle <= currentAngle)
    {
      if isIncreasing && newAngle < currentAngle then GoingBack(currentAngle - newAngle)
      else if !isIncreasing && newAngle > currentAngle then GoingForward(newAngle - currentAngle)
      else NoTurn
    }

    /** `update`: the leg is increasing when the new angle is above the
        current one, and the new angle becomes current. */
    method Update(newAngle: real)
      modifies this
      ensures isIncreasing <==> newAngle > old(currentAngle)
      ensures currentAngle == newAngle
    {
      isIncreasing := newAngle > currentAngle;
      currentAngle := newAngle;
    }

    /** `track`: a significant change reports its turn and is taken over;
        anything else leaves the leg as it was. A turn is reported exactly
        when the direction flips. */
    method Track(newAngle: real) returns (turn: Turn)
      modifies this
      ensures !Significant(old(currentAngle), newAngle) ==>
        turn == NoTurn && currentAngle == old(currentAngle) && isIncreasing == old(isIncreasing)
      ensures Significant(old(currentAngle), newAngle) ==>
        currentAngle == newAngle && (isIncreasing <==> newAngle > old(currentAngle))
      ensures turn != NoTurn <==> isIncreasing != old(isIncreasing)
      ensures turn.GoingBack? ==> turn.amount == old(currentAngle) - newAngle
      ensures turn.GoingForward? ==> turn.amount == newAngle - old(currentAngle)
    {
      turn := NoTurn;
      if IsSignificantChange(newAngle) {
        turn := CheckForDirectionChange(newAngle);
        Update(newAngle);
      }
    }
  }

  /** Both legs, tracked independently. */
  class Tracker {
    const left: Leg
    const right: Leg

    /** The legs are two different objects. */
    predicate Valid()
      reads this
    {
      left != right
    }

    /** A tracker starts with two new legs named "left" and "right". */
    constructor()
      ensures Valid() && fresh(left) && fresh(right)
      ensures left.name == "left" && left.currentAngle == 90.0 && left.isIncreasing
      ensures right.name == "right" && right.currentAngle == 90.0 && right.isIncreasing
    {
      left := new Leg("left");
      right := new Leg("right");
    }

    /** `track`: each leg tracks its own angle, unaffected by the other. */
    method Track(leftAngle: real, rightAngle: real)
      requires Valid()
      modifies left, right
      ensures Valid()
      ensures left.currentAngle == (if Significant(old(left.currentAngle), leftAngle) then leftAngle else old(left.currentAngle))
      ensures left.isIncreasing == (if Significant(old(left.currentAngle), leftAngle) then leftAngle > old(left.currentAngle) else old(left.isIncreasing))
      ensures right.currentAngle == (if Significant(old(right.currentAngle), rightAngle) then rightAngle else old(right.currentAngle))
      ensures right.isIncreasing == (if Significant(old(right.currentAngle), rightAngle) then rightAngle > old(right.currentAngle) else old(right.isIncreasing))
    {
      var _ := left.Track(leftAngle);
      var _ := right.Track(rightAngle);
    }
  }
}
