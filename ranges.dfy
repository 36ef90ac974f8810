/** Tolerance bands for one joint angle (src/moves.js, class Range). */
module Ranges {

  /** Real multiplication behind a function symbol: every fact about a
      product used in this model is stated once, by the lemmas below, so
      that the solver never has to relate two unrelated products itself. */
  function Mul(a: real, b: real): real { a * b }

  function Square(x: real): real { Mul(x, x) }
  function Abs(x: real): real { if x < 0.0 then -x else x }
  function Smaller(a: real, b: real): real { if a <= b then a else b }

  /** Values in `[min, max]` are perfect; outside, the penalty is `weight`
      times the squared distance to the nearer bound. */
  datatype Range = Range(min: real, max: real, weight: real) {

    /** A band of half-width `tolerance` around `perfect`. */
    static function WithTolerance(perfect: real, tolerance: real, weight: real): (r: Range)
      ensures r.Center() == perfect
      ensures r.max - r.min == 2.0 * tolerance
      ensures r.weight == weight
      ensures tolerance >= 0.0 ==> r.Contains(perfect)
    {
      Range(perfect - tolerance, perfect + tolerance, weight)
    }

    predicate Contains(actual: real) {
      min <= actual <= max
    }

    /** Zero inside the band; otherwise weighted squared distance to the
        nearer bound, so never negative for a non-negative weight and
        strictly positive outside a proper band with positive weight. */
    function ErrorScore(actual: real): (e: real)
      ensures Contains(actual) ==> e == 0.0
      ensures weight >= 0.0 ==> e >= 0.0
      ensures weight == 0.0 ==> e == 0.0
      ensures min <= max && weight > 0.0 ==> (e == 0.0 <==> Contains(actual))
    {
      if min <= actual && max >= actual then 0.0
      else
        var nearer := Smaller(Square(min - actual), Square(max - actual));
        OutsideScore(this, actual);
        Mul(weight, nearer)
    }

    /** The signed offset from `actual` to the nearer bound (the upper
        bound on a tie). */
    function Diff(actual: real): (d: real)
      ensures d == min - actual || d == max - actual
      ensures Abs(d) <= Abs(min - actual) && Abs(d) <= Abs(max - actual)
      ensures Abs(min - actual) == Abs(max - actual) ==> d == max - actual
    {
      var smaller := min - actual;
      var greater := max - actual;
      if Abs(smaller) < Abs(greater) then smaller else greater
    }

    function Center(): real {
      (min + max) / 2.0
    }
  }

  lemma {:induction false} MulPositive(a: real, b: real)
    requires a > 0.0 && b > 0.0
    ensures Mul(a, b) > 0.0
  {
  }

  lemma {:induction false} MulNegatives(a: real, b: real)
    requires a < 0.0 && b < 0.0
    ensures Mul(a, b) > 0.0
  {
  }

  lemma {:induction false} MulNonNegative(a: real, b: real)
    requires a >= 0.0 && b >= 0.0
    ensures Mul(a, b) >= 0.0
  {
  }

  /** Scaling by a non-negative factor keeps the order; a positive one keeps it strict. */
  lemma {:induction false} MulMonotone(a: real, b: real, c: real)
    requires a >= 0.0 && b <= c
    ensures Mul(a, b) <= Mul(a, c)
    ensures a > 0.0 && b < c ==> Mul(a, b) < Mul(a, c)
  {
  }

  lemma {:induction false} MulCommutes(a: real, b: real)
    ensures Mul(a, b) == Mul(b, a)
  {
  }

  lemma {:induction false} MulNegated(a: real, b: real)
    ensures Mul(-a, -b) == Mul(a, b)
  {
  }

  lemma {:induction false} SquarePositive(x: real)
    ensures Square(x) >= 0.0
    ensures x != 0.0 ==> Square(x) > 0.0
  {
    if x > 0.0 {
      MulPositive(x, x);
    } else if x < 0.0 {
      MulNegatives(x, x);
    } else {
      MulNonNegative(x, x);
    }
  }

  lemma {:induction false} SquareOfAbs(x: real)
    ensures Square(x) == Square(Abs(x))
  {
    MulNegated(x, x);
  }

  lemma {:induction false} SquareMonotone(x: real, y: real)
    requires 0.0 <= x <= y
    ensures Square(x) <= Square(y)
    ensures x < y ==> Square(x) < Square(y)
  {
    MulMonotone(x, x, y);
    MulMonotone(y, x, y);
    MulCommutes(x, y);
  }

  /** The penalty outside the band is positive whenever the weight is, and
      never negative for a non-negative weight. */
  lemma {:induction false} OutsideScore(r: Range, x: real)
    requires !r.Contains(x)
    ensures r.weight >= 0.0 ==> Mul(r.weight, Smaller(Square(r.min - x), Square(r.max - x))) >= 0.0
    ensures r.min <= r.max && r.weight > 0.0 ==> Mul(r.weight, Smaller(Square(r.min - x), Square(r.max - x))) > 0.0
  {
    var nearer := Smaller(Square(r.min - x), Square(r.max - x));
    SquarePositive(r.min - x);
    SquarePositive(r.max - x);
    if r.weight > 0.0 && r.min <= r.max {
      assert r.min - x != 0.0 && r.max - x != 0.0;
      MulPositive(r.weight, nearer);
    } else if r.weight >= 0.0 {
      MulNonNegative(r.weight, nearer);
    }
  }

  /** Outside the band the penalty is the weighted square of `Diff`; the
      two operations agree on which bound is nearer. */
  lemma {:induction false} ErrorScoreIsWeightedSquaredDiff(r: Range, x: real)
    ensures r.ErrorScore(x) == if r.Contains(x) then 0.0 else Mul(r.weight, Square(r.Diff(x)))
  {
    var a, b := r.min - x, r.max - x;
    SquareOfAbs(a);
    SquareOfAbs(b);
    if Abs(a) < Abs(b) {
      SquareMonotone(Abs(a), Abs(b));
    } else {
      SquareMonotone(Abs(b), Abs(a));
    }
  }

  /** Below a proper band the nearer bound is `min`. */
  lemma {:induction false} ScoreBelow(r: Range, x: real)
    requires r.min <= r.max && x < r.min
    ensures r.ErrorScore(x) == Mul(r.weight, Square(r.min - x))
  {
    SquareMonotone(r.min - x, r.max - x);
  }

  /** Above a proper band the nearer bound is `max`. */
  lemma {:induction false} ScoreAbove(r: Range, x: real)
    requires r.min <= r.max && r.max < x
    ensures r.ErrorScore(x) == Mul(r.weight, Square(x - r.max))
  {
    SquareOfAbs(r.min - x);
    SquareOfAbs(r.max - x);
    SquareMonotone(x - r.max, x - r.min);
  }

  /** Below a proper band the penalty grows with the distance to `min`. */
  lemma {:induction false} ErrorScoreGrowsBelow(r: Range, x: real, y: real)
    requires r.min <= r.max && r.weight >= 0.0
    requires x < y <= r.min
    ensures r.ErrorScore(x) >= r.ErrorScore(y)
    ensures r.weight > 0.0 ==> r.ErrorScore(x) > r.ErrorScore(y)
  {
    ScoreBelow(r, x);
    if y < r.min {
      ScoreBelow(r, y);
      SquareMonotone(r.min - y, r.min - x);
      MulMonotone(r.weight, Square(r.min - y), Square(r.min - x));
    }
  }

  /** Above a proper band the penalty grows with the distance to `max`. */
  lemma {:induction false} ErrorScoreGrowsAbove(r: Range, x: real, y: real)
    requires r.min <= r.max && r.weight >= 0.0
    requires r.max <= y < x
    ensures r.ErrorScore(x) >= r.ErrorScore(y)
    ensures r.weight > 0.0 ==> r.ErrorScore(x) > r.ErrorScore(y)
  {
    ScoreAbove(r, x);
    if r.max < y {
      ScoreAbove(r, y);
      SquareMonotone(y - r.max, x - r.max);
      MulMonotone(r.weight, Square(y - r.max), Square(x - r.max));
    }
  }
}
