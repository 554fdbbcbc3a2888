/** The progress bar colour (`src/components/YProgressBar.js`): the bar is
    coloured by the quarter of `value / max` it falls in. */
module ProgressBar {
  import opened Wrappers

  /** The outcome of a floating-point division: a number, an infinity, or
      NaN for `0 / 0`. */
  datatype Quotient = Finite(q: real) | PosInfinity | NegInfinity | NaN

  /** `value / max`, with the division by zero JavaScript gives. */
  function Divide(value: real, max: real): (p: Quotient)
    ensures max != 0.0 ==> p == Finite(value / max) && p.q * max == value
    ensures max == 0.0 ==> (p.NaN? <==> value == 0.0)
    ensures max == 0.0 ==> (p.PosInfinity? <==> value > 0.0)
  {
    if max != 0.0 then Finite(value / max)
    else if value > 0.0 then PosInfinity
    else if value < 0.0 then NegInfinity
    else NaN
  }

  datatype Colour = LightGray | Yellow | LightGreen | Green | Orange | Red

  /** Position of a colour on the scale, light grey 0 to red 5. */
  function Rank(c: Colour): (k: nat)
    ensures k <= 5
  {
    match c
    case LightGray => 0
    case Yellow => 1
    case LightGreen => 2
    case Green => 3
    case Orange => 4
    case Red => 5
  }

  /** `percent < x` in JavaScript: false for NaN, true for -Infinity. */
  predicate Below(p: Quotient, x: real)
  {
    match p
    case Finite(q) => q < x
    case NegInfinity => true
    case PosInfinity => false
    case NaN => false
  }

  /** The chain of comparisons against 1/4, 2/4, 3/4, 4/4 and 5/4: below a
      quarter is light grey, from five quarters on is red; comparisons with
      NaN all fail and +Infinity passes none, so both end on red, while
      -Infinity passes the first and is light grey. */
  function BarColour(p: Quotient): (c: Colour)
    ensures p.Finite? ==> (Rank(c) == 0 <==> p.q < 0.25)
    ensures p.Finite? ==> (Rank(c) == 5 <==> p.q >= 1.25)
    ensures p.NaN? || p.PosInfinity? ==> c == Red
    ensures p.NegInfinity? ==> c == LightGray
  {
    if Below(p, 0.25) then LightGray
    else if Below(p, 0.5) then Yellow
    else if Below(p, 0.75) then LightGreen
    else if Below(p, 1.0) then Green
    else if Below(p, 1.25) then Orange
    else Red
  }

  /** The colour of a bar; a missing value reads as 0 and a missing maximum
      as 100. With a positive maximum the bar is orange or red exactly when the
      value reaches the maximum; a zero maximum gives red for any non-negative
      value; with neither prop the bar is light grey. */
  function ProgressColour(value: Option<real>, max: Option<real>): (c: Colour)
    ensures max.Some? && max.value > 0.0 ==> (Rank(c) >= 4 <==> value.GetOr(0.0) >= max.value)
    ensures max == Some(0.0) && value.GetOr(0.0) >= 0.0 ==> c == Red
    ensures value.None? && max.None? ==> c == LightGray
  {
    ReachesMaximum(value.GetOr(0.0), max.GetOr(100.0));
    BarColour(Divide(value.GetOr(0.0), max.GetOr(100.0)))
  }

  /** For a finite ratio, the colour of rank `k` is shown exactly when the
      ratio lies in the `k`-th quarter (the first band open below, the last
      open above). */
  lemma BandIff(q: real, k: nat)
    requires k <= 5
    ensures Rank(BarColour(Finite(q))) == k <==>
      (k == 0 || q >= k as real / 4.0) && (k == 5 || q < (k + 1) as real / 4.0)
  {
  }

  /** A larger ratio never gets a lower colour. */
  lemma BandMonotone(q1: real, q2: real)
    requires q1 <= q2
    ensures Rank(BarColour(Finite(q1))) <= Rank(BarColour(Finite(q2)))
  {
  }

  /** Going over the maximum turns the bar orange or red, staying below it never does. */
  lemma ReachesMaximum(value: real, max: real)
    ensures max > 0.0 ==> (Rank(BarColour(Divide(value, max))) >= 4 <==> value >= max)
  {
    if max > 0.0 {
      var q := value / max;
      assert q * max == value;
      if value >= max {
        assert q >= 1.0;
      } else {
        assert q < 1.0;
      }
    }
  }
}
