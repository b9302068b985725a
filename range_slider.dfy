/** The range slider: a filled bar at the value's percentage, a label inside the bar
    that shows the value or, near the minimum, the minimum, and a maximum label that
    hides near the maximum. */
module RangeSlider {

  /** `((value - min) / (max - min)) * 100` as a double: a number, or, for an empty
      range, NaN (0 / 0) or an infinity whose sign is the numerator's. */
  datatype Percentage = Finite(p: real) | NaN | PosInf | NegInf

  function PercentageOf(value: real, min: real, max: real): (r: Percentage)
    ensures r.Finite? <==> max != min
  {
    if max != min then Finite((value - min) / (max - min) * 100.0)
    else if value == min then NaN
    else if value > min then PosInf
    else NegInf
  }

  /** Comparisons with NaN are false; the infinities compare as expected. */
  predicate IsNearMin(pct: Percentage) {
    match pct
    case Finite(p) => p <= 10.0
    case NaN => false
    case PosInf => false
    case NegInf => true
  }

  predicate IsNearMax(pct: Percentage) {
    match pct
    case Finite(p) => p >= 95.0
    case NaN => false
    case PosInf => true
    case NegInf => false
  }

  /** A value inside a proper range fills between none and all of the bar. */
  lemma PercentageInRange(value: real, min: real, max: real)
    requires min < max && min <= value <= max
    ensures var pct := PercentageOf(value, min, max);
            pct.Finite? && 0.0 <= pct.p <= 100.0
  {
    var w := max - min;
    assert 0.0 <= (value - min) / w <= 1.0 by {
      assert value - min <= w;
    }
  }

  /** The thresholds stated on the value: near the minimum is within the first tenth
      of the range, near the maximum within the last twentieth. */
  lemma ThresholdsOnValue(value: real, min: real, max: real)
    requires min < max
    ensures IsNearMin(PercentageOf(value, min, max)) <==> value <= min + (max - min) / 10.0
    ensures IsNearMax(PercentageOf(value, min, max)) <==> value >= min + (max - min) * 0.95
  {
    var w := max - min;
    var q := (value - min) / w;
    assert PercentageOf(value, min, max) == Finite(q * 100.0);
    DivTimes(value - min, w);
    ThresholdsScaled(value - min, w, q);
  }

  lemma ThresholdsScaled(x: real, w: real, q: real)
    requires w > 0.0 && q * w == x
    ensures q * 100.0 <= 10.0 <==> x <= w / 10.0
    ensures q * 100.0 >= 95.0 <==> x >= w * 0.95
  {
    ScaleCompare(q, 0.1, w);
    assert 0.1 * w == w / 10.0;
    assert q * 100.0 <= 10.0 <==> q <= 0.1;
    ScaleCompare(0.95, q, w);
    assert 0.95 * w == w * 0.95;
    assert q * 100.0 >= 95.0 <==> 0.95 <= q;
  }

  lemma DivTimes(x: real, w: real)
    requires w != 0.0
    ensures (x / w) * w == x
  {
  }

  /** Multiplying by a positive width keeps the order. */
  lemma ScaleCompare(a: real, b: real, w: real)
    requires w > 0.0
    ensures a <= b <==> a * w <= b * w
  {
    if a <= b {
      MulNonNegative(b - a, w);
    } else {
      MulPositive(a - b, w);
    }
  }

  lemma MulNonNegative(x: real, w: real)
    requires x >= 0.0 && w > 0.0
    ensures x * w >= 0.0
  {
  }

  lemma MulPositive(x: real, w: real)
    requires x > 0.0 && w > 0.0
    ensures x * w > 0.0
  {
  }

  /** No percentage, not even NaN or an infinity, is near both ends. */
  lemma NeverNearBoth(pct: Percentage)
    ensures !(IsNearMin(pct) && IsNearMax(pct))
  {
  }

  /** The opacities of the value label, the minimum label and the maximum label. */
  function ValueLabelOpacity(pct: Percentage): int {
    if !IsNearMin(pct) then 1 else 0
  }

  function MinLabelOpacity(pct: Percentage): int {
    if IsNearMin(pct) then 1 else 0
  }

  function MaxLabelOpacity(pct: Percentage): int {
    if IsNearMax(pct) then 0 else 1
  }

  /** The value and minimum labels share a place, and exactly one of them shows;
      the maximum label hides exactly near the maximum, and then the value shows. */
  lemma LabelVisibility(pct: Percentage)
    ensures ValueLabelOpacity(pct) + MinLabelOpacity(pct) == 1
    ensures 0 <= ValueLabelOpacity(pct) <= 1 && 0 <= MinLabelOpacity(pct) <= 1
    ensures MaxLabelOpacity(pct) == 0 <==> IsNearMax(pct)
    ensures MaxLabelOpacity(pct) == 0 ==> ValueLabelOpacity(pct) == 1
  {
  }

  /** The labels' `maximumFractionDigits`. */
  function FractionDigits(step: real): (digits: int)
    ensures digits == 1 <==> step < 1.0
    ensures digits == 0 <==> step >= 1.0
  {
    if step < 1.0 then 1 else 0
  }

  class Slider {
    var isDragging: bool

    constructor()
      ensures !isDragging
    {
      isDragging := false;
    }

    method PointerDown()
      modifies this
      ensures isDragging
    {
      isDragging := true;
    }

    method PointerUp()
      modifies this
      ensures !isDragging
    {
      isDragging := false;
    }
  }
}
