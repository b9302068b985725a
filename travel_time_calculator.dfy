/** The travel time calculator: three sliders (distance, speed, traffic factor) and
    the estimate T = (d / s) * f + b, where the break time b depends on the distance,
    shown as hours and minutes. Numbers are exact reals rather than IEEE doubles. */
module TravelTimeCalculator {
  import RangeSlider

  /** A slider's range; the step is the slider's concern. */
  datatype SliderConfig = SliderConfig(min: real, max: real, step: real)

  const SliderConfigs: seq<SliderConfig> := [
    SliderConfig(0.0, 3000.0, 10.0),
    SliderConfig(40.0, 120.0, 5.0),
    SliderConfig(1.0, 4.0, 0.1)
  ]

  const InitialSliderValues: seq<real> := [300.0, 60.0, 1.5]

  /** Every slider value lies in its slider's range. */
  predicate InRange(values: seq<real>) {
    |values| == |SliderConfigs| &&
    forall i :: 0 <= i < |values| ==> SliderConfigs[i].min <= values[i] <= SliderConfigs[i].max
  }

  lemma InitialValuesInRange()
    ensures InRange(InitialSliderValues)
  {
  }

  /** `calculateBreakTime`, in hours. Beyond 1000 km the break is `distance / 300`
      hours, which is 30 minutes per 150 km (see `LongTripBreakRate`), although the
      comment beside that line in the source speaks of about 10 minutes per 150 km;
      the model follows the code. */
  function BreakTime(distance: real): (b: real)
    ensures b >= 0.0
    ensures distance < 150.0 ==> b == 0.0
  {
    if distance < 150.0 then 0.0
    else if distance <= 500.0 then 0.25
    else if distance <= 1000.0 then 0.5
    else distance / 300.0
  }

  /** A longer trip never gets a shorter break. */
  lemma BreakTimeMonotone(d1: real, d2: real)
    requires d1 <= d2
    ensures BreakTime(d1) <= BreakTime(d2)
  {
  }

  /** Beyond 1000 km, 150 km more adds half an hour of break. */
  lemma LongTripBreakRate(distance: real)
    requires distance > 1000.0
    ensures BreakTime(distance + 150.0) - BreakTime(distance) == 0.5
  {
  }

  /** The value labels' fraction digits, one decimal only for the traffic factor,
      agree with what a range slider derives from each slider's step. */
  lemma SliderValueDigits()
    ensures forall k :: 0 <= k < |SliderConfigs| ==>
              RangeSlider.FractionDigits(SliderConfigs[k].step) == (if k == 2 then 1 else 0)
  {
  }

  /** The estimate in hours. */
  function TravelHours(distance: real, speed: real, factor: real): real
    requires speed != 0.0
  {
    (distance / speed) * factor + BreakTime(distance)
  }

  /** With the sliders in range the speed is at least 40, so the estimate is defined,
      and it is never negative. */
  lemma TravelHoursInRange(values: seq<real>)
    requires InRange(values)
    ensures values[1] >= 40.0
    ensures TravelHours(values[0], values[1], values[2]) >= 0.0
  {
    assert SliderConfigs[1].min <= values[1];
    assert values[0] >= 0.0 && values[2] >= 1.0;
    assert values[0] / values[1] >= 0.0;
  }

  /** `Math.round`: halves go up. */
  function Round(x: real): int {
    (x + 0.5).Floor
  }

  lemma RoundShift(x: real, n: int)
    ensures Round(x + n as real) == Round(x) + n
  {
  }

  datatype Duration = Duration(hours: int, minutes: int)

  /** The split as written: whole hours, then the rest rounded to minutes. */
  function SplitAsWritten(total: real): Duration {
    var hours := total.Floor;
    Duration(hours, Round((total - hours as real) * 60.0))
  }

  /** The split as written rounds the whole trip to the nearest minute, but its
      minutes run from 0 to 60 inclusive, not to 59. */
  lemma SplitAsWrittenBounds(total: real)
    ensures var d := SplitAsWritten(total);
            && 0 <= d.minutes <= 60
            && d.hours * 60 + d.minutes == Round(total * 60.0)
  {
    var h := total.Floor;
    var x := (total - h as real) * 60.0;
    assert 0.0 <= x < 60.0;
    RoundShift(x, h * 60);
    assert x + (h * 60) as real == total * 60.0;
  }

  /** With 160 km at 70 km/h and a factor of 1.2 the trip takes 419/140 hours, just
      under three, and the display reads 2 hours 60 minutes. */
  lemma SixtyMinutesShown()
    ensures TravelHours(160.0, 70.0, 1.2) == 419.0 / 140.0
    ensures SplitAsWritten(TravelHours(160.0, 70.0, 1.2)) == Duration(2, 60)
  {
    var t := TravelHours(160.0, 70.0, 1.2);
    assert BreakTime(160.0) == 0.25;
    assert t == 419.0 / 140.0;
    assert t.Floor == 2;
    assert (t - 2.0) * 60.0 + 0.5 == 841.0 / 14.0;
    assert (841.0 / 14.0).Floor == 60;
  }

  /** The intended split: round the whole trip to minutes once, then carry. */
  function Split(total: real): (d: Duration)
    ensures 0 <= d.minutes < 60
    ensures d.hours * 60 + d.minutes == Round(total * 60.0)
  {
    var m := Round(total * 60.0);
    Duration(m / 60, m % 60)
  }

  /** The two splits agree except where the written one shows 60 minutes, which the
      intended one carries into the next hour. */
  lemma SplitAgreesBelowSixty(total: real)
    ensures SplitAsWritten(total).minutes < 60 ==> Split(total) == SplitAsWritten(total)
    ensures SplitAsWritten(total).minutes == 60 ==>
            Split(total) == Duration(SplitAsWritten(total).hours + 1, 0)
  {
    SplitAsWrittenBounds(total);
    var w := SplitAsWritten(total);
    var m := Round(total * 60.0);
    if w.minutes < 60 {
      DivModUnique(m, w.hours, w.minutes);
    } else {
      assert m == (w.hours + 1) * 60 + 0;
      DivModUnique(m, w.hours + 1, 0);
    }
  }

  lemma DivModUnique(m: int, q: int, r: int)
    requires 0 <= r < 60 && m == q * 60 + r
    ensures m / 60 == q && m % 60 == r
  {
  }

  class Calculator {
    var sliderValues: seq<real>
    var travelTime: Duration

    predicate Valid()
      reads this
    {
      InRange(sliderValues)
    }

    /** Mounting: the initial values, then the effect computes the first estimate
        (with the intended split; see `SplitAgreesBelowSixty`). */
    constructor()
      ensures Valid() && sliderValues == InitialSliderValues
      ensures travelTime == Split(TravelHours(300.0, 60.0, 1.5)) == Duration(7, 45)
    {
      sliderValues := InitialSliderValues;
      travelTime := Split(TravelHours(300.0, 60.0, 1.5));
      assert TravelHours(300.0, 60.0, 1.5) == 7.75;
      assert Round(7.75 * 60.0) == 465;
    }

    /** A slider moved: its slot takes the new value, the others keep theirs, and the
        effect recomputes the estimate from the new values. */
    method HandleSliderChange(index: nat, value: real)
      requires Valid() && index < |sliderValues|
      requires SliderConfigs[index].min <= value <= SliderConfigs[index].max
      modifies this
      ensures Valid()
      ensures sliderValues == old(sliderValues)[index := value]
      ensures travelTime == Split(TravelHours(sliderValues[0], sliderValues[1], sliderValues[2]))
      ensures 0 <= travelTime.hours && 0 <= travelTime.minutes < 60
    {
      sliderValues := sliderValues[index := value];
      TravelHoursInRange(sliderValues);
      var total := TravelHours(sliderValues[0], sliderValues[1], sliderValues[2]);
      travelTime := Split(total);
    }
  }
}
