/**
 * The countdown bar of the Vite version (`src/components/TimerBar.tsx`): the
 * share of the time left as a clamped percentage, and the time left as
 * minutes and two-digit seconds.
 */
module TimerBar {
  import opened Text
  import opened JsMath

  /**
   * `Math.max(0, Math.min(100, (timeLeft / totalTime) * 100))` on exact
   * rationals. A zero `totalTime` gives JavaScript's infinities, clamped, or
   * NaN (`None`) for `0 / 0`.
   */
  function Percentage(timeLeft: int, totalTime: int): (p: Option<real>)
    ensures p.Some? ==> 0.0 <= p.value <= 100.0
    ensures p.None? <==> timeLeft == 0 && totalTime == 0
  {
    if totalTime == 0 then
      if timeLeft > 0 then Some(100.0) else if timeLeft < 0 then Some(0.0) else None
    else
      var ratio := (timeLeft as real / totalTime as real) * 100.0;
      Some(if ratio > 100.0 then 100.0 else if ratio < 0.0 then 0.0 else ratio)
  }

  /** Within the budget the bar is the exact share of time left, and it shrinks as the time does. */
  lemma PercentageInBudget(timeLeft: int, earlier: int, totalTime: int)
    requires 0 <= timeLeft <= earlier <= totalTime && totalTime > 0
    ensures Percentage(timeLeft, totalTime) == Some((timeLeft as real / totalTime as real) * 100.0)
    ensures Percentage(timeLeft, totalTime).value <= Percentage(earlier, totalTime).value
    ensures Percentage(totalTime, totalTime) == Some(100.0) && Percentage(0, totalTime) == Some(0.0)
  {
    var t := totalTime as real;
    DivMono(0.0, timeLeft as real, t);
    DivMono(timeLeft as real, earlier as real, t);
    DivMono(earlier as real, t, t);
    DivSelf(t);
    var a := timeLeft as real / t;
    var b := earlier as real / t;
    assert 0.0 <= a <= b <= 1.0;
    assert 0.0 <= a * 100.0 <= b * 100.0 <= 100.0;
  }

  lemma DivSelf(t: real)
    requires t > 0.0
    ensures t / t == 1.0 && 0.0 / t == 0.0
  {
  }

  lemma DivMono(x: real, y: real, t: real)
    requires x <= y && t > 0.0
    ensures x / t <= y / t
  {
    var d := (y - x) / t;
    assert d * t == y - x;
    assert y / t - x / t == d;
  }

  /** The label: `Math.round(percentage)`; `None` shows as NaN. */
  function Label(p: Option<real>): (r: Option<int>)
    requires p.Some? ==> 0.0 <= p.value <= 100.0
    ensures r.Some? <==> p.Some?
    ensures r.Some? ==> 0 <= r.value <= 100
    ensures r.Some? ==> r.value as real - 0.5 <= p.value < r.value as real + 0.5
  {
    if p.None? then None else Some(RoundReal(p.value))
  }

  /** `Math.floor(timeLeft / 60)` */
  function Minutes(timeLeft: int): int
  {
    FloorDiv(timeLeft, 60)
  }

  /** `String(timeLeft % 60).padStart(2, "0")` */
  function SecondsText(timeLeft: int): string
  {
    PadStart2(IntToString(JsRem(timeLeft, 60)))
  }

  /** `Time Left: {minutes}:{seconds}` */
  function Display(timeLeft: int): string
  {
    IntToString(Minutes(timeLeft)) + ":" + SecondsText(timeLeft)
  }

  /**
   * For a time left that is not negative, the minutes and the seconds shown
   * make up the time exactly, and the seconds are two digits that read back
   * as a number below 60.
   */
  lemma TimeParts(timeLeft: int)
    requires timeLeft >= 0
    ensures 60 * Minutes(timeLeft) + JsRem(timeLeft, 60) == timeLeft
    ensures 0 <= JsRem(timeLeft, 60) < 60
    ensures |SecondsText(timeLeft)| == 2
    ensures ParseInt(SecondsText(timeLeft)) == Some(JsRem(timeLeft, 60))
  {
    var s := JsRem(timeLeft, 60);
    ParseIntPadStart2(s);
    assert IntToString(s) == NatToString(s);
  }
}
