/** The FillBar of fillbar.js: a value drawn as a filled bar that moves toward a target
    value at `max / duration` units per millisecond and never passes it.  The clock is
    an explicit `now` argument; the shapes drawn are reduced to the width of the last
    fill rectangle and whether the fade-in tween was started. */
module FillBars {
  import opened Wrappers

  /** The constructor options the model reads; `None` is an omitted key. */
  datatype FillOptions = FillOptions(
    width: Option<real>,
    height: Option<real>,
    max: Option<real>,
    value: Option<real>,
    targetValue: Option<real>,
    duration: Option<real>)

  /** The fields of a fill bar.  `duration` is in milliseconds, `drawn` is the width of
      the last fill rectangle drawn (`None` before the first) and `revealed` records
      that the tween to full opacity was started. */
  datatype FillState = FillState(
    width: real,
    height: real,
    max: real,
    value: real,
    targetValue: real,
    duration: real,
    lastTick: int,
    drawn: Option<real>,
    revealed: bool)

  const NoOptions := FillOptions(None, None, None, None, None, None)

  /** The constructor: each omitted option takes its default; the duration option is
      in seconds. */
  function NewFill(o: FillOptions, now: int): FillState {
    FillState(o.width.GetOr(100.0), o.height.GetOr(20.0), o.max.GetOr(100.0),
              o.value.GetOr(0.0), o.targetValue.GetOr(100.0),
              o.duration.GetOr(2.0) * 1000.0, now, None, false)
  }

  /** The width of the fill rectangle `drawFillPosition` draws inside the 2-pixel
      border. */
  function FillWidth(width: real, max: real, value: real): real
    requires max != 0.0
  {
    ((width - 4.0) / max) * value
  }

  function Min(a: real, b: real): real {
    if a <= b then a else b
  }

  function Max(a: real, b: real): real {
    if a >= b then a else b
  }

  /** `tick`: a value above the target falls and one below it rises by
      `(elapsed / duration) * max`, clamped at the target, and the fill is redrawn; a
      value at the target stays and nothing is drawn.  `lastTick` always moves on. */
  function TickStep(f: FillState, now: int): FillState
    requires f.duration != 0.0 && f.max != 0.0
  {
    var elapsed := (now - f.lastTick) as real;
    var step := (elapsed / f.duration) * f.max;
    if f.value > f.targetValue then
      var v := Max(f.targetValue, f.value - step);
      f.(value := v, drawn := Some(FillWidth(f.width, f.max, v)), lastTick := now)
    else if f.value < f.targetValue then
      var v := Min(f.targetValue, f.value + step);
      f.(value := v, drawn := Some(FillWidth(f.width, f.max, v)), lastTick := now)
    else
      f.(lastTick := now)
  }

  /** `setTargetValue(v, d)`: the target and `lastTick` are always set; only a target
      other than the current value takes the new duration (`d`, or 1000 ms when `d` is
      omitted or 0) and starts the fade-in. */
  function SetTarget(f: FillState, v: real, d: Option<real>, now: int): FillState {
    var g := f.(lastTick := now, targetValue := v);
    if v != f.value then
      g.(duration := if d.Some? && d.value != 0.0 then d.value else 1000.0, revealed := true)
    else g
  }

  /** How far the value is from its target. */
  function Distance(f: FillState): real {
    if f.value <= f.targetValue then f.targetValue - f.value else f.value - f.targetValue
  }

  /** The state after one tick at each of `times`, in order. */
  function Ticks(f: FillState, times: seq<int>): FillState
    requires f.duration != 0.0 && f.max != 0.0
    decreases |times|
  {
    if times == [] then f
    else
      var g := TickStep(f, times[0]);
      assert g.duration == f.duration && g.max == f.max;
      Ticks(g, times[1..])
  }

  // ---------------------------------------------------------------- properties

  /** The defaults: max 100, value 0, target 100, two seconds stored as 2000 ms, a
      100 by 20 bar; an explicit duration is taken in seconds. */
  lemma Defaults(now: int, seconds: real)
    ensures var f := NewFill(NoOptions, now);
      && f.max == 100.0 && f.value == 0.0 && f.targetValue == 100.0 && f.duration == 2000.0
      && f.width == 100.0 && f.height == 20.0 && f.lastTick == now && f.drawn.None? && !f.revealed
    ensures NewFill(NoOptions.(duration := Some(seconds)), now).duration == seconds * 1000.0
  {
  }

  /** One tick: the value never passes the target, stays put (undrawn) at the target,
      and the clock always moves to `now`; nothing but the value, the drawing and the
      clock changes. */
  lemma TickEffect(f: FillState, now: int)
    requires f.duration != 0.0 && f.max != 0.0
    ensures var g := TickStep(f, now);
      && g.lastTick == now
      && g == f.(value := g.value, drawn := g.drawn, lastTick := now)
      && (f.value < f.targetValue ==> g.value <= f.targetValue && g.drawn == Some(FillWidth(f.width, f.max, g.value)))
      && (f.value > f.targetValue ==> g.value >= f.targetValue && g.drawn == Some(FillWidth(f.width, f.max, g.value)))
      && (f.value == f.targetValue ==> g.value == f.value && g.drawn == f.drawn)
  {
  }

  /** With time running forward, one tick closes the gap to the target by exactly the
      step `(elapsed / duration) * max`, down to no gap at all. */
  lemma TickCloses(f: FillState, now: int)
    requires f.duration > 0.0 && f.max > 0.0 && now >= f.lastTick
    ensures Distance(TickStep(f, now)) == Max(0.0, Distance(f) - ((now - f.lastTick) as real / f.duration) * f.max)
  {
    var step := ((now - f.lastTick) as real / f.duration) * f.max;
    NonNegativeStep((now - f.lastTick) as real, f.duration, f.max);
  }

  lemma NonNegativeStep(e: real, d: real, m: real)
    requires e >= 0.0 && d > 0.0 && m > 0.0
    ensures (e / d) * m >= 0.0
  {
    assert e / d >= 0.0;
  }

  /** With time running forward, the new value lies between the old value and the
      target, so a bar whose value and target are in [0, max] stays in [0, max]. */
  lemma TickBetween(f: FillState, now: int)
    requires f.duration > 0.0 && f.max > 0.0 && now >= f.lastTick
    ensures var v := TickStep(f, now).value;
      Min(f.value, f.targetValue) <= v <= Max(f.value, f.targetValue)
    ensures 0.0 <= f.value <= f.max && 0.0 <= f.targetValue <= f.max ==>
      0.0 <= TickStep(f, now).value <= f.max
  {
    NonNegativeStep((now - f.lastTick) as real, f.duration, f.max);
  }

  /** A tick a whole duration after the last one lands on the target when both values
      are in [0, max]. */
  lemma TickReachesTarget(f: FillState, now: int)
    requires f.duration > 0.0 && f.max > 0.0
    requires 0.0 <= f.value <= f.max && 0.0 <= f.targetValue <= f.max
    requires (now - f.lastTick) as real >= f.duration
    ensures TickStep(f, now).value == f.targetValue
  {
    var e := (now - f.lastTick) as real;
    AtLeastOne(e, f.duration);
    StepAtLeastMax(e / f.duration, f.max);
    var step := (e / f.duration) * f.max;
    assert step >= f.max;
    if f.value > f.targetValue {
      assert f.value - step <= f.targetValue;
    } else if f.value < f.targetValue {
      assert f.value + step >= f.targetValue;
    }
  }

  lemma AtLeastOne(e: real, d: real)
    requires d > 0.0 && e >= d
    ensures e / d >= 1.0
  {
  }

  lemma StepAtLeastMax(q: real, m: real)
    requires q >= 1.0 && m > 0.0
    ensures q * m >= m
  {
    assert q * m - m == (q - 1.0) * m;
  }

  lemma StepsAdd(a: real, b: real, d: real, m: real)
    requires d != 0.0
    ensures (a / d) * m + (b / d) * m == ((a + b) / d) * m
  {
    assert a / d + b / d == (a + b) / d;
  }

  /** Tick times that never run backward. */
  predicate Forward(times: seq<int>) {
    forall i, j :: 0 <= i < j < |times| ==> times[i] <= times[j]
  }

  /** The step of a tick at `now`. */
  function Step(f: FillState, now: int): real
    requires f.duration != 0.0
  {
    ((now - f.lastTick) as real / f.duration) * f.max
  }

  lemma ClampedGaps(x: real, s1: real, s2: real)
    requires s1 >= 0.0 && s2 >= 0.0
    ensures Max(0.0, Max(0.0, x - s1) - s2) == Max(0.0, x - (s1 + s2))
  {
  }

  /** Ticks at times running forward close the gap by the step of the whole time since
      the first `lastTick`, however the ticks fall. */
  lemma {:induction false} TicksClose(f: FillState, times: seq<int>)
    requires f.duration > 0.0 && f.max > 0.0 && times != []
    requires times[0] >= f.lastTick
    requires Forward(times)
    ensures Distance(Ticks(f, times)) == Max(0.0, Distance(f) - Step(f, times[|times| - 1]))
    decreases |times|
  {
    var g := TickStep(f, times[0]);
    TickCloses(f, times[0]);
    if |times| > 1 {
      var rest := times[1..];
      ForwardTail(times);
      assert Ticks(f, times) == Ticks(g, rest);
      TickKeepsRate(f, times[0]);
      TicksClose(g, rest);
      var t0, t1, tn := f.lastTick, times[0], times[|times| - 1];
      assert rest[|rest| - 1] == tn;
      StepsCompose(f, g, t1, tn);
      ClampedGaps(Distance(f), Step(f, t1), Step(g, tn));
    }
  }

  lemma ForwardTail(times: seq<int>)
    requires times != [] && Forward(times)
    ensures Forward(times[1..]) && times[0] <= times[|times| - 1]
  {
    var rest := times[1..];
    forall i, j | 0 <= i < j < |rest| ensures rest[i] <= rest[j] {
      assert rest[i] == times[i + 1] && rest[j] == times[j + 1];
    }
  }

  lemma TickKeepsRate(f: FillState, now: int)
    requires f.duration != 0.0 && f.max != 0.0
    ensures var g := TickStep(f, now);
      g.lastTick == now && g.duration == f.duration && g.max == f.max
  {
  }

  lemma StepsCompose(f: FillState, g: FillState, t1: int, tn: int)
    requires f.duration > 0.0 && f.max > 0.0
    requires g.lastTick == t1 && g.duration == f.duration && g.max == f.max
    requires f.lastTick <= t1 <= tn
    ensures Step(f, t1) >= 0.0 && Step(g, tn) >= 0.0
    ensures Step(f, t1) + Step(g, tn) == Step(f, tn)
  {
    StepsAdd((t1 - f.lastTick) as real, (tn - t1) as real, f.duration, f.max);
    NonNegativeStep((t1 - f.lastTick) as real, f.duration, f.max);
    NonNegativeStep((tn - t1) as real, f.duration, f.max);
  }

  /** Once a whole duration has passed since the bar was last touched, it shows its
      target, however many ticks that took. */
  lemma ReachesTargetAfterDuration(f: FillState, times: seq<int>)
    requires f.duration > 0.0 && f.max > 0.0 && times != []
    requires 0.0 <= f.value <= f.max && 0.0 <= f.targetValue <= f.max
    requires times[0] >= f.lastTick
    requires Forward(times)
    requires (times[|times| - 1] - f.lastTick) as real >= f.duration
    ensures Ticks(f, times).value == Ticks(f, times).targetValue == f.targetValue
  {
    var g := Ticks(f, times);
    var s := Step(f, times[|times| - 1]);
    GapCovered(f, times);
    TicksClose(f, times);
    assert Distance(g) == Max(0.0, Distance(f) - s);
    assert Distance(g) == 0.0;
    TicksKeepTarget(f, times);
  }

  lemma GapCovered(f: FillState, times: seq<int>)
    requires f.duration > 0.0 && f.max > 0.0 && times != []
    requires 0.0 <= f.value <= f.max && 0.0 <= f.targetValue <= f.max
    requires (times[|times| - 1] - f.lastTick) as real >= f.duration
    ensures Distance(f) <= Step(f, times[|times| - 1])
  {
    var e := (times[|times| - 1] - f.lastTick) as real;
    AtLeastOne(e, f.duration);
    StepAtLeastMax(e / f.duration, f.max);
  }

  lemma {:induction false} TicksKeepTarget(f: FillState, times: seq<int>)
    requires f.duration != 0.0 && f.max != 0.0
    ensures Ticks(f, times).targetValue == f.targetValue
    decreases |times|
  {
    if times != [] {
      TicksKeepTarget(TickStep(f, times[0]), times[1..]);
    }
  }

  /** `setTargetValue`: the target and the clock are set, the value is kept; a new
      target takes the given duration (1000 ms by default) and fades the bar in, while
      re-targeting the current value leaves duration and opacity alone. */
  lemma SetTargetEffect(f: FillState, v: real, d: Option<real>, now: int)
    ensures var g := SetTarget(f, v, d, now);
      && g.targetValue == v && g.lastTick == now && g.value == f.value
      && (v != f.value ==>
            g.revealed && g.duration == (if d.Some? && d.value != 0.0 then d.value else 1000.0))
      && (v == f.value ==> g.duration == f.duration && g.revealed == f.revealed)
    ensures v != f.value ==> SetTarget(f, v, None, now).duration == 1000.0
  {
  }

  /** The fill is empty at value 0, spans the inner width at `max`, and grows with the
      value. */
  lemma FillWidthRange(width: real, max: real, v1: real, v2: real)
    requires max > 0.0 && width >= 4.0
    ensures FillWidth(width, max, 0.0) == 0.0
    ensures FillWidth(width, max, max) == width - 4.0
    ensures v1 <= v2 ==> FillWidth(width, max, v1) <= FillWidth(width, max, v2)
  {
    var k := (width - 4.0) / max;
    assert k >= 0.0;
    if v1 <= v2 {
      assert k * v2 - k * v1 == k * (v2 - v1);
    }
  }

  // ---------------------------------------------------------------- the object

  class FillBar {
    var width: real
    var height: real
    var max: real
    var value: real
    var targetValue: real
    var duration: real
    var lastTick: int
    var drawn: Option<real>
    var revealed: bool

    function View(): FillState
      reads this
    {
      FillState(width, height, max, value, targetValue, duration, lastTick, drawn, revealed)
    }

    constructor(o: FillOptions, now: int)
      ensures View() == NewFill(o, now)
    {
      width := if o.width.Some? then o.width.value else 100.0;
      height := if o.height.Some? then o.height.value else 20.0;
      max := if o.max.Some? then o.max.value else 100.0;
      value := if o.value.Some? then o.value.value else 0.0;
      targetValue := if o.targetValue.Some? then o.targetValue.value else 100.0;
      duration := (if o.duration.Some? then o.duration.value else 2.0) * 1000.0;
      lastTick := now;
      drawn := None;
      revealed := false;
    }

    method DrawFillPosition()
      requires max != 0.0
      modifies this
      ensures View() == old(View()).(drawn := Some(FillWidth(old(width), old(max), old(value))))
    {
      drawn := Some(((width - 4.0) / max) * value);
    }

    method Tick(now: int)
      requires duration != 0.0 && max != 0.0
      modifies this
      ensures View() == TickStep(old(View()), now)
    {
      var elapsed := (now - lastTick) as real;
      if value > targetValue {
        value := Max(targetValue, value - ((elapsed / duration) * max));
        DrawFillPosition();
      } else if value < targetValue {
        value := Min(targetValue, value + ((elapsed / duration) * max));
        DrawFillPosition();
      }
      lastTick := now;
    }

    method SetTargetValue(v: real, d: Option<real>, now: int)
      modifies this
      ensures View() == SetTarget(old(View()), v, d, now)
    {
      lastTick := now;
      targetValue := v;
      if v != value {
        duration := if d.Some? && d.value != 0.0 then d.value else 1000.0;
        revealed := true;
      }
    }
  }
}
