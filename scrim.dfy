/** The ButtonScrim of button.scrim.js: a two-phase countdown (active, then
    recharging) in milliseconds, with the idle sentinel -1, and the clock-like reveal
    drawn by rotating two half discs.  The clock is an explicit `now` argument. */
module Scrim {
  import opened Wrappers

  datatype Phase = Active | Recharging

  /** What `tick` emits when a countdown has finished. */
  datatype ScrimEvent = ActiveComplete | Recharged

  /** The rotations of the two half discs. */
  datatype Halves = Halves(first: real, second: real)

  /** The fields of a scrim.  `None` stands for undefined: the phase before the first
      countdown, durations never configured, and a `remaining` copied from an
      undefined duration. */
  datatype ScrimState = ScrimState(
    phase: Option<Phase>,
    activeTime: Option<real>,
    rechargingTime: Option<real>,
    time: Option<real>,
    remaining: Option<real>,
    lastTick: int,
    rotation: Halves)

  /** The sentinel that marks a scrim with no countdown in progress. */
  const Idle: real := -1.0

  /** A new scrim: idle, no durations, both halves at rotation 0. */
  function NewScrim(): (s: ScrimState)
    ensures s.remaining == Some(Idle) && s.phase.None? && s.rotation == Halves(0.0, 0.0)
  {
    ScrimState(None, None, None, None, Some(Idle), 0, Halves(0.0, 0.0))
  }

  function WithActiveTime(s: ScrimState, seconds: real): ScrimState {
    s.(activeTime := Some(seconds * 1000.0))
  }

  function WithRechargingTime(s: ScrimState, seconds: real): ScrimState {
    s.(rechargingTime := Some(seconds * 1000.0))
  }

  /** `this[state + 'Time']`. */
  function PhaseTime(s: ScrimState, p: Phase): Option<real> {
    match p
    case Active => s.activeTime
    case Recharging => s.rechargingTime
  }

  /** `setCountdown(phase, remaining)`: a numeric `remaining` is in seconds, anything
      else starts the phase at its full duration. */
  function Countdown(s: ScrimState, p: Phase, remaining: Option<real>, now: int): ScrimState {
    var t := PhaseTime(s, p);
    s.(phase := Some(p), time := t,
       remaining := if remaining.Some? then Some(remaining.value * 1000.0) else t,
       lastTick := now)
  }

  /** `rotate(deg)`: the first half turns up to just past half way, the second half
      carries the rest. */
  function Rotation(deg: real): (h: Halves)
    ensures h.first + h.second == deg
    ensures deg < 180.0 ==> h == Halves(deg, 0.0)
    ensures deg >= 180.0 ==> h.first == 180.001 && h.second == deg - 180.001
  {
    if deg >= 180.0 then Halves(180.001, -(180.001 - deg)) else Halves(deg, 0.0)
  }

  /** The reveal angle while recharging: 0 at full duration, 360 when done. */
  function RevealAngle(remaining: real, time: real): real
    requires time != 0.0
  {
    360.0 - (remaining / time) * 360.0
  }

  /** `parseInt(remaining, 10) === 0` for a non-positive remaining time. */
  predicate Finishing(r: real) {
    -1.0 < r <= 0.0
  }

  datatype TickResult = TickResult(state: ScrimState, event: Option<ScrimEvent>)

  function TickStep(s: ScrimState, now: int): TickResult {
    if s.remaining.Some? && s.remaining.value > 0.0 then
      var elapsed := (now - s.lastTick) as real;
      var r := if s.remaining.value - elapsed > 0.0 then s.remaining.value - elapsed else 0.0;
      var rotation :=
        if s.phase == Some(Recharging) && s.time.Some? && s.time.value != 0.0
        then Rotation(RevealAngle(r, s.time.value)) else s.rotation;
      TickResult(s.(remaining := Some(r), lastTick := now, rotation := rotation), None)
    else if s.remaining.Some? && Finishing(s.remaining.value) then
      TickResult(s.(remaining := Some(Idle)),
                 Some(if s.phase == Some(Recharging) then Recharged else ActiveComplete))
    else TickResult(s, None)
  }

  // ---------------------------------------------------------------- properties

  predicate IsIdle(s: ScrimState) {
    s.remaining.None? || s.remaining.value <= Idle
  }

  /** Ticking an idle scrim changes nothing and emits nothing. */
  lemma TickIdle(s: ScrimState, now: int)
    requires IsIdle(s)
    ensures TickStep(s, now) == TickResult(s, None)
  {
  }

  lemma NewScrimIsIdle(now: int)
    ensures IsIdle(NewScrim()) && TickStep(NewScrim(), now) == TickResult(NewScrim(), None)
  {
  }

  /** Both duration setters store milliseconds and touch nothing else. */
  lemma DurationsInMilliseconds(s: ScrimState, seconds: real)
    ensures WithActiveTime(s, seconds) == s.(activeTime := Some(1000.0 * seconds))
    ensures WithRechargingTime(s, seconds) == s.(rechargingTime := Some(1000.0 * seconds))
    ensures PhaseTime(WithActiveTime(s, seconds), Active) == Some(1000.0 * seconds)
    ensures PhaseTime(WithRechargingTime(s, seconds), Recharging) == Some(1000.0 * seconds)
  {
  }

  /** A countdown with no numeric remaining time starts at the phase's full duration;
      a numeric one starts at that many seconds; either way the tick clock restarts. */
  lemma CountdownStarts(s: ScrimState, p: Phase, remaining: Option<real>, now: int)
    ensures var c := Countdown(s, p, remaining, now);
      && c.phase == Some(p) && c.lastTick == now
      && c.time == (if p == Active then s.activeTime else s.rechargingTime)
      && c.remaining == (if remaining.Some? then Some(1000.0 * remaining.value) else c.time)
      && c.activeTime == s.activeTime && c.rechargingTime == s.rechargingTime
  {
  }

  /** While time remains, a tick subtracts the elapsed time, never going below 0, and
      emits nothing. */
  lemma TickCounts(s: ScrimState, now: int)
    requires s.remaining.Some? && s.remaining.value > 0.0
    ensures var t := TickStep(s, now);
      var r := t.state.remaining.value;
      && t.state.remaining.Some? && t.event.None? && t.state.lastTick == now
      && r >= 0.0
      && (r == s.remaining.value - (now - s.lastTick) as real || (r == 0.0 && s.remaining.value <= (now - s.lastTick) as real))
      && t.state.phase == s.phase && t.state.time == s.time
  {
  }

  /** A tick at 0 (or just below) returns to idle and emits the completion of the
      phase: `recharged` after recharging, `activeComplete` otherwise. */
  lemma TickCompletes(s: ScrimState, now: int)
    requires s.remaining.Some? && Finishing(s.remaining.value)
    ensures var t := TickStep(s, now);
      && t.state == s.(remaining := Some(Idle))
      && t.event == Some(if s.phase == Some(Recharging) then Recharged else ActiveComplete)
  {
  }

  /** The tick that brings the remaining time to 0 emits nothing; the next tick emits
      the completion, whatever the clock then says. */
  lemma CompletesOnTheTickAfterZero(s: ScrimState, now1: int, now2: int)
    requires s.remaining.Some? && s.remaining.value > 0.0
    requires (now1 - s.lastTick) as real >= s.remaining.value
    ensures TickStep(s, now1).event.None?
    ensures TickStep(s, now1).state.remaining == Some(0.0)
    ensures TickStep(TickStep(s, now1).state, now2).event.Some?
    ensures IsIdle(TickStep(TickStep(s, now1).state, now2).state)
  {
  }

  /** Ticks at the given times in order: the final state and the events emitted. */
  function Run(s: ScrimState, times: seq<int>): (ScrimState, seq<ScrimEvent>)
    decreases |times|
  {
    if times == [] then (s, [])
    else
      var t := TickStep(s, times[0]);
      var rest := Run(t.state, times[1..]);
      (rest.0, (if t.event.Some? then [t.event.value] else []) + rest.1)
  }

  lemma {:induction false} RunIdle(s: ScrimState, times: seq<int>)
    requires IsIdle(s)
    ensures Run(s, times) == (s, [])
    decreases |times|
  {
    if times != [] {
      TickIdle(s, times[0]);
      RunIdle(s, times[1..]);
      assert Run(s, times) == (Run(s, times[1..]).0, [] + Run(s, times[1..]).1);
      assert Run(s, times[1..]) == (s, []);
      assert Run(s, times).0 == s;
      assert Run(s, times).1 == [];
    }
  }

  /** Completion fires at most once per countdown: from any state, any sequence of
      ticks emits no more than one event, and after it the scrim stays idle. */
  lemma {:induction false} CompletionFiresOnce(s: ScrimState, times: seq<int>)
    ensures |Run(s, times).1| <= 1
    ensures |Run(s, times).1| == 1 ==> IsIdle(Run(s, times).0)
    decreases |times|
  {
    if times != [] {
      var t := TickStep(s, times[0]);
      if t.event.Some? {
        RunIdle(t.state, times[1..]);
      } else {
        CompletionFiresOnce(t.state, times[1..]);
      }
    }
  }

  /** While recharging with a positive duration and a remaining time within it, the
      reveal angle lies in [0, 360] and grows as the remaining time falls. */
  lemma RevealAngleRange(r1: real, r2: real, time: real)
    requires time > 0.0 && 0.0 <= r2 <= r1 <= time
    ensures 0.0 <= RevealAngle(r1, time) <= RevealAngle(r2, time) <= 360.0
    ensures RevealAngle(time, time) == 0.0 && RevealAngle(0.0, time) == 360.0
  {
    assert r2 / time <= r1 / time <= 1.0 by {
      assert r1 / time <= time / time;
    }
  }

  /** With a clock that does not run backwards the remaining time of a countdown stays
      within [0, duration]. */
  lemma TickKeepsWithinDuration(s: ScrimState, now: int)
    requires s.time.Some? && s.remaining.Some? && 0.0 < s.remaining.value <= s.time.value
    requires now >= s.lastTick
    ensures var r := TickStep(s, now).state.remaining;
      r.Some? && 0.0 <= r.value <= s.time.value
  {
  }

  // ---------------------------------------------------------------- the object

  class ButtonScrim {
    var phase: Option<Phase>
    var activeTime: Option<real>
    var rechargingTime: Option<real>
    var time: Option<real>
    var remaining: Option<real>
    var lastTick: int
    var rotation: Halves

    function View(): ScrimState
      reads this
    {
      ScrimState(phase, activeTime, rechargingTime, time, remaining, lastTick, rotation)
    }

    constructor()
      ensures View() == NewScrim()
    {
      phase, activeTime, rechargingTime, time := None, None, None, None;
      remaining := Some(Idle);
      lastTick := 0;
      rotation := Halves(0.0, 0.0);
    }

    method Rotate(deg: real)
      modifies this
      ensures View() == old(View()).(rotation := Rotation(deg))
    {
      var halfway := deg >= 180.0;
      rotation := Halves(if halfway then 180.001 else deg, if halfway then -(180.001 - deg) else 0.0);
    }

    method SetActiveTime(seconds: real)
      modifies this
      ensures View() == WithActiveTime(old(View()), seconds)
    {
      activeTime := Some(seconds * 1000.0);
    }

    method SetRechargingTime(seconds: real)
      modifies this
      ensures View() == WithRechargingTime(old(View()), seconds)
    {
      rechargingTime := Some(seconds * 1000.0);
    }

    method SetCountdown(p: Phase, r: Option<real>, now: int)
      modifies this
      ensures View() == Countdown(old(View()), p, r, now)
    {
      phase := Some(p);
      time := if p == Active then activeTime else rechargingTime;
      remaining := if r.Some? then Some(r.value * 1000.0) else time;
      lastTick := now;
    }

    method Tick(now: int) returns (event: Option<ScrimEvent>)
      modifies this
      ensures View() == TickStep(old(View()), now).state
      ensures event == TickStep(old(View()), now).event
    {
      event := None;
      if remaining.Some? && remaining.value > 0.0 {
        var elapsed := (now - lastTick) as real;
        var r := if remaining.value - elapsed > 0.0 then remaining.value - elapsed else 0.0;
        if phase == Some(Recharging) && time.Some? && time.value != 0.0 {
          Rotate(RevealAngle(r, time.value));
        }
        lastTick := now;
        remaining := Some(r);
      } else if remaining.Some? && Finishing(remaining.value) {
        remaining := Some(Idle);
        event := Some(if phase == Some(Recharging) then Recharged else ActiveComplete);
      }
    }
  }
}
