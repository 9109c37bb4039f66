/** The Button of button.js: six named states, a sprite index, the `queued` flag set
    by its bar, and a scrim.  `setState` coerces unknown names to `off`, announces the
    timed states and arms the scrim for them; a click is decided by the button's state
    and by whether some button of the bar is active. */
module Buttons {
  import opened Wrappers
  import Scrim

  datatype ButtonState = On | Off | Disabled | Mousedown | Active | Recharging

  /** The entries of `Button.buttonStates`. */
  function StateName(s: ButtonState): string {
    match s
    case On => "on"
    case Off => "off"
    case Disabled => "disabled"
    case Mousedown => "mousedown"
    case Active => "active"
    case Recharging => "recharging"
  }

  /** `_.contains(Button.buttonStates, name) ? name : 'off'`. */
  function ParseState(name: string): ButtonState {
    if name == "on" then On
    else if name == "off" then Off
    else if name == "disabled" then Disabled
    else if name == "mousedown" then Mousedown
    else if name == "active" then Active
    else if name == "recharging" then Recharging
    else Off
  }

  /** Every state is stored under its own name, and a name that is none of the six
      becomes `off`. */
  lemma ParseStateCoerces(s: ButtonState, name: string)
    ensures ParseState(StateName(s)) == s
    ensures ParseState(name) == s <==> name == StateName(s) || (s == Off && forall t :: StateName(t) != name)
  {
    var known := name == StateName(On) || name == StateName(Off) || name == StateName(Disabled)
      || name == StateName(Mousedown) || name == StateName(Active) || name == StateName(Recharging);
    if known {
      assert ParseState(name) == s <==> name == StateName(s);
    } else {
      forall t
        ensures StateName(t) != name
      {
        match t
        case On =>
        case Off =>
        case Disabled =>
        case Mousedown =>
        case Active =>
        case Recharging =>
      }
    }
  }

  /** The scrim phase a timed state runs. */
  function PhaseOf(s: ButtonState): Option<Scrim.Phase> {
    match s
    case Active => Some(Scrim.Active)
    case Recharging => Some(Scrim.Recharging)
    case _ => None
  }

  datatype ButtonV = ButtonV(state: ButtonState, index: int, queued: bool, scrim: Scrim.ScrimState)

  /** `new Button(...)`: state `off`, sprite index 0, not queued, an idle scrim. */
  function NewButton(): (b: ButtonV)
    ensures b.state == Off && b.index == 0 && !b.queued && Scrim.IsIdle(b.scrim)
  {
    ButtonV(Off, 0, false, Scrim.NewScrim())
  }

  /** The events a Button emits to its bar: `waiting`, or the name of a timed state. */
  datatype ButtonEvent = BecameActive | BecameRecharging | Waiting

  datatype Changed = Changed(button: ButtonV, event: Option<ButtonEvent>)

  /** `setState(state, remaining)`: the timed states are announced first, then the
      scrim counts down that phase from `remaining` seconds (or its full duration). */
  function ApplyState(b: ButtonV, s: ButtonState, remaining: Option<real>, now: int): Changed {
    match PhaseOf(s)
    case None => Changed(b.(state := s), None)
    case Some(p) =>
      Changed(b.(state := s, scrim := Scrim.Countdown(b.scrim, p, remaining, now)),
              Some(if s == Active then BecameActive else BecameRecharging))
  }

  /** `setIndex(index)`: a missing or falsy index is 0. */
  function ApplyIndex(b: ButtonV, index: Option<int>): ButtonV {
    b.(index := index.GetOr(0))
  }

  /** The duration proxies pass `seconds || 0` on to the scrim. */
  function ApplyActiveTime(b: ButtonV, seconds: Option<real>): ButtonV {
    b.(scrim := Scrim.WithActiveTime(b.scrim, seconds.GetOr(0.0)))
  }

  function ApplyRechargingTime(b: ButtonV, seconds: Option<real>): ButtonV {
    b.(scrim := Scrim.WithRechargingTime(b.scrim, seconds.GetOr(0.0)))
  }

  /** What a click does: in `on` it activates unless some button is active, in which
      case the button waits; in `recharging` it waits; otherwise nothing. */
  datatype ClickOutcome = Ignored | Waits | Activates

  function ClickOutcomeOf(s: ButtonState, anyActive: bool): ClickOutcome {
    match s
    case On => if anyActive then Waits else Activates
    case Recharging => Waits
    case _ => Ignored
  }

  function ApplyClick(b: ButtonV, anyActive: bool, now: int): Changed {
    match ClickOutcomeOf(b.state, anyActive)
    case Activates => ApplyState(b, Active, None, now)
    case Waits => Changed(b, Some(Waiting))
    case Ignored => Changed(b, None)
  }

  /** The scrim's completions as the button handles them.  The forwarded argument is
      an event object rather than a number, so recharging starts at full duration. */
  function ScrimHandled(b: ButtonV, e: Scrim.ScrimEvent, now: int): Changed {
    match e
    case ActiveComplete => ApplyState(b, Recharging, None, now)
    case Recharged => ApplyState(b, On, None, now)
  }

  /** The class list `renderSprite` writes. */
  function SpriteClasses(s: ButtonState, queued: bool): seq<string> {
    ["golem-button", "golem-button-" + StateName(s)] + (if queued then ["queued"] else [])
  }

  /** `setBackgroundSprite(state !== 'off')`. */
  predicate ShowsBackground(s: ButtonState) {
    s != Off
  }

  // ---------------------------------------------------------------- properties

  /** `setState` stores the state; the timed states emit their own name and arm the
      scrim for their phase, every other state emits nothing and leaves the scrim. */
  lemma SetStateEffect(b: ButtonV, s: ButtonState, remaining: Option<real>, now: int)
    ensures var c := ApplyState(b, s, remaining, now);
      && c.button.state == s && c.button.index == b.index && c.button.queued == b.queued
      && (s == Active ==>
            c.event == Some(BecameActive)
            && c.button.scrim == Scrim.Countdown(b.scrim, Scrim.Active, remaining, now))
      && (s == Recharging ==>
            c.event == Some(BecameRecharging)
            && c.button.scrim == Scrim.Countdown(b.scrim, Scrim.Recharging, remaining, now))
      && (s != Active && s != Recharging ==> c.event.None? && c.button.scrim == b.scrim)
  {
  }

  /** The click rules, for every state. */
  lemma ClickRules(b: ButtonV, anyActive: bool, now: int)
    ensures var c := ApplyClick(b, anyActive, now);
      && (b.state == On && !anyActive ==> c.button.state == Active && c.event == Some(BecameActive))
      && (b.state == On && anyActive ==> c == Changed(b, Some(Waiting)))
      && (b.state == Recharging ==> c == Changed(b, Some(Waiting)))
      && (b.state !in {On, Recharging} ==> c == Changed(b, None))
  {
  }

  /** A click only ever makes a button active when no button was active before. */
  lemma ClickNeverAddsSecondActive(b: ButtonV, anyActive: bool, now: int)
    requires b.state != Active
    requires ApplyClick(b, anyActive, now).button.state == Active
    ensures !anyActive && b.state == On
  {
  }

  /** The end of the active phase starts a full recharge; the end of the recharge
      turns the button back on and leaves the (idle) scrim alone. */
  lemma ScrimCompletionMapping(b: ButtonV, now: int)
    ensures var c := ScrimHandled(b, Scrim.ActiveComplete, now);
      && c.button.state == Recharging && c.event == Some(BecameRecharging)
      && c.button.scrim.remaining == b.scrim.rechargingTime
      && c.button.scrim.phase == Some(Scrim.Recharging)
    ensures ScrimHandled(b, Scrim.Recharged, now) == Changed(b.(state := On), None)
  {
  }

  /** A missing or falsy index is 0; durations reach the scrim in milliseconds, with an
      omitted one counting as 0. */
  lemma ProxiesDefault(b: ButtonV, seconds: real)
    ensures ApplyIndex(b, None).index == 0
    ensures ApplyActiveTime(b, None).scrim.activeTime == Some(0.0)
    ensures ApplyRechargingTime(b, None).scrim.rechargingTime == Some(0.0)
    ensures ApplyActiveTime(b, Some(seconds)).scrim.activeTime == Some(1000.0 * seconds)
    ensures ApplyRechargingTime(b, Some(seconds)).scrim.rechargingTime == Some(1000.0 * seconds)
  {
  }

  /** The class list names the state and carries `queued` exactly when the flag is
      set; the background is hidden exactly in `off`. */
  lemma SpriteClassList(s: ButtonState, queued: bool)
    ensures var cs := SpriteClasses(s, queued);
      && cs[0] == "golem-button" && cs[1] == "golem-button-" + StateName(s)
      && ("queued" in cs <==> queued)
      && |cs| == if queued then 3 else 2
    ensures !ShowsBackground(s) <==> s == Off
  {
    var cs := SpriteClasses(s, queued);
    assert "golem-button" != "queued";
    assert ("golem-button-" + StateName(s))[..7] == "golem-b";
    assert "queued"[..6] == "queued";
    assert ("golem-button-" + StateName(s)) != "queued" by {
      assert |"golem-button-" + StateName(s)| > 6;
    }
  }

  // ---------------------------------------------------------------- the object

  class Button {
    var state: ButtonState
    var index: int
    var queued: bool
    const scrim: Scrim.ButtonScrim

    function View(): ButtonV
      reads this, scrim
    {
      ButtonV(state, index, queued, scrim.View())
    }

    constructor()
      ensures View() == NewButton()
      ensures fresh(scrim)
    {
      state := Off;
      index := 0;
      queued := false;
      scrim := new Scrim.ButtonScrim();
    }

    method SetState(s: ButtonState, remaining: Option<real>, now: int) returns (event: Option<ButtonEvent>)
      modifies this, scrim
      ensures View() == ApplyState(old(View()), s, remaining, now).button
      ensures event == ApplyState(old(View()), s, remaining, now).event
    {
      state := s;
      event := None;
      if s == Active || s == Recharging {
        event := Some(if s == Active then BecameActive else BecameRecharging);
        scrim.SetCountdown(if s == Active then Scrim.Active else Scrim.Recharging, remaining, now);
      }
    }

    method SetIndex(i: Option<int>)
      modifies this
      ensures View() == ApplyIndex(old(View()), i)
    {
      index := if i.Some? then i.value else 0;
    }

    method SetActiveTime(seconds: Option<real>)
      modifies scrim
      ensures View() == ApplyActiveTime(old(View()), seconds)
    {
      scrim.SetActiveTime(if seconds.Some? then seconds.value else 0.0);
    }

    method SetRechargingTime(seconds: Option<real>)
      modifies scrim
      ensures View() == ApplyRechargingTime(old(View()), seconds)
    {
      scrim.SetRechargingTime(if seconds.Some? then seconds.value else 0.0);
    }

    /** `onClick`; `anyActive` is whether some button of the shared list is active. */
    method OnClick(anyActive: bool, now: int) returns (event: Option<ButtonEvent>)
      modifies this, scrim
      ensures View() == ApplyClick(old(View()), anyActive, now).button
      ensures event == ApplyClick(old(View()), anyActive, now).event
    {
      event := None;
      match state {
        case On =>
          if anyActive {
            event := Some(Waiting);
          } else {
            event := SetState(Active, None, now);
          }
        case Recharging =>
          event := Some(Waiting);
        case _ =>
      }
    }

    /** The handlers registered in `setup` for the forwarded scrim events. */
    method OnScrimEvent(e: Scrim.ScrimEvent, now: int) returns (event: Option<ButtonEvent>)
      modifies this, scrim
      ensures View() == ScrimHandled(old(View()), e, now).button
      ensures event == ScrimHandled(old(View()), e, now).event
    {
      match e {
        case ActiveComplete => event := SetState(Recharging, None, now);
        case Recharged => event := SetState(On, None, now);
      }
    }
  }
}
