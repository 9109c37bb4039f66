/** The ButtonBar of buttonbar.js: a grid of Buttons sharing one sibling list, a
    single-slot queue for the button clicked while another was active, and a FillBar
    that shows the active phase.  The events a Button emits and the handlers the bar
    registers for them become direct calls, made in the order the listeners were
    registered: a Button's own handlers before the bar's. */
module ButtonBars {
  import opened Wrappers
  import Grid
  import Widgets
  import Scrim
  import Buttons
  import FillBars

  // ---------------------------------------------------------------- values

  /** The options `updateButton` lays over a button; `None` is an omitted key. */
  datatype ButtonPatch = ButtonPatch(
    index: Option<int>,
    activeTime: Option<real>,
    rechargingTime: Option<real>,
    state: Option<string>,
    activeTimeRemaining: Option<real>,
    rechargeTimeRemaining: Option<real>)

  /** The merged options `updateButton` applies. */
  datatype Settings = Settings(
    index: int,
    activeTime: Option<real>,
    rechargingTime: Option<real>,
    state: string,
    activeTimeRemaining: Option<real>,
    rechargeTimeRemaining: Option<real>)

  /** The bar: its buttons in slot order, the slot of the queued button and the fill
      bar. */
  datatype BarV = BarV(buttons: seq<Buttons.ButtonV>, queued: Option<nat>, fill: FillBars.FillState)

  /** The constructor options the model reads. */
  datatype BarOptions = BarOptions(rows: Option<nat>, columns: Option<nat>, buttons: seq<Option<ButtonPatch>>)

  /** JavaScript's `a || b` on optional numbers: `a` unless it is undefined or 0. */
  function Or(a: Option<real>, b: Option<real>): Option<real> {
    if a.Some? && a.value != 0.0 then a else b
  }

  /** `_.contains(_.pluck(list, 'state'), 'active')`. */
  predicate HasActive(bs: seq<Buttons.ButtonV>) {
    exists i :: 0 <= i < |bs| && bs[i].state == Buttons.Active
  }

  predicate AtMostOneActive(bs: seq<Buttons.ButtonV>) {
    forall i, j :: 0 <= i < |bs| && 0 <= j < |bs| && bs[i].state == Buttons.Active && bs[j].state == Buttons.Active ==> i == j
  }

  /** `queuedButton` names a slot of the bar, and a button carries the `queued` flag
      exactly when it is the queued button. */
  predicate QueueAgrees(bar: BarV) {
    && (bar.queued.Some? ==> bar.queued.value < |bar.buttons|)
    && forall i :: 0 <= i < |bar.buttons| ==> (bar.buttons[i].queued <==> bar.queued == Some(i))
  }

  function WithButton(bar: BarV, i: nat, b: Buttons.ButtonV): (r: BarV)
    requires i < |bar.buttons|
    ensures |r.buttons| == |bar.buttons|
  {
    bar.(buttons := bar.buttons[i := b])
  }

  function Flagged(bar: BarV, i: nat, flag: bool): (r: BarV)
    requires i < |bar.buttons|
    ensures |r.buttons| == |bar.buttons|
  {
    WithButton(bar, i, bar.buttons[i].(queued := flag))
  }

  // ---------------------------------------------------------------- the queue

  /** `updateQueue(button)`: the previously queued button loses its flag, the given
      one is queued and flagged. */
  function Queued(bar: BarV, i: nat): (r: BarV)
    requires i < |bar.buttons|
    ensures |r.buttons| == |bar.buttons|
  {
    var cleared := if bar.queued.Some? && bar.queued.value < |bar.buttons| then Flagged(bar, bar.queued.value, false) else bar;
    Flagged(cleared.(queued := Some(i)), i, true)
  }

  /** `dumpQueue`: the queue is emptied and the flag cleared, with no click. */
  function Dumped(bar: BarV): (r: BarV)
    ensures |r.buttons| == |bar.buttons|
  {
    if bar.queued.Some? && bar.queued.value < |bar.buttons| then Flagged(bar.(queued := None), bar.queued.value, false)
    else bar.(queued := None)
  }

  /** The bar's `active` handler: the queue is dumped, and a positive active time sets
      the fill bar's target to 100 over that many milliseconds. */
  function Activated(bar: BarV, i: nat, now: int): (r: BarV)
    requires i < |bar.buttons|
    ensures |r.buttons| == |bar.buttons|
  {
    var d := Dumped(bar);
    var t := bar.buttons[i].scrim.activeTime;
    if t.Some? && t.value > 0.0 then d.(fill := FillBars.SetTarget(d.fill, 100.0, t, now)) else d
  }

  /** The bar's handlers for what button `i` emits: `waiting` queues it, `active` runs
      the active handler; the bar has no handler for `recharging`. */
  function Reacted(bar: BarV, i: nat, e: Option<Buttons.ButtonEvent>, now: int): (r: BarV)
    requires i < |bar.buttons|
    ensures |r.buttons| == |bar.buttons|
  {
    if e == Some(Buttons.Waiting) then Queued(bar, i)
    else if e == Some(Buttons.BecameActive) then Activated(bar, i, now)
    else bar
  }

  /** A click on button `i`, which sees whether any button of the bar is active, and
      the bar's reaction to what it emits. */
  function Clicked(bar: BarV, i: nat, now: int): (r: BarV)
    requires i < |bar.buttons|
    ensures |r.buttons| == |bar.buttons|
  {
    var c := Buttons.ApplyClick(bar.buttons[i], HasActive(bar.buttons), now);
    Reacted(WithButton(bar, i, c.button), i, c.event, now)
  }

  /** `deQueue`: a queued button is unqueued, unflagged and clicked; an empty queue is
      left alone. */
  function Dequeued(bar: BarV, now: int): (r: BarV)
    ensures |r.buttons| == |bar.buttons|
  {
    if bar.queued.Some? && bar.queued.value < |bar.buttons| then
      Clicked(Flagged(bar.(queued := None), bar.queued.value, false), bar.queued.value, now)
    else bar.(queued := None)
  }

  /** `deQueueIfMatching(b)`: `deQueue` when `b` is the queued button. */
  function DequeuedIfMatching(bar: BarV, i: nat, now: int): (r: BarV)
    ensures |r.buttons| == |bar.buttons|
  {
    if bar.queued == Some(i) then Dequeued(bar, now) else bar
  }

  /** A scrim completion on button `k`: the button's own handler changes its state
      first, then the bar's `deQueue` (after `activeComplete`) or `deQueueIfMatching`
      (after `recharged`) runs. */
  function ScrimFinished(bar: BarV, k: nat, ev: Scrim.ScrimEvent, now: int): (r: BarV)
    requires k < |bar.buttons|
    ensures |r.buttons| == |bar.buttons|
  {
    var b := WithButton(bar, k, Buttons.ScrimHandled(bar.buttons[k], ev, now).button);
    match ev
    case ActiveComplete => Dequeued(b, now)
    case Recharged => DequeuedIfMatching(b, k, now)
  }

  /** The tick of the scrim of button `k` and what its completion sets off. */
  function TickedOne(bar: BarV, k: nat, now: int): (r: BarV)
    requires k < |bar.buttons|
    ensures |r.buttons| == |bar.buttons|
  {
    var t := Scrim.TickStep(bar.buttons[k].scrim, now);
    var b := WithButton(bar, k, bar.buttons[k].(scrim := t.state));
    if t.event.Some? then ScrimFinished(b, k, t.event.value, now) else b
  }

  /** The scrims of slots `k` and up ticked in slot order. */
  function TickedFrom(bar: BarV, k: nat, now: int): (r: BarV)
    ensures |r.buttons| == |bar.buttons|
    decreases |bar.buttons| - k
  {
    if k >= |bar.buttons| then bar else TickedFrom(TickedOne(bar, k, now), k + 1, now)
  }

  /** The Ticker listener: every scrim ticks, in slot order. */
  function Ticked(bar: BarV, now: int): BarV {
    TickedFrom(bar, 0, now)
  }

  // ---------------------------------------------------------------- updateButton

  /** `_.extend(defaults, options)`: the patch wins; the defaults read from the button
      give its index and state, and nothing for the durations and remaining times,
      which a Button never holds. */
  function Merged(b: Buttons.ButtonV, patch: ButtonPatch): Settings {
    Settings(patch.index.GetOr(b.index), patch.activeTime, patch.rechargingTime,
             patch.state.GetOr(Buttons.StateName(b.state)),
             patch.activeTimeRemaining, patch.rechargeTimeRemaining)
  }

  /** The setters `updateButton` calls, in order. */
  function Reconfigured(b: Buttons.ButtonV, patch: ButtonPatch, now: int): Buttons.Changed {
    var m := Merged(b, patch);
    var b1 := Buttons.ApplyIndex(b, Some(m.index));
    var b2 := Buttons.ApplyActiveTime(b1, m.activeTime);
    var b3 := Buttons.ApplyRechargingTime(b2, m.rechargingTime);
    Buttons.ApplyState(b3, Buttons.ParseState(m.state), Or(m.activeTimeRemaining, m.rechargeTimeRemaining), now)
  }

  /** `updateButton(i, options)` on a wired bar. */
  function Updated(bar: BarV, i: nat, patch: ButtonPatch, now: int): (r: BarV)
    requires i < |bar.buttons|
    ensures |r.buttons| == |bar.buttons|
  {
    var c := Reconfigured(bar.buttons[i], patch, now);
    Reacted(WithButton(bar, i, c.button), i, c.event, now)
  }

  // ---------------------------------------------------------------- construction

  /** `rows || 1`, `columns || 4`. */
  function Dimension(o: Option<nat>, default: nat): nat {
    if o.Some? && o.value != 0 then o.value else default
  }

  /** The button `setupButtons` puts in slot `i`: a new one, configured by
      `buttons[i]` when that is given.  The bar's handlers are not wired yet, so what
      it emits goes unanswered. */
  function Configured(patches: seq<Option<ButtonPatch>>, i: nat, now: int): Buttons.ButtonV {
    if i < |patches| && patches[i].Some? then Reconfigured(Buttons.NewButton(), patches[i].value, now).button
    else Buttons.NewButton()
  }

  /** `setupButtons`: every undefined slot gets its configured button. */
  function Populated(slots: seq<Option<Buttons.ButtonV>>, patches: seq<Option<ButtonPatch>>, now: int): seq<Option<Buttons.ButtonV>>
    decreases |slots|
  {
    if slots == [] then []
    else
      var i := |slots| - 1;
      Populated(slots[..i], patches, now) + [if slots[i].Some? then slots[i] else Some(Configured(patches, i, now))]
  }

  function Present(slots: seq<Option<Buttons.ButtonV>>): seq<Buttons.ButtonV> {
    seq(|slots|, i requires 0 <= i < |slots| => slots[i].GetOr(Buttons.NewButton()))
  }

  /** The buttons of a new bar. */
  function InitialButtons(o: BarOptions, now: int): seq<Buttons.ButtonV> {
    var slots := Grid.Resize<Buttons.ButtonV>([], Dimension(o.rows, 1), Dimension(o.columns, 4)).slots;
    Present(Populated(slots, o.buttons, now))
  }

  /** The constructor: the grid is sized `rows` by `columns` (1 by 4 by default), its
      slots are populated, the queue is empty, and the fill bar is half as wide as the
      bar, starting with target 0. */
  function NewBar(o: BarOptions, frameWidth: real, frameHeight: real, now: int): BarV {
    var rows := Dimension(o.rows, 1);
    var columns := Dimension(o.columns, 4);
    var size := Widgets.WidthHeight(frameWidth, frameHeight, rows, columns);
    BarV(InitialButtons(o, now), None,
         FillBars.NewFill(FillBars.NoOptions.(width := Some(size.width / 2.0), targetValue := Some(0.0)), now))
  }

  // ---------------------------------------------------------------- properties

  /** `updateQueue` queues and flags exactly the given button, whatever was queued
      before, and changes no state. */
  lemma QueueOne(bar: BarV, i: nat)
    requires i < |bar.buttons| && QueueAgrees(bar)
    ensures var r := Queued(bar, i);
      && QueueAgrees(r) && r.queued == Some(i) && r.fill == bar.fill
      && forall j :: 0 <= j < |bar.buttons| ==> r.buttons[j] == bar.buttons[j].(queued := j == i)
  {
  }

  /** `dumpQueue` leaves no button queued or flagged and changes nothing else. */
  lemma DumpClears(bar: BarV)
    requires QueueAgrees(bar)
    ensures var r := Dumped(bar);
      && QueueAgrees(r) && r.queued.None? && r.fill == bar.fill
      && forall j :: 0 <= j < |bar.buttons| ==> r.buttons[j] == bar.buttons[j].(queued := false)
  {
  }

  /** On activation the queue is dumped; the fill bar is re-targeted to 100 over the
      active time exactly when that time is positive. */
  lemma ActivationDrivesFill(bar: BarV, i: nat, now: int)
    requires i < |bar.buttons| && QueueAgrees(bar)
    ensures var r := Activated(bar, i, now);
      var t := bar.buttons[i].scrim.activeTime;
      && QueueAgrees(r) && r.queued.None?
      && r.buttons == Dumped(bar).buttons
      && (t.Some? && t.value > 0.0 ==> r.fill == FillBars.SetTarget(bar.fill, 100.0, t, now))
      && (!(t.Some? && t.value > 0.0) ==> r.fill == bar.fill)
  {
    DumpClears(bar);
  }

  /** `deQueue` and `deQueueIfMatching` do nothing to a bar whose queue is empty, or
      holds another button. */
  lemma DequeueEmpty(bar: BarV, i: nat, now: int)
    ensures bar.queued.None? ==> Dequeued(bar, now) == bar
    ensures bar.queued != Some(i) ==> DequeuedIfMatching(bar, i, now) == bar
    ensures bar.queued == Some(i) ==> DequeuedIfMatching(bar, i, now) == Dequeued(bar, now)
  {
  }

  /** `deQueue` on a queued button clicks it with its flag already cleared. */
  lemma DequeueClicks(bar: BarV, now: int)
    requires QueueAgrees(bar) && bar.queued.Some?
    ensures var k := bar.queued.value;
      Dequeued(bar, now) == Clicked(Flagged(bar.(queued := None), k, false), k, now)
  {
  }

  /** The state changes a bar can make by itself never touch the queue's agreement
      with the flags. */
  lemma ReactedAgrees(bar: BarV, i: nat, e: Option<Buttons.ButtonEvent>, now: int)
    requires i < |bar.buttons| && QueueAgrees(bar)
    ensures QueueAgrees(Reacted(bar, i, e, now))
    ensures forall j :: 0 <= j < |bar.buttons| ==> Reacted(bar, i, e, now).buttons[j].state == bar.buttons[j].state
  {
    if e == Some(Buttons.Waiting) {
      QueueOne(bar, i);
    } else if e == Some(Buttons.BecameActive) {
      ActivationDrivesFill(bar, i, now);
      DumpClears(bar);
    }
  }

  /** A click keeps the queue and the flags in agreement, and never leaves a second
      button active. */
  lemma ClickKeepsInvariants(bar: BarV, i: nat, now: int)
    requires i < |bar.buttons| && QueueAgrees(bar) && AtMostOneActive(bar.buttons)
    ensures QueueAgrees(Clicked(bar, i, now)) && AtMostOneActive(Clicked(bar, i, now).buttons)
  {
    var any := HasActive(bar.buttons);
    var c := Buttons.ApplyClick(bar.buttons[i], any, now);
    Buttons.ClickRules(bar.buttons[i], any, now);
    var w := WithButton(bar, i, c.button);
    assert c.button.queued == bar.buttons[i].queued;
    assert QueueAgrees(w);
    ReactedAgrees(w, i, c.event, now);
    var r := Clicked(bar, i, now);
    forall j, l | 0 <= j < |r.buttons| && 0 <= l < |r.buttons| && r.buttons[j].state == Buttons.Active && r.buttons[l].state == Buttons.Active
      ensures j == l
    {
      assert w.buttons[j].state == Buttons.Active && w.buttons[l].state == Buttons.Active;
      if bar.buttons[i].state != Buttons.Active && c.button.state == Buttons.Active {
        assert !any;
        assert j == i && l == i;
      }
    }
  }

  /** `deQueue`, and so `deQueueIfMatching`, keep both invariants. */
  lemma DequeueKeepsInvariants(bar: BarV, i: nat, now: int)
    requires QueueAgrees(bar) && AtMostOneActive(bar.buttons)
    ensures QueueAgrees(Dequeued(bar, now)) && AtMostOneActive(Dequeued(bar, now).buttons)
    ensures QueueAgrees(DequeuedIfMatching(bar, i, now)) && AtMostOneActive(DequeuedIfMatching(bar, i, now).buttons)
  {
    if bar.queued.Some? {
      var k := bar.queued.value;
      var f := Flagged(bar.(queued := None), k, false);
      assert QueueAgrees(f);
      assert forall j :: 0 <= j < |f.buttons| ==> f.buttons[j].state == bar.buttons[j].state;
      ClickKeepsInvariants(f, k, now);
    }
  }

  /** A scrim completion keeps both invariants: the finishing button leaves `active`
      before any queued click is delivered. */
  lemma ScrimFinishedKeepsInvariants(bar: BarV, k: nat, ev: Scrim.ScrimEvent, now: int)
    requires k < |bar.buttons| && QueueAgrees(bar) && AtMostOneActive(bar.buttons)
    ensures QueueAgrees(ScrimFinished(bar, k, ev, now)) && AtMostOneActive(ScrimFinished(bar, k, ev, now).buttons)
  {
    Buttons.ScrimCompletionMapping(bar.buttons[k], now);
    var b := WithButton(bar, k, Buttons.ScrimHandled(bar.buttons[k], ev, now).button);
    assert b.buttons[k].state != Buttons.Active;
    assert QueueAgrees(b);
    DequeueKeepsInvariants(b, k, now);
  }

  /** A tick of every scrim keeps both invariants. */
  lemma {:induction false} TickKeepsInvariants(bar: BarV, k: nat, now: int)
    requires QueueAgrees(bar) && AtMostOneActive(bar.buttons)
    ensures QueueAgrees(TickedFrom(bar, k, now)) && AtMostOneActive(TickedFrom(bar, k, now).buttons)
    decreases |bar.buttons| - k
  {
    if k < |bar.buttons| {
      var t := Scrim.TickStep(bar.buttons[k].scrim, now);
      var b := WithButton(bar, k, bar.buttons[k].(scrim := t.state));
      assert QueueAgrees(b) && AtMostOneActive(b.buttons);
      if t.event.Some? {
        ScrimFinishedKeepsInvariants(b, k, t.event.value, now);
      }
      TickKeepsInvariants(TickedOne(bar, k, now), k + 1, now);
    }
  }

  /** When the active button's time is up, it starts recharging and the queued `on`
      button becomes active, unqueued and unflagged. */
  lemma QueuedButtonTakesOver(bar: BarV, k: nat, j: nat, now: int)
    requires k < |bar.buttons| && j < |bar.buttons| && k != j
    requires QueueAgrees(bar) && AtMostOneActive(bar.buttons)
    requires bar.buttons[k].state == Buttons.Active && bar.buttons[j].state == Buttons.On
    requires bar.queued == Some(j)
    ensures var r := ScrimFinished(bar, k, Scrim.ActiveComplete, now);
      && r.buttons[k].state == Buttons.Recharging
      && r.buttons[j].state == Buttons.Active
      && r.queued.None? && !r.buttons[j].queued
  {
    Buttons.ScrimCompletionMapping(bar.buttons[k], now);
    var b := WithButton(bar, k, Buttons.ScrimHandled(bar.buttons[k], Scrim.ActiveComplete, now).button);
    var f := Flagged(b.(queued := None), j, false);
    assert !HasActive(f.buttons) by {
      forall l | 0 <= l < |f.buttons| ensures f.buttons[l].state != Buttons.Active {
        if l != k && l != j {
          assert f.buttons[l].state == bar.buttons[l].state;
        }
      }
    }
    var c := Buttons.ApplyClick(f.buttons[j], false, now);
    Buttons.ClickRules(f.buttons[j], false, now);
    assert QueueAgrees(f);
    var w := WithButton(f, j, c.button);
    assert QueueAgrees(w);
    ActivationDrivesFill(w, j, now);
  }

  /** A click on an `on` button while another is active, or on a recharging one,
      queues it and changes no state. */
  lemma ClickWhileBusyQueues(bar: BarV, i: nat, now: int)
    requires i < |bar.buttons| && QueueAgrees(bar)
    requires (bar.buttons[i].state == Buttons.On && HasActive(bar.buttons)) || bar.buttons[i].state == Buttons.Recharging
    ensures Clicked(bar, i, now) == Queued(bar, i)
  {
    Buttons.ClickRules(bar.buttons[i], HasActive(bar.buttons), now);
    assert bar.buttons[i := bar.buttons[i]] == bar.buttons;
  }

  /** A click on an `on` button with none active makes it active and dumps the queue. */
  lemma ClickActivates(bar: BarV, i: nat, now: int)
    requires i < |bar.buttons| && QueueAgrees(bar)
    requires bar.buttons[i].state == Buttons.On && !HasActive(bar.buttons)
    ensures var r := Clicked(bar, i, now);
      && r.buttons[i].state == Buttons.Active && r.queued.None?
      && r.buttons[i].scrim == Scrim.Countdown(bar.buttons[i].scrim, Scrim.Active, None, now)
  {
    Buttons.ClickRules(bar.buttons[i], false, now);
    var c := Buttons.ApplyClick(bar.buttons[i], false, now);
    assert c == Buttons.ApplyState(bar.buttons[i], Buttons.Active, None, now);
    var w := WithButton(bar, i, c.button);
    assert QueueAgrees(w);
    ActivationDrivesFill(w, i, now);
  }

  /** Ticking a bar whose scrims are all idle changes nothing. */
  lemma {:induction false} IdleBarTicks(bar: BarV, k: nat, now: int)
    requires forall j :: 0 <= j < |bar.buttons| ==> Scrim.IsIdle(bar.buttons[j].scrim)
    ensures TickedFrom(bar, k, now) == bar
    decreases |bar.buttons| - k
  {
    if k < |bar.buttons| {
      Scrim.TickIdle(bar.buttons[k].scrim, now);
      assert bar.buttons[k := bar.buttons[k]] == bar.buttons;
      assert TickedOne(bar, k, now) == bar;
      IdleBarTicks(bar, k + 1, now);
    }
  }

  /** `updateButton`: the patch wins over the button's own index and state; an omitted
      duration becomes 0; an omitted or unknown state keeps or coerces as `setState`
      does; the remaining time passed on is `activeTimeRemaining || rechargeTimeRemaining`. */
  lemma UpdateMerges(b: Buttons.ButtonV, patch: ButtonPatch, now: int)
    ensures var c := Reconfigured(b, patch, now);
      var s := if patch.state.Some? then Buttons.ParseState(patch.state.value) else b.state;
      && c.button.state == s
      && c.button.index == (if patch.index.Some? then patch.index.value else b.index)
      && c.button.queued == b.queued
      && c.button.scrim.activeTime == Some(1000.0 * patch.activeTime.GetOr(0.0))
      && c.button.scrim.rechargingTime == Some(1000.0 * patch.rechargingTime.GetOr(0.0))
      && (s == Buttons.Active || s == Buttons.Recharging ==>
            c.button.scrim.remaining ==
              (var r := Or(patch.activeTimeRemaining, patch.rechargeTimeRemaining);
               if r.Some? then Some(r.value * 1000.0) else c.button.scrim.time))
  {
    Buttons.ParseStateCoerces(b.state, Buttons.StateName(b.state));
  }

  /** `updateButton` on a wired bar keeps the queue's agreement with the flags. */
  lemma UpdateKeepsQueue(bar: BarV, i: nat, patch: ButtonPatch, now: int)
    requires i < |bar.buttons| && QueueAgrees(bar)
    ensures QueueAgrees(Updated(bar, i, patch, now))
  {
    var c := Reconfigured(bar.buttons[i], patch, now);
    UpdateMerges(bar.buttons[i], patch, now);
    assert QueueAgrees(WithButton(bar, i, c.button));
    ReactedAgrees(WithButton(bar, i, c.button), i, c.event, now);
  }

  lemma {:induction false} PopulateFillsHoles(slots: seq<Option<Buttons.ButtonV>>, patches: seq<Option<ButtonPatch>>, now: int)
    ensures |Populated(slots, patches, now)| == |slots|
    ensures forall i :: 0 <= i < |slots| ==>
      Populated(slots, patches, now)[i] == if slots[i].Some? then slots[i] else Some(Configured(patches, i, now))
    decreases |slots|
  {
    if slots != [] {
      PopulateFillsHoles(slots[..|slots| - 1], patches, now);
    }
  }

  /** A new bar has `rows * columns` buttons (4 by default), slot `i` holding a new
      button configured by `buttons[i]`; nothing is queued or flagged. */
  lemma NewBarButtons(o: BarOptions, frameWidth: real, frameHeight: real, now: int)
    ensures var bar := NewBar(o, frameWidth, frameHeight, now);
      && |bar.buttons| == Dimension(o.rows, 1) * Dimension(o.columns, 4)
      && (forall i :: 0 <= i < |bar.buttons| ==> bar.buttons[i] == Configured(o.buttons, i, now))
      && bar.queued.None? && QueueAgrees(bar)
    ensures o.rows.None? && o.columns.None? ==> |NewBar(o, frameWidth, frameHeight, now).buttons| == 4
  {
    InitialButtonsAre(o, now);
    var bs := InitialButtons(o, now);
    forall i | 0 <= i < |bs| ensures !bs[i].queued {
      ConfiguredUnqueued(o.buttons, i, now);
    }
  }

  lemma InitialButtonsAre(o: BarOptions, now: int)
    ensures var bs := InitialButtons(o, now);
      && |bs| == Dimension(o.rows, 1) * Dimension(o.columns, 4)
      && forall i :: 0 <= i < |bs| ==> bs[i] == Configured(o.buttons, i, now)
  {
    var rows := Dimension(o.rows, 1);
    var columns := Dimension(o.columns, 4);
    var slots := Grid.Resize<Buttons.ButtonV>([], rows, columns).slots;
    EmptyResize(rows, columns);
    PopulateFillsHoles(slots, o.buttons, now);
  }

  /** A freshly sized list is `rows * columns` undefined slots. */
  lemma EmptyResize(rows: nat, columns: nat)
    ensures var slots := Grid.Resize<Buttons.ButtonV>([], rows, columns).slots;
      |slots| == rows * columns && forall i :: 0 <= i < |slots| ==> slots[i].None?
  {
    assert Grid.Compact<Buttons.ButtonV>([]) == [];
    Grid.DistributeKeeps<Buttons.ButtonV>([], rows * columns);
  }

  lemma ConfiguredUnqueued(patches: seq<Option<ButtonPatch>>, i: nat, now: int)
    ensures !Configured(patches, i, now).queued
  {
    if i < |patches| && patches[i].Some? {
      UpdateMerges(Buttons.NewButton(), patches[i].value, now);
    }
  }

  /** A bar whose buttons are slot by slot those `NewBarButtons` describes, with no
      queue and the new fill, is the new bar. */
  lemma NewBarIs(o: BarOptions, frameWidth: real, frameHeight: real, now: int, views: seq<Buttons.ButtonV>, fill: FillBars.FillState)
    requires |views| == Dimension(o.rows, 1) * Dimension(o.columns, 4)
    requires forall j :: 0 <= j < |views| ==> views[j] == Configured(o.buttons, j, now)
    requires var size := Widgets.WidthHeight(frameWidth, frameHeight, Dimension(o.rows, 1), Dimension(o.columns, 4));
      fill == FillBars.NewFill(FillBars.NoOptions.(width := Some(size.width / 2.0), targetValue := Some(0.0)), now)
    ensures BarV(views, None, fill) == NewBar(o, frameWidth, frameHeight, now)
  {
    NewBarButtons(o, frameWidth, frameHeight, now);
  }

  // ---------------------------------------------------------------- the objects

  /** `updateButton`'s setters on one button, in order. */
  method Configure(b: Buttons.Button, patch: ButtonPatch, now: int) returns (event: Option<Buttons.ButtonEvent>)
    modifies b, b.scrim
    ensures b.View() == Reconfigured(old(b.View()), patch, now).button
    ensures event == Reconfigured(old(b.View()), patch, now).event
  {
    var index := if patch.index.Some? then patch.index.value else b.index;
    var state := if patch.state.Some? then patch.state.value else Buttons.StateName(b.state);
    var remaining := if patch.activeTimeRemaining.Some? && patch.activeTimeRemaining.value != 0.0
      then patch.activeTimeRemaining else patch.rechargeTimeRemaining;
    b.SetIndex(Some(index));
    b.SetActiveTime(patch.activeTime);
    b.SetRechargingTime(patch.rechargingTime);
    event := b.SetState(Buttons.ParseState(state), remaining, now);
  }

  /** The loop of `setupButtons` over a freshly sized list, where every slot is
      undefined: slot `i` gets a new button configured by `patches[i]`. */
  method NewButtons(n: nat, patches: seq<Option<ButtonPatch>>, now: int)
    returns (a: array<Buttons.Button>, ss: seq<Scrim.ButtonScrim>)
    ensures fresh(a) && a.Length == n && |ss| == n
    ensures forall j :: 0 <= j < n ==> a[j].scrim == ss[j]
    ensures forall j, l :: 0 <= j < l < n ==> a[j] != a[l] && ss[j] != ss[l]
    ensures forall j :: 0 <= j < n ==> a[j].View() == Configured(patches, j, now)
  {
    var bs: seq<Buttons.Button> := [];
    ss := [];
    for i := 0 to n
      invariant |bs| == i && |ss| == i
      invariant forall j :: 0 <= j < i ==> bs[j].scrim == ss[j]
      invariant forall j, l :: 0 <= j < l < i ==> bs[j] != bs[l] && ss[j] != ss[l]
      invariant forall j :: 0 <= j < i ==> bs[j].View() == Configured(patches, j, now)
    {
      var b := new Buttons.Button();
      if i < |patches| && patches[i].Some? {
        var unanswered := Configure(b, patches[i].value, now);
      }
      bs := bs + [b];
      ss := ss + [b.scrim];
    }
    a := new Buttons.Button[n](i requires 0 <= i < n => bs[i]);
  }

  class ButtonBar {
    const buttons: array<Buttons.Button>
    ghost const scrims: seq<Scrim.ButtonScrim>
    var queuedButton: Option<nat>
    const fillBar: FillBars.FillBar

    /** Every slot holds its own button, with its own scrim. */
    ghost predicate Valid()
      reads buttons
    {
      && |scrims| == buttons.Length
      && (forall i :: 0 <= i < buttons.Length ==> buttons[i].scrim == scrims[i])
      && (forall i, j :: 0 <= i < j < buttons.Length ==> buttons[i] != buttons[j] && scrims[i] != scrims[j])
    }

    function ButtonViews(): seq<Buttons.ButtonV>
      requires Valid()
      reads buttons, buttons[..], scrims
    {
      seq(buttons.Length, i requires 0 <= i < buttons.Length && buttons[i].scrim in scrims reads buttons, buttons[..], scrims => buttons[i].View())
    }

    function View(): BarV
      requires Valid()
      reads this, buttons, buttons[..], scrims, fillBar
    {
      BarV(ButtonViews(), queuedButton, fillBar.View())
    }

    /** Only the button of slot `k` and its scrim changed since `old`. */
    twostate lemma OneButtonChanged(k: nat)
      requires old(Valid()) && unchanged(buttons) && k < buttons.Length
      requires forall j :: 0 <= j < buttons.Length && j != k ==> unchanged(buttons[j], scrims[j])
      ensures Valid()
      ensures ButtonViews() == old(ButtonViews())[k := buttons[k].View()]
    {
    }

    constructor(o: BarOptions, frameWidth: real, frameHeight: real, now: int)
      ensures Valid()
      ensures View() == NewBar(o, frameWidth, frameHeight, now)
    {
      var rows := Dimension(o.rows, 1);
      var columns := Dimension(o.columns, 4);
      var size := Widgets.WidthHeight(frameWidth, frameHeight, rows, columns);
      fillBar := new FillBars.FillBar(FillBars.NoOptions.(width := Some(size.width / 2.0), targetValue := Some(0.0)), now);
      var n := rows * columns;
      var bs, ss := NewButtons(n, o.buttons, now);
      buttons := bs;
      scrims := ss;
      queuedButton := None;
      new;
      ghost var views := ButtonViews();
      assert forall j :: 0 <= j < n ==> views[j] == Configured(o.buttons, j, now);
      NewBarIs(o, frameWidth, frameHeight, now, views, fillBar.View());
    }

    /** Whether some button of the shared list is active. */
    method AnyActive() returns (r: bool)
      requires Valid()
      ensures r == HasActive(ButtonViews())
    {
      r := false;
      var k := 0;
      while k < buttons.Length && !r
        invariant 0 <= k <= buttons.Length
        invariant r <==> exists j :: 0 <= j < k && buttons[j].state == Buttons.Active
      {
        r := buttons[k].state == Buttons.Active;
        k := k + 1;
      }
      assert forall j :: 0 <= j < buttons.Length ==> ButtonViews()[j].state == buttons[j].state;
    }

    method UpdateQueue(i: nat)
      requires Valid() && i < buttons.Length
      modifies this, buttons[..]
      ensures View() == Queued(old(View()), i)
    {
      if queuedButton.Some? && queuedButton.value < buttons.Length {
        buttons[queuedButton.value].queued := false;
      }
      queuedButton := Some(i);
      buttons[i].queued := true;
    }

    method DumpQueue()
      requires Valid()
      modifies this, buttons[..]
      ensures View() == Dumped(old(View()))
    {
      var q := queuedButton;
      queuedButton := None;
      if q.Some? && q.value < buttons.Length {
        buttons[q.value].queued := false;
      }
    }

    /** The bar's `active` handler. */
    method OnActive(i: nat, now: int)
      requires Valid() && i < buttons.Length
      modifies this, buttons[..], fillBar
      ensures View() == Activated(old(View()), i, now)
    {
      var t := buttons[i].scrim.activeTime;
      DumpQueue();
      if t.Some? && t.value > 0.0 {
        fillBar.SetTargetValue(100.0, t, now);
      }
    }

    method React(i: nat, e: Option<Buttons.ButtonEvent>, now: int)
      requires Valid() && i < buttons.Length
      modifies this, buttons[..], fillBar
      ensures View() == Reacted(old(View()), i, e, now)
    {
      if e == Some(Buttons.Waiting) {
        UpdateQueue(i);
      } else if e == Some(Buttons.BecameActive) {
        OnActive(i, now);
      }
    }

    /** A click delivered to button `i`. */
    method Click(i: nat, now: int)
      requires Valid() && i < buttons.Length
      modifies this, buttons[..], scrims, fillBar
      ensures View() == Clicked(old(View()), i, now)
    {
      ghost var v0 := View();
      var any := AnyActive();
      var e := buttons[i].OnClick(any, now);
      OneButtonChanged(i);
      ghost var c := Buttons.ApplyClick(v0.buttons[i], HasActive(v0.buttons), now);
      assert View() == WithButton(v0, i, c.button);
      assert e == c.event;
      React(i, e, now);
    }

    method DeQueue(now: int)
      requires Valid()
      modifies this, buttons[..], scrims, fillBar
      ensures View() == Dequeued(old(View()), now)
    {
      ghost var v0 := View();
      var q := queuedButton;
      queuedButton := None;
      if q.Some? && q.value < buttons.Length {
        buttons[q.value].queued := false;
        OneButtonChanged(q.value);
        assert View() == Flagged(v0.(queued := None), q.value, false);
        Click(q.value, now);
      }
    }

    method DeQueueIfMatching(i: nat, now: int)
      requires Valid()
      modifies this, buttons[..], scrims, fillBar
      ensures View() == DequeuedIfMatching(old(View()), i, now)
    {
      if queuedButton == Some(i) {
        DeQueue(now);
      }
    }

    /** The tick of the scrim of slot `k`, with the button's and then the bar's
        handlers of its completion. */
    method TickOne(k: nat, now: int)
      requires Valid() && k < buttons.Length
      modifies this, buttons[..], scrims, fillBar
      ensures View() == TickedOne(old(View()), k, now)
    {
      ghost var v0 := View();
      ghost var t := Scrim.TickStep(v0.buttons[k].scrim, now);
      var ev := buttons[k].scrim.Tick(now);
      OneButtonChanged(k);
      ghost var v1 := WithButton(v0, k, v0.buttons[k].(scrim := t.state));
      assert View() == v1;
      if ev.Some? {
        label L:
        var ignored := buttons[k].OnScrimEvent(ev.value, now);
        OneButtonChanged@L(k);
        assert View() == WithButton(v1, k, Buttons.ScrimHandled(v1.buttons[k], ev.value, now).button);
        match ev.value {
          case ActiveComplete => DeQueue(now);
          case Recharged => DeQueueIfMatching(k, now);
        }
      }
    }

    /** The Ticker listener. */
    method TickScrims(now: int)
      requires Valid()
      modifies this, buttons[..], scrims, fillBar
      ensures View() == Ticked(old(View()), now)
    {
      for k := 0 to buttons.Length
        invariant TickedFrom(View(), k, now) == Ticked(old(View()), now)
      {
        TickOne(k, now);
      }
    }

    method UpdateButton(i: nat, patch: ButtonPatch, now: int)
      requires Valid() && i < buttons.Length
      modifies this, buttons[..], scrims, fillBar
      ensures View() == Updated(old(View()), i, patch, now)
    {
      ghost var v0 := View();
      var e := Configure(buttons[i], patch, now);
      OneButtonChanged(i);
      ghost var c := Reconfigured(v0.buttons[i], patch, now);
      assert View() == WithButton(v0, i, c.button);
      React(i, e, now);
    }
  }
}
