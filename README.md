# golem.ui button bar, modelled in Dafny

golem.ui is a small browser widget toolkit built on CreateJS and jQuery. This
project models its interaction core and proves properties of the model:

- **The `Golem.Util` helpers.**
  - `EventEmitter` is a registry from event name to an ordered list of
    (callback, context) pairs, with `on`, `off` and `emit`.
  - `checkExists` walks dotted property paths.
- **`Collection`.** A row-major grid of `rows*columns` slots, with an overflow
  buffer shared by every collection.
- **The `Widget` base.**
  - Anchor keywords resolve to pixel coordinates.
  - `setWidthHeight` computes the bar's width and height.
  - The `children` list lives on the prototype.
  - The `buildWidget` factory builds widgets by type name.
- **`ButtonScrim`.** The two-phase countdown (active, then recharging) drawn over
  a button.
- **`Button`.** Six states, the click rules and the handling of scrim
  completions.
- **`ButtonBar`.**
  - It populates a grid with buttons that share one sibling list.
  - It keeps a single-slot queue for a button clicked while another is busy.
  - It drives a `FillBar` while a button is active.
- **`FillBar`.** A value that moves toward a target at `max/duration` per
  millisecond and never passes it.

Every stateful object is modelled twice:

- **As a value.** A datatype, plus step functions that give the new value and
  what is emitted. All lemmas are about these functions.
- **As a class.** Its fields are the source's fields. Each method's
  postcondition ties the new state to the step function applied to the old
  state (`View() == Step(old(View()), ...)`). Loops carry invariants that
  relate them to the same functions.

Other modelling choices:

- **Time.** The clock becomes an explicit `now: int` argument, in milliseconds.
  The scrim's and fill bar's quantities are `real`: the source allows
  fractional seconds, and `real` is exact.
- **Undefined.** JavaScript's `undefined` is `None`.
- **Events.** Event wiring becomes direct calls, made in listener-registration
  order: a Button's own handlers (button.js:93-95) run before the bar's
  (buttonbar.js:62-71).
- **The Ticker.** `createjs.Ticker` becomes an explicit "tick every scrim in
  slot order" step.

Modules, one per source component:

| module | source |
|---|---|
| `Wrappers` | the `Option` type |
| `Text` | `split(/\s+/)` |
| `Events` | `EventEmitter` in `src/js/golem.util.js` |
| `Dependencies` | `checkExists` in `src/js/golem.util.js` |
| `Grid` | `src/js/ui/widget/collection.js` |
| `Widgets` | `src/js/ui/golem.ui.widget.js`, plus the `definitions` map of `src/js/outro.js` |
| `Scrim` | `button.scrim.js` |
| `Buttons` | `button.js` |
| `FillBars` | `fillbar.js` |
| `ButtonBars` | `buttonbar.js` |

## Model

| member | source | states |
|---|---|---|
| Text.SplitJoinSpaces | src/js/golem.util.js:52 | splitting on `\s+` reads back the names of a space-joined list, in order: the pieces are the maximal runs without white space, for any list of names without white space whose inner names are non-empty |
| Text.SplitSingle | src/js/golem.util.js:52 | a name without white space is its own single piece |
| Text.SplitPair | src/js/golem.util.js:112 | two names separated by a space split into exactly those two names, in order |
| Events.RegisterEffect | src/js/golem.util.js:54-57 | registering on a list of names appends the pair once per occurrence of each name, after the pairs already there; the keys become the old keys plus the names |
| Events.OnNonFunction | src/js/golem.util.js:49-60 | `on` with a callback that is not a function leaves the registry unchanged |
| Events.OnAppends | src/js/golem.util.js:49-60 | `on` appends one pair per whitespace-separated name, keeps earlier pairs in front, touches no other name, and creates exactly the named keys |
| Events.TwoListenersOneEvent | test/spec/golem.util.spec.js:49-54 | two registrations on one event store two pairs (four array entries) in order, and `emit` calls both in that order |
| Events.WithoutDropsMatches | src/js/golem.util.js:82-89 | after filtering, no surviving pair matches the supplied callback and context, and every survivor was in the list |
| Events.WithoutNoMatch | src/js/golem.util.js:82-89 | a list in which no pair matches is left exactly as it was |
| Events.WithoutAppend | src/js/golem.util.js:82-89 | filtering a concatenation filters each part, so the survivors keep their relative order |
| Events.WithoutIdempotent | src/js/golem.util.js:82-89 | filtering a second time with the same criteria removes nothing more |
| Events.OffEverything | src/js/golem.util.js:92-93 | `off()` with no arguments drops the whole registry |
| Events.OffNamesDeletes | src/js/golem.util.js:75-80 | `off(names)` without a callback or context deletes exactly the named events, and every other event keeps its list |
| Events.OffNamesFilters | src/js/golem.util.js:75-89 | `off(names, callback, context)` keeps every key, filters the list of each named event, and leaves the lists of unnamed events unchanged |
| Events.EmitOne | src/js/golem.util.js:117-131 | emitting one event calls each of its listeners once in registration order, then each `all` listener once with the event name prepended |
| Events.EmitTwo | src/js/golem.util.js:117 | the names in a list are dispatched left to right: the trace for `a b` is the trace for `a` followed by the trace for `b` |
| Events.EmitAfterOffEverything | src/js/golem.util.js:92-93 | after `off()`, no `emit` calls anything |
| Events.EmitAfterOffName | src/js/golem.util.js:75-80 | after `off(name)`, emitting `name` reaches only the `all` listeners |
| Events.EventEmitter.constructor | src/js/golem.util.js:53 | a new emitter has an empty registry |
| Events.EventEmitter.On | src/js/golem.util.js:49-60 | the loop over the names leaves the registry as the `on` specification says |
| Events.EventEmitter.Off | src/js/golem.util.js:70-97 | the per-name loop (or the loop over every key) leaves the registry as the `off` specification says |
| Events.EventEmitter.RemoveMatching | src/js/golem.util.js:82-89 | the backward splice loop removes exactly the matching pairs and keeps the rest in order |
| Events.EventEmitter.Emit | src/js/golem.util.js:105-134 | the trace is the concatenation, name by name, of the direct calls and then the `all` calls, with each name's list and the `all` list read from the registry as it stands when that name's turn comes; listeners run no code, so the registry there is the one `emit` started with |
| Events.EventEmitter.CallDirect | src/js/golem.util.js:120-124 | one call per listener, in order, with the arguments as given |
| Events.EventEmitter.CallViaAll | src/js/golem.util.js:125-130 | one call per `all` listener, in order, with the event name prepended |
| Dependencies.Property | src/js/golem.util.js:15 | a property read throws exactly when the value is undefined or null |
| Dependencies.SplitDots | src/js/golem.util.js:14 | `split('.')` gives at least one part, and no part contains a dot |
| Dependencies.JoinSplitDots | src/js/golem.util.js:14 | joining the parts of `split('.')` with dots gives back the path |
| Dependencies.SplitJoinDots | src/js/golem.util.js:14 | splitting a dot-joined list of dot-free names gives back the list |
| Dependencies.CheckExists | src/js/golem.util.js:8-34 | the nested loops reassigning `value` compute what the `checkExists` specification says |
| Dependencies.CheckSingle | src/js/golem.util.js:26-31 | for one path, the answer is whether the walk ends on a defined value (null counts as defined), with one message when it does not and `silent` is false; an undefined or null intermediate throws |
| Dependencies.CheckSeveralLast | src/js/golem.util.js:12-24 | for an array, each path walks from the root again, the messages of all paths are logged in order, and only the last path decides the answer |
| Dependencies.CheckThrowsAt | src/js/golem.util.js:12-24 | for an array in which path `k` walks through undefined or null, the call throws there, after the paths before it have logged their messages in order; no later path is walked |
| Dependencies.CheckNone | src/js/golem.util.js:9-33 | an empty array never assigns `exists`, so the result is undefined |
| Dependencies.ExampleOwnProperty | test/spec/golem.util.spec.js:5-10 | an own property is found; a missing one gives false and logs `<name> is undefined.` |
| Dependencies.ExampleNestedFromWindow | test/spec/golem.util.spec.js:11-16 | without a container the walk starts at the window and follows dotted names |
| Dependencies.ExampleArrayPresent | test/spec/golem.util.spec.js:17-19 | an array of present names gives true |
| Dependencies.ExampleArrayLastMissing | test/spec/golem.util.spec.js:20-22 | an array whose last name is missing gives false and logs that name only |
| Dependencies.ExampleSilentAndThrowing | test/spec/golem.util.spec.js:23-32 | `silent` suppresses the message; reading through a missing object throws |
| Grid.PositionRoundTrip | src/js/ui/widget/collection.js:140-149 | for every index, the column is in [1, columns], the row is at least 1 for a non-negative index, and the object direction maps the cell back to the index |
| Grid.IndexRoundTrip | src/js/ui/widget/collection.js:141-149 | every cell whose column is in [1, columns] is the position of its own index, so the two directions are inverse bijections |
| Grid.PositionExamples | public_html/test/spec/golem.ui.widget.spec.js:44-56 | index 63 of a 14-column grid is row 5, column 8; row 5, column 3 is index 58 |
| Grid.Somes | src/js/ui/widget/collection.js:35 | wrapping items as slots keeps their number and order |
| Grid.Holes | src/js/ui/widget/collection.js:41 | padding gives exactly `n` empty slots |
| Grid.CompactAppend | src/js/ui/widget/collection.js:35 | `_.compact` of a concatenation is the concatenation of the two compactions |
| Grid.CompactSomes | src/js/ui/widget/collection.js:35 | compacting filled slots gives back the items |
| Grid.CompactHoles | src/js/ui/widget/collection.js:35 | compacting empty slots gives nothing |
| Grid.SpliceStart | src/js/ui/widget/collection.js:39 | the normalised start of `splice` lies within the array |
| Grid.ResizeAsWrittenFits | src/js/ui/widget/collection.js:34-43 | as written, when fewer survivors than slots remain, they move to the front in order, the list is padded to exactly `rows*columns` slots, and nothing overflows |
| Grid.ResizeAsWrittenFull | src/js/ui/widget/collection.js:38-39 | as written, when the survivors fill the grid, only the first `rows*columns-1` stay and the rest go to the overflow in order |
| Grid.ResizeAsWrittenNoSlots | src/js/ui/widget/collection.js:38-39 | as written, a grid of zero slots keeps every survivor but the last |
| Grid.ResizeAsWrittenLosesFullSlot | src/js/ui/widget/collection.js:38-39 | a full 1x1 grid resized to 1x1 loses its only item to the overflow as written, and keeps it as intended |
| Grid.ResizeKeepsEverything | src/js/ui/widget/collection.js:19-45 | the intended resize has exactly `rows*columns` slots holding the first survivors in order; the slots plus the overflow are exactly the survivors; overflow happens exactly when there are more survivors than slots |
| Grid.DistributeKeeps | src/js/ui/widget/collection.js:38-42 | spreading survivors over `n` slots loses nothing and keeps the order |
| Grid.OverflowAsWrittenDropsBatch | src/js/ui/widget/collection.js:56-57 | as written, a non-empty batch leaves the overflow buffer unchanged, which differs from the intended append |
| Grid.OverflowIntoAppends | src/js/ui/widget/collection.js:47-62 | the intended overflow keeps the old buffer in front and appends the batch, or the single item, after it |
| Grid.LowestHole | src/js/ui/widget/collection.js:87-95 | the scan's target is the lowest empty slot, or the list length when every slot is filled |
| Grid.StoreEffect | src/js/ui/widget/collection.js:104-105 | `list[k] = item` changes the slot `k` only, and a write past the end grows the list to `k+1` slots |
| Grid.AddEffect | src/js/ui/widget/collection.js:98-111 | at a resolved index up to `lastIndex`, add overwrites that slot only and reports `add` with the previous occupant; a larger index changes nothing and reports `outOfBounds` with the item, index and `lastIndex` |
| Grid.AddUnspecifiedTarget | src/js/ui/widget/collection.js:87-96 | without an index, add targets the lowest empty slot; in a full grid the target is the list length, which is out of bounds |
| Grid.AddThenGet | src/js/ui/widget/collection.js:122-129 | what add stores at an index or cell in bounds, get returns from it |
| Grid.OverflowBuffer.constructor | src/js/ui/widget/collection.js:17 | the shared overflow buffer starts empty |
| Grid.Collection.constructor | src/js/ui/widget/collection.js:8-10 | a new collection is the prototype's empty list resized to 1x4: four empty slots, `lastIndex` 3 |
| Grid.Collection.SetDimensions | src/js/ui/widget/collection.js:31-45 | the new list, dimensions and `lastIndex` are those of the intended resize; only an overflowing batch is appended to the shared buffer and reported |
| Grid.Collection.AddToOverflow | src/js/ui/widget/collection.js:53-62 | the buffer is the intended append, and the `overflow` event carries the items and the buffer |
| Grid.Collection.FirstFree | src/js/ui/widget/collection.js:87-95 | the scanning loop finds the lowest empty slot, or the length |
| Grid.Collection.Add | src/js/ui/widget/collection.js:80-113 | the new grid and the event are those of the add specification |
| Grid.Collection.Get | src/js/ui/widget/collection.js:122-129 | no index gives undefined; a numeric index reads that slot (undefined past the end, the stray property when negative); a `{row, column}` cell is read at `(row-1)*columns + column - 1` |
| Grid.Collection.GetPosition | src/js/ui/widget/collection.js:137-152 | a cell maps to `(row-1)*columns + column - 1`, and for a column within [1, columns] the numeric direction takes that index back to the same cell |
| Grid.DimensionsScenario | public_html/test/spec/golem.ui.widget.spec.js:8-13 | resizing to 1x4 and then to 2x5 leaves ten slots |
| Grid.CollectionScenario | public_html/test/spec/golem.ui.widget.spec.js:14-18 | two items added without an index survive a resize to 1x3, in order and at the front |
| Grid.TwoAdds | public_html/test/spec/golem.ui.widget.spec.js:25-28 | two adds without an index fill the first two slots of a new collection |
| Grid.TwoItemsToThree | public_html/test/spec/golem.ui.widget.spec.js:14-18 | the two stored items, resized to 1x3, are the first two slots with one empty slot after them |
| Widgets.Trunc | src/js/ui/golem.ui.widget.js:101 | `parseInt` of a number truncates toward zero |
| Widgets.DigitRun | src/js/ui/golem.ui.widget.js:101 | the digits `parseInt` reads are the longest run of digits at the front of the text |
| Widgets.Digits | src/js/ui/golem.ui.widget.js:101 | the decimal text of a number is a non-empty run of digits |
| Widgets.ParseDecimalString | src/js/ui/golem.ui.widget.js:101 | `parseInt` reads back the decimal text of every integer |
| Widgets.AnchorsResolve | src/js/ui/golem.ui.widget.js:85-98 | `top` and `left` are the offset; `middle` is `(stage-size)/2+offset`; `right` and `bottom` are `stage-size-offset`; each is truncated toward zero, and a missing offset counts as 0 |
| Widgets.MiddleCentres | src/js/ui/golem.ui.widget.js:92-94 | a widget no larger than the stage is centred to within the truncation: the gap after it exceeds the gap before it by less than two pixels |
| Widgets.NumberIgnoresOffset | src/js/ui/golem.ui.widget.js:85-101 | a numeric position is truncated, and the offset is ignored |
| Widgets.PositionExamples | src/js/ui/golem.ui.widget.js:92-98 | `("middle", 50, 200, 0)` gives 75 and `("right", 50, 200, 10)` gives 140 |
| Widgets.WidthHeight | src/js/ui/golem.ui.widget.js:161-170 | the width divided by the columns is the frame width, and the height divided by the rows is the frame height; with no columns the width is 0, with no rows the height is 0 |
| Widgets.WidgetPrototype.constructor | src/js/ui/golem.ui.widget.js:41 | the prototype's `children` starts empty |
| Widgets.Widget.AddChild | src/js/ui/golem.ui.widget.js:43-45 | `addChild` appends to the prototype's one list |
| Widgets.Widget.constructor | src/js/ui/golem.ui.widget.js:23-25 | a new widget shares the given prototype, and its width and height are undefined |
| Widgets.Widget.SetWidthHeight | src/js/ui/golem.ui.widget.js:161-170 | the fields become defined, as `frameWidth*columns` and `frameHeight*rows` |
| Widgets.SharedChildren | src/js/ui/golem.ui.widget.js:41-45 | children added through two different widgets appear, in order, in the children of both |
| Widgets.BuildWidgetByName | src/js/ui/golem.ui.widget.js:36-39 | the factory builds a type exactly when given that type's name in `definitions`; a missing type is not a constructor |
| Scrim.NewScrim | src/js/ui/widget/collection/button.scrim.js:14-22 | a new scrim is idle with `remaining = -1`, has no phase and both halves at rotation 0 |
| Scrim.NewScrimIsIdle | src/js/ui/widget/collection/button.scrim.js:21 | a new scrim is idle, and ticking it changes nothing |
| Scrim.Rotation | src/js/ui/widget/collection/button.scrim.js:118-125 | below 180 the halves are `(deg, 0)`; from 180 up they are `(180.001, deg-180.001)`; they always add up to `deg` |
| Scrim.DurationsInMilliseconds | src/js/ui/widget/collection/button.scrim.js:127-133 | both duration setters store seconds times 1000 and touch nothing else |
| Scrim.CountdownStarts | src/js/ui/widget/collection/button.scrim.js:143-148 | a countdown sets the phase and that phase's duration; `remaining` is `r*1000` for a numeric `r` and the full duration otherwise; the tick clock restarts at `now` |
| Scrim.TickCounts | src/js/ui/widget/collection/button.scrim.js:159-177 | with time remaining, a tick subtracts the elapsed time (never going below 0), moves `lastTick` to `now` and emits nothing |
| Scrim.TickCompletes | src/js/ui/widget/collection/button.scrim.js:178-181 | a tick at 0 returns to idle and emits `recharged` after recharging and `activeComplete` otherwise |
| Scrim.TickIdle | src/js/ui/widget/collection/button.scrim.js:158-182 | ticking an idle scrim changes nothing and emits nothing |
| Scrim.CompletesOnTheTickAfterZero | src/js/ui/widget/collection/button.scrim.js:159-181 | the tick that brings `remaining` to 0 emits nothing; the next tick emits the completion and leaves the scrim idle |
| Scrim.CompletionFiresOnce | src/js/ui/widget/collection/button.scrim.js:156-183 | any run of ticks emits at most one completion, and after it the scrim is idle |
| Scrim.RunIdle | src/js/ui/widget/collection/button.scrim.js:158-182 | any number of ticks leave an idle scrim unchanged and silent |
| Scrim.RevealAngleRange | src/js/ui/widget/collection/button.scrim.js:167-169 | while recharging, the reveal angle lies in [0, 360]; it is 0 at full duration and 360 at none, and it grows as `remaining` falls |
| Scrim.TickKeepsWithinDuration | src/js/ui/widget/collection/button.scrim.js:159-177 | when the clock does not run backwards, `remaining` stays within [0, duration] |
| Scrim.ButtonScrim.constructor | src/js/ui/widget/collection/button.scrim.js:14-22 | the fields are those of a new scrim |
| Scrim.ButtonScrim.Rotate | src/js/ui/widget/collection/button.scrim.js:118-125 | only the rotation changes, to the halves of `deg` |
| Scrim.ButtonScrim.SetActiveTime | src/js/ui/widget/collection/button.scrim.js:127-129 | only the active time changes, to milliseconds |
| Scrim.ButtonScrim.SetRechargingTime | src/js/ui/widget/collection/button.scrim.js:131-133 | only the recharging time changes, to milliseconds |
| Scrim.ButtonScrim.SetCountdown | src/js/ui/widget/collection/button.scrim.js:143-148 | the fields become the countdown state |
| Scrim.ButtonScrim.Tick | src/js/ui/widget/collection/button.scrim.js:156-183 | the fields and the emitted event are those of one tick |
| Buttons.ParseStateCoerces | src/js/ui/widget/collection/button.js:22-40 | every state reads back from its own name, and a name that is none of the six states becomes `off` (both directions) |
| Buttons.NewButton | src/js/ui/widget/collection/button.js:9-15 | a new button is `off` with sprite index 0, not queued, and has an idle scrim |
| Buttons.SetStateEffect | src/js/ui/widget/collection/button.js:39-47 | the state is stored; `active` and `recharging` emit their own name and arm the scrim for that phase; other states emit nothing and leave the scrim alone |
| Buttons.ClickRules | src/js/ui/widget/collection/button.js:112-125 | in `on`, a click activates when no button is active and waits otherwise; in `recharging` it waits; in every other state it does nothing |
| Buttons.ClickNeverAddsSecondActive | src/js/ui/widget/collection/button.js:113-120 | a click makes a button active only from `on`, and only when no button was active |
| Buttons.ScrimCompletionMapping | src/js/ui/widget/collection/button.js:93-95 | `activeComplete` starts a recharge at the full recharging duration (the forwarded argument is not a number); `recharged` turns the button on and leaves the scrim alone |
| Buttons.ProxiesDefault | src/js/ui/widget/collection/button.js:55-57 | a falsy index becomes 0; durations reach the scrim in milliseconds, with an omitted one counting as 0 |
| Buttons.SpriteClassList | src/js/ui/widget/collection/button.js:166-179 | the classes are `golem-button` and `golem-button-<state>`, plus `queued` exactly when the flag is set; the background is hidden exactly in `off` |
| Buttons.Button.constructor | src/js/ui/widget/collection/button.js:9-15 | the fields are those of a new button, with a fresh scrim |
| Buttons.Button.SetState | src/js/ui/widget/collection/button.js:39-47 | the fields and the emitted event are those of `setState` |
| Buttons.Button.SetIndex | src/js/ui/widget/collection/button.js:55-57 | the index becomes the argument, or 0 |
| Buttons.Button.SetActiveTime | src/js/ui/widget/collection/button.js:220-222 | the scrim's active time becomes `seconds || 0` in milliseconds |
| Buttons.Button.SetRechargingTime | src/js/ui/widget/collection/button.js:224-226 | the scrim's recharging time becomes `seconds || 0` in milliseconds |
| Buttons.Button.OnClick | src/js/ui/widget/collection/button.js:112-125 | the fields and the emitted event are those of the click rules |
| Buttons.Button.OnScrimEvent | src/js/ui/widget/collection/button.js:93-95 | the forwarded scrim completions change the state as the completion mapping says |
| FillBars.Defaults | src/js/ui/widget/data/fillbar.js:16-34 | the defaults are `max` 100, `value` 0, `targetValue` 100, a 100 by 20 bar and `duration` 2 s stored as 2000 ms; an explicit duration is taken in seconds |
| FillBars.TickEffect | src/js/ui/widget/data/fillbar.js:87-104 | a tick never passes the target; at the target it changes neither the value nor the drawing; `lastTick` always becomes `now`; nothing else changes |
| FillBars.TickCloses | src/js/ui/widget/data/fillbar.js:96-101 | with time running forward, one tick closes the gap to the target by `(elapsed/duration)*max`, down to no gap at all |
| FillBars.TickBetween | src/js/ui/widget/data/fillbar.js:96-101 | the new value lies between the old value and the target, so a bar within [0, max] stays within it |
| FillBars.TickReachesTarget | src/js/ui/widget/data/fillbar.js:96-101 | a tick a whole duration after the last one lands on the target |
| FillBars.TicksClose | src/js/ui/widget/data/fillbar.js:87-104 | ticks at times running forward close the gap by the step for the whole time since the first `lastTick`, however the ticks fall |
| FillBars.ReachesTargetAfterDuration | src/js/ui/widget/data/fillbar.js:87-104 | once a whole duration has passed, the bar shows its target, however many ticks that took |
| FillBars.TicksKeepTarget | src/js/ui/widget/data/fillbar.js:87-104 | ticking never changes the target |
| FillBars.SetTargetEffect | src/js/ui/widget/data/fillbar.js:106-116 | the target and `lastTick` are always set and the value is kept; a target other than the value takes the duration `d`, or 1000 ms when `d` is missing or 0, and starts the fade-in; otherwise the duration and the opacity stay |
| FillBars.FillWidthRange | src/js/ui/widget/data/fillbar.js:71-81 | the drawn width is 0 at value 0, `width-4` at `max`, and grows with the value |
| FillBars.FillBar.constructor | src/js/ui/widget/data/fillbar.js:13-36 | the fields are the defaults laid under the options |
| FillBars.FillBar.DrawFillPosition | src/js/ui/widget/data/fillbar.js:71-81 | only the drawn width changes, to `((width-4)/max)*value` |
| FillBars.FillBar.Tick | src/js/ui/widget/data/fillbar.js:87-104 | the fields become those of one tick |
| FillBars.FillBar.SetTargetValue | src/js/ui/widget/data/fillbar.js:106-116 | the fields become those of `setTargetValue` |
| ButtonBars.QueueOne | src/js/ui/widget/collection/buttonbar.js:100-109 | `updateQueue` queues and flags exactly the given button, clears every other flag, and keeps the invariant that the flags agree with the queue |
| ButtonBars.DumpClears | src/js/ui/widget/collection/buttonbar.js:136-145 | `dumpQueue` leaves nothing queued or flagged, clicks nothing and changes nothing else |
| ButtonBars.ActivationDrivesFill | src/js/ui/widget/collection/buttonbar.js:65-71 | on `active` the queue is dumped; the fill bar is retargeted to 100 over the active time exactly when that time is positive |
| ButtonBars.DequeueEmpty | src/js/ui/widget/collection/buttonbar.js:111-129 | `deQueue` on an empty queue, and `deQueueIfMatching` for a button other than the queued one, change nothing; for the queued button it is `deQueue` |
| ButtonBars.DequeueClicks | src/js/ui/widget/collection/buttonbar.js:111-119 | `deQueue` empties the queue, clears the flag and then delivers a click to that button |
| ButtonBars.ReactedAgrees | src/js/ui/widget/collection/buttonbar.js:62-71 | the bar's handlers keep the flags in agreement with the queue and change no button's state |
| ButtonBars.ClickKeepsInvariants | src/js/ui/widget/collection/buttonbar.js:62-71 | a click and the bar's reaction keep the flags in agreement with the queue and never leave two buttons active |
| ButtonBars.DequeueKeepsInvariants | src/js/ui/widget/collection/buttonbar.js:111-129 | `deQueue` and `deQueueIfMatching` keep both invariants |
| ButtonBars.ScrimFinishedKeepsInvariants | src/js/ui/widget/collection/buttonbar.js:62-64 | a scrim completion keeps both invariants, because the finishing button leaves `active` before the queued click is delivered |
| ButtonBars.TickKeepsInvariants | src/js/ui/widget/collection/buttonbar.js:75-77 | ticking every scrim in slot order keeps both invariants |
| ButtonBars.QueuedButtonTakesOver | src/js/ui/widget/collection/buttonbar.js:46-63 | when the active button's time is up, it starts recharging and the queued `on` button becomes active, unqueued and unflagged |
| ButtonBars.ClickWhileBusyQueues | src/js/ui/widget/collection/buttonbar.js:62 | a click on an `on` button while another is active, or on a recharging one, only queues it |
| ButtonBars.ClickActivates | src/js/ui/widget/collection/buttonbar.js:65-71 | a click on an `on` button with none active makes it active, arms its scrim for the active phase and empties the queue |
| ButtonBars.IdleBarTicks | src/js/ui/widget/collection/buttonbar.js:75-77 | ticking a bar whose scrims are all idle changes nothing |
| ButtonBars.UpdateMerges | src/js/ui/widget/collection/buttonbar.js:154-172 | the patch wins over the button's index and state; omitted durations become 0; the state is coerced as `setState` does; the remaining time passed on is `activeTimeRemaining || rechargeTimeRemaining` |
| ButtonBars.UpdateKeepsQueue | src/js/ui/widget/collection/buttonbar.js:154-172 | `updateButton` on a wired bar keeps the flags in agreement with the queue |
| ButtonBars.PopulateFillsHoles | src/js/ui/widget/collection/buttonbar.js:43-60 | every undefined slot, and no other, gets a new button configured by `buttons[i]` |
| ButtonBars.InitialButtonsAre | src/js/ui/widget/collection/buttonbar.js:18-20 | the buttons of a new bar are `rows*columns` (1 by 4 by default), and slot `i` holds the button configured by `buttons[i]` |
| ButtonBars.EmptyResize | src/js/ui/widget/collection/buttonbar.js:18 | sizing the empty list gives `rows*columns` undefined slots |
| ButtonBars.ConfiguredUnqueued | src/js/ui/widget/collection/buttonbar.js:46-58 | a freshly configured button is not queued |
| ButtonBars.NewBarButtons | src/js/ui/widget/collection/buttonbar.js:9-24 | a new bar has `rows*columns` buttons (4 by default), slot `i` holds the button configured by `buttons[i]`, and nothing is queued or flagged |
| ButtonBars.NewBarIs | src/js/ui/widget/collection/buttonbar.js:9-24 | buttons that match the configured ones slot by slot, an empty queue and the new fill bar make up the new bar |
| ButtonBars.Configure | src/js/ui/widget/collection/buttonbar.js:167-171 | the setters run in order on one button and produce the reconfigured button and its event |
| ButtonBars.NewButtons | src/js/ui/widget/collection/buttonbar.js:43-60 | the loop gives fresh, distinct buttons with distinct scrims, slot `i` configured by `buttons[i]` |
| ButtonBars.ButtonBar.constructor | src/js/ui/widget/collection/buttonbar.js:9-24 | the state is that of the new bar |
| ButtonBars.ButtonBar.AnyActive | src/js/ui/widget/collection/button.js:115 | the scan answers whether some button of the shared list is active |
| ButtonBars.ButtonBar.UpdateQueue | src/js/ui/widget/collection/buttonbar.js:100-109 | the state becomes that of `updateQueue` |
| ButtonBars.ButtonBar.DumpQueue | src/js/ui/widget/collection/buttonbar.js:136-145 | the state becomes that of `dumpQueue` |
| ButtonBars.ButtonBar.OnActive | src/js/ui/widget/collection/buttonbar.js:65-71 | the state becomes that of the `active` handler |
| ButtonBars.ButtonBar.React | src/js/ui/widget/collection/buttonbar.js:62-71 | the state becomes that of the bar's handlers |
| ButtonBars.ButtonBar.Click | src/js/ui/widget/collection/button.js:112-125 | the state becomes that of a click and the bar's reaction to it |
| ButtonBars.ButtonBar.DeQueue | src/js/ui/widget/collection/buttonbar.js:111-119 | the state becomes that of `deQueue` |
| ButtonBars.ButtonBar.DeQueueIfMatching | src/js/ui/widget/collection/buttonbar.js:121-129 | the state becomes that of `deQueueIfMatching` |
| ButtonBars.ButtonBar.TickOne | src/js/ui/widget/collection/buttonbar.js:62-64 | the state becomes that of one scrim's tick, the button's handler of its completion, and then the bar's |
| ButtonBars.ButtonBar.TickScrims | src/js/ui/widget/collection/buttonbar.js:75-77 | the loop ticks every scrim in slot order |
| ButtonBars.ButtonBar.UpdateButton | src/js/ui/widget/collection/buttonbar.js:154-172 | the state becomes that of `updateButton` on a wired bar |

## Left out

- DOM, CSS and canvas rendering are not modelled. This covers `render`, `setupHTML`, `reposition`, `setBackgroundSprite`'s CSS text, `buildElements`, `drawShapes` and the jQuery size reads. The fill bar's drawing is reduced to the width of its last fill rectangle, and the fade-in tween to a `revealed` flag.
- `createjs.Ticker` and `new Date()` become explicit `now` arguments and an explicit "tick every scrim" step. There is no ambient scheduler.
- The scrim's text `toFixed(1)`, and the rounding of the reveal angle by `toFixed(3)`, are not modelled. The angle is exact.
- Floating point is replaced by exact `real` arithmetic. NaN and Infinity are not modelled. The one exception: `getPosition` with zero columns is modelled as `NotFinite`.
- `parseInt` of a number whose text uses exponent notation (below 1e-6 or from 1e21 up) is modelled as plain truncation.
- A string `remaining` in the scrim's completion test `parseInt(remaining, 10) === 0` is not modelled. The number case is modelled: a value in (-1, 0].
- FillBars.TickStep: requires a non-zero `duration` and `max`. With a zero either way the source divides by zero, and floating-point infinities are outside the model.
- FillBars.FillWidth: requires a non-zero `max`, for the same reason.
- FillBars.FillBar.Tick: requires a non-zero `duration` and `max`, as `TickStep` does.
- FillBars.FillBar.DrawFillPosition: requires a non-zero `max`, as `FillWidth` does.
- Scrim.RevealAngle: requires a non-zero duration. A recharging scrim with a zero or undefined duration keeps its rotation in the model. In the source, `360 - (remaining / time) * 360` (button.scrim.js:168) is -Infinity for a zero duration while time remains, and NaN once the remaining time reaches 0 or when the duration is undefined; `rotate` then sets those values (lines 120-124). A zero recharging duration is reachable, for example through `updateButton(0, {state: 'recharging', rechargeTimeRemaining: 2})`.
- The EventEmitter's listeners run no code. Callbacks are opaque ids, and `emit` returns the ordered trace of calls it would make. The extra arguments of `emit` and the `this`-binding of listeners are not modelled. Re-entrant listeners that change the registry during dispatch are not modelled either. The source copies a name's list and the `all` list only when that name's turn comes (golem.util.js:117-119), so a listener on `a` that calls `on` or `off` for `b` would change what `emit("a b")` dispatches for `b`. The model, whose listeners run no code, reads the registry that `emit` started with for every name.
- Events.Register, Events.OnSpec, Events.EmitSpec and Widgets.BuildWidget: event names and widget types that coincide with properties every JavaScript object inherits (`toString`, `constructor`, `valueOf`, `hasOwnProperty`, `__proto__` and the like) are not modelled. The registry and the `definitions` map are plain objects, so in the source `registry[event]` finds the inherited member: `on` then throws at `list.push`, `emit` throws at `.slice`, and `buildWidget({type: 'constructor'})` calls `Object` and returns the options. The model treats such names as ordinary absent keys.
- A context is modelled as present or absent. A falsy context value such as `0` or `''`, which `off` treats as absent, is not modelled.
- `checkExists` assumes underscore's `_.each`, which ignores the value returned by the callback. Every path is therefore checked, and the last one decides. The library itself is not part of this model.
- `checkExists` over primitive values is simplified. A property of a primitive is always undefined in the model, where the source would find properties such as `length`. Inherited (prototype) properties are not modelled.
- Negative, fractional and non-numeric dimensions and indexes are not modelled. The collection's dimensions are naturals. Indexes are integers; a negative index is stored in a side map, as JavaScript stores it as a plain property.
- Widgets.BuildWidget: the map it reads is the `definitions` of `src/js/outro.js`, as in the single-scope build `dist/js/golem.ui-0.0.2.js` (lines 517-518 and 1501). In `src/js/ui/golem.ui.widget.js` alone, the function closes over a local `definitions` (lines 4-6), filled at lines 178-185 with local names that are never assigned in that scope. Read that way, every type would be undefined, and that reading is not modelled.
- The `{row, column}` form of `updateButton`'s index is not modelled.
- ButtonBars.ButtonBar.UpdateButton: requires an index within the bar. The source throws on a missing button.
- A patch key explicitly set to `undefined` is treated as omitted.
- `setupButtons` is modelled on the freshly sized list only, which is the only list the bar's constructor gives it. Its `add` calls and the events they emit on the bar are not modelled.
- The mouse-event proxies and the `mousedown` forwarding of `setupEvents` are not modelled. The scrim's `recharging` forwarding is not modelled either, since the scrim never emits it.
- The bar's `active` handler runs, in the source, before the button arms its scrim. The model arms the scrim first. The two orders give the same result, because the handler reads only the scrim's `activeTime`, which arming does not change.
- `logIfUndefined`'s console output is returned as a list of lines.
- `setupSpriteSheet`, the sprite sheet and sprite frames, `golem.preload.js`, `golem.ui.js` (canvas creation and resizing) and the bootstrap are outside this model.

## Findings

| source | as written | input that shows it | evidently intended | confidence | as-written member | corrected member |
|---|---|---|---|---|---|---|
| src/js/ui/widget/collection.js:38-39 | `if (newList.length > lastIndex) addToOverflow(newList.splice(lastIndex))`, where `lastIndex` is `rows*columns-1` | a 1x1 collection holding one item, resized to 1x1: the item goes to the overflow and the list is empty | survivors overflow only when there are more of them than the `rows*columns` slots (`length > rows*columns`, splice at `rows*columns`) | not executed | Grid.ResizeAsWrittenLosesFullSlot | Grid.ResizeKeepsEverything |
| src/js/ui/widget/collection.js:56-57 | `overflow.concat(items)` for an array, whose result is discarded | `addToOverflow(['a'])` on an empty buffer: the buffer stays empty while the `overflow` event reports `['a']` | the batch is appended to the shared buffer (`push.apply` or assigning the result of `concat`) | not executed | Grid.OverflowAsWrittenDropsBatch | Grid.OverflowIntoAppends |

`Grid.Collection.SetDimensions` and `Grid.Collection.AddToOverflow` use the
corrected definitions. The bar only ever resizes an empty list, where the
written and the corrected resize agree.
