# Hackathon end countdown: the countdown engine in Dafny

This project models the countdown engine of the AlgoForge hackathon page, a single
React component (`App` in `src/App.tsx`). It covers three parts:

- **Countdown** (`countdown.dfy`) holds the tick function `updateTimer`. It maps the current
  instant, in epoch milliseconds, to the `{days, hours, minutes, seconds}` that the timer shows.
  The event runs from 2025-03-22T07:30:00Z (`StartDate` = 1742628600000) to
  2025-03-23T07:30:00Z (`EndDate` = 1742715000000), so the window is exactly 86,400,000 ms.
  Before the start the timer shows 24:00:00. Strictly after the end it shows 00:00:00.
  In between it floor-divides `EndDate - now` into hours, minutes and seconds.
  The function is specified against an independent reference: the time left, clamped to
  `[0, Window]` (`Remaining`). The displayed value is the unique normal-form
  hours/minutes/seconds that rounds `Remaining` down to whole seconds.
- **Padding** (`padding.dfy`) holds the rendering of each field as
  `value.toString().padStart(2, '0')`. Its partner is a decimal parser, and the model proves
  that reading back a padded field gives the value.
- **Session** (`session.dfy`) holds the component state that the tick, the "time's up" end
  sequence and the popup close button change: `timeLeft`, `showCompletion`, `hasSeenPopup`
  and `isEnding`. The class `App` holds them as fields, and its methods are specified by pure
  transition functions on a `Flags` value. Lemmas over runs of events (`Tick(now)`,
  `Dismissed`, `Closed`) state what the flags guarantee over a whole session.

Three consequences of the code as written:

- A deadline counts as "reached" for triggering only when `now > EndDate`, a strict
  comparison. At `now == EndDate` the display is already 00:00:00, but nothing fires
  (`AtEndNothingTriggers`).
- The end sequence can fire more than once per page load. Finishing the dismissal clears
  `isEnding` while `hasSeenPopup` is still false. The next tick past the end therefore fires the
  sequence again, and this repeats until the popup is closed (`RetriggerAfterDismissal`).
  What does hold is this: it fires at most once per completed dismissal, plus once
  (`TriggersBoundedByDismissals`). It never fires after the popup is closed
  (`NoTriggerAfterClose`). When no dismissal intervenes, it fires exactly once as soon as a
  tick comes after the end (`CrossingFiresOnce`).
- Before the start the hours are fixed at 24. They are not the uncapped time until the end.

The interval callback reads `hasSeenPopup` and `isEnding` from the render in which it was
installed. The effect is re-installed whenever either flag changes (src/App.tsx:68), so the
model reads the current flags at each tick.

## Model

| member | source | states |
|---|---|---|
| Countdown.UpdateTimer | src/App.tsx:37-62 | the display has no days, minutes and seconds in 0..59, hours in 0..24, and it is the time left clamped to the event window, rounded down to whole seconds |
| Countdown.Decompose | src/App.tsx:56-59 | splitting a non-negative millisecond count by hour, by the minute remainder and by the second remainder gives in-range minutes and seconds that floor the count to whole seconds |
| Countdown.UpdateTimerUnique | src/App.tsx:55-61 | any normal-form value that floors the clamped time left equals the display, so UpdateTimer's contract determines it completely |
| Countdown.BeforeStartShowsFullDay | src/App.tsx:40-44 | before the start the display is exactly 0 days 24:00:00 |
| Countdown.AfterEndShowsZero | src/App.tsx:46-48 | strictly after the end the display is exactly 0 days 00:00:00 |
| Countdown.AtEndShowsZero | src/App.tsx:47-61 | at the end instant the in-window branch runs, and it also shows 00:00:00 |
| Countdown.InWindowFloors | src/App.tsx:55-61 | in the window, hours·3600000 + minutes·60000 + seconds·1000 ≤ EndDate − now < that + 1000, with minutes and seconds ≤ 59 and hours ≤ 24 |
| Countdown.FullDayHasNoMinutes | src/App.tsx:33-59 | whenever 24 hours are shown, minutes and seconds are 0, because the window is exactly one day |
| Countdown.TotalSecondsNonIncreasing | src/App.tsx:37-62 | the total seconds shown never increase as now increases, across all three regimes |
| Countdown.Examples | src/App.tsx:56-61 | two seconds before the end the display is 00:00:02, one hour before it is 01:00:00, and one millisecond before it is 00:00:00 |
| Padding.NatToString | src/App.tsx:290 | toString of a non-negative integer below 1e21 is a non-empty string of decimal digits with no leading zero, and it is one character long exactly when the value is below 10 |
| Padding.PadTwo | src/App.tsx:290 | the rendered field is PadStart of NatToString with width 2 and filler '0', and it is all digits |
| Padding.PadStart | src/App.tsx:290 | padStart keeps a string that is long enough; otherwise it reaches the width exactly, ends with the original string and is filled in front with the filler |
| Padding.PadTwoShape | src/App.tsx:290 | a padded field has at least two digits; a value below 10 gives "0" followed by its digit, and any other value gives its decimal digits unchanged |
| Padding.ParseNatToString | src/App.tsx:290 | reading back the decimal digits of a value gives the value |
| Padding.PadTwoRoundTrip | src/App.tsx:290 | reading back a padded field gives the value, so padding loses nothing |
| Session.TickChangesOnlyWhenTriggered | src/App.tsx:47-51 | a tick changes the flags if and only if now > EndDate, hasSeenPopup is false and isEnding is false; it then only sets isEnding |
| Session.AtEndNothingTriggers | src/App.tsx:47-59 | at now == EndDate the display is all zero, and the tick changes no flag |
| Session.LoadAfterEndTriggers | src/App.tsx:64 | the tick that runs when the page loads after the end fires the end sequence |
| Session.StartEndingOnce | src/App.tsx:71-73 | starting the end sequence sets isEnding; a second start, or a start while isEnding is set, changes nothing |
| Session.DismissReopensGuard | src/App.tsx:195-197 | after a finished dismissal the tick guard holds exactly when now > EndDate and the popup has not been closed |
| Session.CloseIdempotent | src/App.tsx:208-210 | closing hides the popup and sets hasSeenPopup; closing twice is the same as closing once |
| Session.SeenIsPermanent | src/App.tsx:207-211 | once hasSeenPopup is set, no run of ticks, dismissals or closes clears it |
| Session.NoTriggerAfterClose | src/App.tsx:47-51 | once hasSeenPopup is set, no later tick fires the end sequence |
| Session.TriggersBoundedByDismissals | src/App.tsx:47-73 | in any run, the ticks that fire the end sequence are at most the completed dismissals plus one (none if a sequence is running or the popup was closed) |
| Session.AtMostOnceWithoutDismissal | src/App.tsx:47-73 | from page load, a run without a completed dismissal fires the end sequence at most once, however many ticks come after the end |
| Session.RetriggerAfterDismissal | src/App.tsx:195-197 | a tick after the end, a finished dismissal and another tick after the end fire the sequence twice |
| Session.ReopenedPopupNeverRetriggers | src/App.tsx:195-210 | after a first dismissal shows the popup, the next tick fires a second sequence; closing the popup while that sequence runs and then finishing its dismissal shows the popup again, and whatever events follow, the run fires exactly twice in all |
| Session.NoTriggerWhileEnding | src/App.tsx:49-51 | while a sequence is running, a run of ticks fires nothing |
| Session.TickRunFiresOnce | src/App.tsx:47-73 | from flags that let the guard through, a run of ticks fires exactly once if one of its ticks is after the end, and zero times otherwise |
| Session.CrossingFiresOnce | src/App.tsx:47-73 | from page load, a run of ticks with no dismissal or close fires the end sequence exactly once when it crosses the end, and never when it does not |
| Session.CrossingExample | src/App.tsx:47-73 | ticks 2 s and 1 s before the end fire nothing, the tick 5 s after the end fires, and the tick 6 s after does not fire again |
| Session.App.constructor | src/App.tsx:6-14 | the component starts at 0 days 24:00:00 with all three flags false |
| Session.App.TriggerEndSequence | src/App.tsx:71-73 | it reports a start exactly when isEnding was false; the flags become StartEnding of the old flags, and the timer value is unchanged |
| Session.App.Tick | src/App.tsx:37-62 | the timer value becomes UpdateTimer(now); it reports a trigger exactly when the guard held on the old flags; the flags become TickFlags of the old flags |
| Session.App.FinishDismiss | src/App.tsx:195-197 | showCompletion becomes true and isEnding false; nothing else changes |
| Session.App.HandleClosePopup | src/App.tsx:208-210 | showCompletion becomes false and hasSeenPopup true; nothing else changes |

## Left out

- Date parsing and the wall clock (src/App.tsx:33-38): the two dates are integer constants, and `now` is a parameter of each tick.
- Floating point: `Math.floor(difference / k)` on JavaScript numbers is modelled as integer floor division. The two agree for the non-negative millisecond counts below 2^53 that the window allows. JavaScript's truncating `%` equals Dafny's `%` here, because `difference` is never negative.
- Scheduling (src/App.tsx:64-68, 162-204): `setInterval`, `clearInterval`, the effect re-installation and the click and touch listeners are left out. Each tick, each finished dismissal and each close is one discrete call, or one `Event` of a run.
- React state batching: each handler's updates take effect together, as one method call.
- The end sequence's effects (src/App.tsx:75-159, 162-193): the audio, the DOM overlays, the CSS classes and the framer-motion animations with their durations are browser side effects. Only their effect on the flags is modelled. The dismissal is modelled from the point where its animations finish (src/App.tsx:195-197).
- The glitch-class clean-up in `handleClosePopup` (src/App.tsx:212-216) is a DOM effect.
- Rendering (src/App.tsx:219-405) is left out, apart from the two-digit padding at line 290.
- The audio element setup and teardown (src/App.tsx:16-29) is I/O.
- Session.Step accepts `Closed` and `Dismissed` in any state. The page offers the close button only while the popup is shown (src/App.tsx:317, 334-335), and it finishes a dismissal only after starting a sequence (src/App.tsx:162-204). The run lemmas therefore hold over a superset of the page's runs, and their bounds are upper bounds.
- Padding.NatToString: models toString only for integers below 1e21. From 1e21 on, JavaScript switches to exponent notation, and integers above 2^53 are not exact. The timer's fields are at most 59.
