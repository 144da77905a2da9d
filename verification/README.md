# Canvas mini-games: a Dafny model

This project models four browser mini-games as pure transition systems:

- the multi-duration click-speed test, which offers 5, 10, 30 and 60 second runs, per-second click buckets, a bar chart and a best score per duration (module `ClickTest`);
- the fixed ten-second click-speed test (module `FixedClickTest`);
- the sixty-second typing test, with a three-step countdown, per-keystroke error counting, words per minute, accuracy and a best speed (module `TypingTest`);
- the reaction-time test, including the click listeners it accumulates (module `ReactionTest`).

Each game is a state record, an event datatype, a `Step` function and a `Run` over an event sequence. Shared pieces have their own modules:

- `Scoring`: rating tiers as a count of thresholds reached, and JavaScript's `Math.round`;
- `Geometry`: axis-aligned button boxes with closed edges, and cursors;
- `ClickEffects`: the ripple markers the click tests draw and prune.

Inputs from the environment become parameters of the events:

- the wall clock (`Date.now()`) is an integer millisecond in each event;
- each `Math.random()` draw is a real in [0, 1);
- each `setInterval` or `setTimeout` handle is a count of live intervals or pending timeouts, or a flag for the reaction test's single delay timeout, so "at most one live" is a statement about a number or a flag;
- local storage is the best-score field, read at construction.

Click-test time left is kept in integer hundredths of a second. Typing-test time left is in whole seconds. Rates, speeds and accuracy are `real`.

In these places the model follows the code as written:

- The typing test's elapsed time is derived from the time left, not from a wall-clock delta.
- Malformed stored scores are not treated as zero. The multi-duration test's `JSON.parse` would throw, and a non-numeric string makes the `>` comparisons false. The model takes the stored best as a number.
- The reaction test's early-click listener is not detached when the game leaves the red screen. It is registered anew on every start and never removed; see Findings.
- The fixed test's "NEW RECORD" banner compares the score with the best after the update, so a tie with an older record shows it (`FixedClickTest.TieShowsNewRecord`). The multi-duration test behaves the same way (`ClickTest.NewRecordOnTie`). The typing test's banner compares the rounded speed with the best after the update, so a run whose exact speed falls short of the best but rounds to it shows the banner too (`TypingTest.FinishedBanner`).

## Model

| member | source | states |
|---|---|---|
| ClickTest.InitInv | fe/fe-web/public/games/click-test/game.js:3-17 | the initial menu state (duration 10, no live interval) satisfies the game invariant |
| ClickTest.BestKeysDistinct | fe/fe-web/public/games/click-test/game.js:185 | the four menu durations store their best scores under four different keys |
| ClickTest.DurationBoxesDisjoint | fe/fe-web/public/games/click-test/game.js:108-125 | no point lies in two duration buttons |
| ClickTest.MenuClick | fe/fe-web/public/games/click-test/game.js:108-125 | a menu click outside every button changes nothing; a click in button i starts exactly one game, of duration Durations[i], despite the forEach scanning every button |
| ClickTest.MenuClickStarts | fe/fe-web/public/games/click-test/game.js:127-135 | a started run is running with 0 clicks, the full time, one zero bucket per second, second 0, exactly one live interval and the best scores untouched |
| ClickTest.RunningClickCounts | fe/fe-web/public/games/click-test/game.js:158-173 | a click while running adds exactly one click, to the current second, and appends one marker after the pruned ones |
| ClickTest.ClickPreservesInv | fe/fe-web/public/games/click-test/game.js:68-80 | a click keeps the invariant |
| ClickTest.TickCountsDown | fe/fe-web/public/games/click-test/game.js:138-153 | a tick lowers the time left by one hundredth and never below 0; the run is finished exactly when it reaches 0, and then no interval is live |
| ClickTest.TickBucketsInv | fe/fe-web/public/games/click-test/game.js:142-147 | the whole seconds elapsed never go back while the clock does not; moving to a new second files the old second's clicks; the filed buckets plus the current count still equal the clicks, and later buckets stay empty |
| ClickTest.EndGameInv | fe/fe-web/public/games/click-test/game.js:175-189 | ending a run files the last second, so the buckets add up to the score, and the best for the duration is at least the score |
| ClickTest.TickPreservesInv | fe/fe-web/public/games/click-test/game.js:138-153 | a tick keeps the invariant under a clock that does not go back |
| ClickTest.StepPreservesInv | fe/fe-web/public/games/click-test/game.js:35-201 | every event keeps the invariant: a menu duration is selected, the current second is within the run, one interval is live exactly while running, and a finished run's buckets add up to its clicks |
| ClickTest.RunPreservesInv | fe/fe-web/public/games/click-test/game.js:35-201 | the invariant holds after any event sequence whose clock never goes back |
| ClickTest.TicksToFinish | fe/fe-web/public/games/click-test/game.js:138-151 | in the centisecond model, a run lasts exactly its time left in hundredths of a second, counted in ticks: fewer ticks leave it running with that much less time, and exactly that many finish it |
| ClickTest.FinalTick | fe/fe-web/public/games/click-test/game.js:175-189 | the last tick finishes the run with no live interval, buckets summing to the clicks, and the best-score update for this duration |
| ClickTest.RecordBest | fe/fe-web/public/games/click-test/game.js:184-189 | the duration's entry becomes the larger of the stored value and the score (written when absent); every other entry is unchanged |
| ClickTest.StepKeepsBest | fe/fe-web/public/games/click-test/game.js:184-189 | no event removes or lowers a stored best, and only the selected duration's entry can change |
| ClickTest.RunKeepsBest | fe/fe-web/public/games/click-test/game.js:184-189 | best scores never decrease over any event sequence |
| ClickTest.OtherDurationsUntouched | fe/fe-web/public/games/click-test/game.js:185-189 | an event never changes the best score of a duration other than the selected one |
| ClickTest.RenderMarkers | fe/fe-web/public/games/click-test/game.js:216-226 | after a render while running, every marker is live and drawn within range |
| ClickTest.FinishedClickResets | fe/fe-web/public/games/click-test/game.js:82-106 | on the finished screen, Try Again and Menu return to the menu with clicks, markers and buckets cleared and the bests and duration kept; elsewhere a click changes nothing |
| ClickTest.CursorMatchesClick | fe/fe-web/public/games/click-test/game.js:40-66 | on the finished screen the hover cursor is a pointer exactly where a click returns to the menu |
| ClickTest.NewRecordOnTie | fe/fe-web/public/games/click-test/game.js:392-394 | after a run the banner shows exactly when the score is positive and equals the stored best, a tie included |
| ClickTest.RatingByTier | fe/fe-web/public/games/click-test/game.js:207-214 | the rating cascade is the table entry at the number of thresholds 2, 4, 6, 8, 10 reached |
| ClickTest.RatingMonotone | fe/fe-web/public/games/click-test/game.js:207-214 | a higher rate never gets a lower rating tier |
| ClickTest.CpsReachesMultiple | fe/fe-web/public/games/click-test/game.js:203-205 | the rate reaches a whole number k exactly when the clicks reach k per second of the run |
| ClickTest.CentsKeepWholeThresholds | fe/fe-web/public/games/click-test/game.js:203-205 | for runs of at most 100 s, rounding the rate to hundredths keeps it on the same side of every whole threshold |
| ClickTest.FinishedRatingExact | fe/fe-web/public/games/click-test/game.js:374-375 | for every menu duration, rating the rate rounded to two decimals gives the rating of the exact rate |
| ClickTest.MaxOrOne | fe/fe-web/public/games/click-test/game.js:250 | the scale is at least 1, at least every bucket, and is 1 or one of the buckets |
| ClickTest.BarHeights | fe/fe-web/public/games/click-test/game.js:250-255 | one bar per bucket, every bar within the 160-pixel area, bars ordered as their buckets, and the largest non-empty bucket fills the area |
| ClickTest.Scale | fe/fe-web/public/games/click-test/game.js:255 | a bar is within the area, and full when the bucket equals the scale |
| ClickTest.ScaleMonotone | fe/fe-web/public/games/click-test/game.js:255 | a larger bucket never gets a shorter bar |
| ClickEffects.Refresh | fe/fe-web/public/games/click-test/game.js:219-224 | only radius and opacity change, and for an age within the lifetime both stay in range |
| ClickEffects.RefreshMonotone | fe/fe-web/public/games/click-test/game.js:222-223 | of two markers of one size, the older is drawn at least as wide and at most as opaque |
| ClickEffects.Prune | fe/fe-web/public/games/click-test/game.js:218-225 | pruning never adds markers and keeps only live ones |
| ClickEffects.PruneKeepsLive | fe/fe-web/public/games/click-test/game.js:216-226 | every kept marker is the refresh of a live input marker, every live input marker is kept, and kept markers are in range |
| ClickEffects.PruneAppend | fe/fe-web/public/games/click-test/game.js:218-225 | pruning a concatenation prunes each part |
| ClickEffects.PruneIdempotent | public/games/click-test/game.js:125-135 | a second render at the same time changes nothing |
| ClickEffects.PruneSettles | public/games/click-test/game.js:125-135 | a render pass leaves markers of one size live, not from the future, and in range |
| ClickEffects.PruneAfterSpawn | fe/fe-web/public/games/click-test/game.js:158-172 | the marker a click spawns survives the render at the same moment unchanged, after the surviving older markers |
| FixedClickTest.InitInv | public/games/click-test/game.js:3-17 | the initial start screen satisfies the invariant |
| FixedClickTest.ClickByPhase | public/games/click-test/game.js:42-89 | a click anywhere starts a fresh run from the start screen, counts exactly one click and one marker while running, and returns to the start screen from the result, keeping the best |
| FixedClickTest.TickCountsDown | public/games/click-test/game.js:63-69 | a tick lowers the time left by one hundredth, never below 0; the run ends exactly at 0, clearing the interval |
| FixedClickTest.StepPreservesInv | public/games/click-test/game.js:42-110 | every event keeps the invariant: one interval live exactly while running, the time within ten seconds, settled markers, and a finished score at most the best |
| FixedClickTest.RunPreservesInv | public/games/click-test/game.js:42-110 | the invariant holds after any event sequence whose clock never goes back |
| FixedClickTest.StepBest | public/games/click-test/game.js:95-99 | the best never decreases, and changes only to a score strictly above it |
| FixedClickTest.RunKeepsBest | public/games/click-test/game.js:95-99 | the best never decreases over any event sequence |
| FixedClickTest.TieShowsNewRecord | public/games/click-test/game.js:208-209 | a run that only ties a positive record leaves it unchanged yet shows the "NEW RECORD" banner |
| FixedClickTest.NewRecordIffEqualsBest | public/games/click-test/game.js:208-212 | after a run the banner shows exactly when the score is positive and equals the best |
| FixedClickTest.RatingByTier | public/games/click-test/game.js:116-123 | the rating cascade is the table entry at the number of thresholds 20, 40, 60, 80, 100 reached by the raw click count |
| FixedClickTest.RatingMonotone | public/games/click-test/game.js:116-123 | more clicks never get a lower rating tier |
| FixedClickTest.CpsShownExactly | public/games/click-test/game.js:112-114 | the rate shown with one decimal is exactly clicks over ten |
| FixedClickTest.ThirtySevenClicks | public/games/click-test/game.js:112-123 | 37 clicks show as 3.7 per second and rate "Average" |
| TypingTest.SelectRandomText | fe/fe-web/public/games/typing-test/game.js:94-96 | every drawn text is one of the ten pool texts |
| TypingTest.PoolNonEmpty | fe/fe-web/public/games/typing-test/game.js:17-28 | no pool text is empty |
| TypingTest.InitInv | fe/fe-web/public/games/typing-test/game.js:3-34 | the initial start screen satisfies the invariant |
| TypingTest.PhaseInputs | fe/fe-web/public/games/typing-test/game.js:52-92 | a click or Enter starts the countdown from the start screen and resets from the result, keeping the best; keys and clicks during the countdown and clicks while running change nothing |
| TypingTest.RunningKey | fe/fe-web/public/games/typing-test/game.js:67-88 | while running, Backspace drops the last character and keeps the errors; a single character adds an error exactly when it differs from the text at its index or lies past its end, and is kept unless it completes the text, which draws a pool text and empties the buffer; other keys change nothing |
| TypingTest.CoversDropLast | fe/fe-web/public/games/typing-test/game.js:70-71 | Backspace cannot make the buffer contain the whole text unless it already did |
| TypingTest.CoversAppend | fe/fe-web/public/games/typing-test/game.js:73-85 | one more character makes the buffer contain the whole text only when it completes it exactly, which is the case the completion check catches |
| TypingTest.Mismatches | fe/fe-web/public/games/typing-test/game.js:75-79 | the wrong characters in a buffer are at most its length |
| TypingTest.MismatchesAppend | fe/fe-web/public/games/typing-test/game.js:73-79 | a typed character adds one wrong character exactly when the error check counts one |
| TypingTest.MismatchesDropLast | fe/fe-web/public/games/typing-test/game.js:70-71 | Backspace never adds a wrong character |
| TypingTest.CountdownTicks | fe/fe-web/public/games/typing-test/game.js:98-130 | the countdown goes down one step per tick; the step reaching 0 clears it and starts a 60-second run with an empty buffer, no errors and one game interval |
| TypingTest.GameTicks | fe/fe-web/public/games/typing-test/game.js:121-143 | a tick takes one second off; the run ends exactly at 0, clearing the interval and setting the best to the larger of the old best and the rounded speed over the full minute; otherwise the run and the best go on unchanged |
| TypingTest.BestUpdateIsMax | fe/fe-web/public/games/typing-test/game.js:136-140 | replacing the best by the rounded speed only when the unrounded speed beats it gives the larger of the best and the rounded speed |
| TypingTest.StepPreservesInv | fe/fe-web/public/games/typing-test/game.js:47-152 | every event keeps the invariant: the text is from the pool, each interval is live only in its phase, the buffer never contains the whole text, and every wrong character was counted as an error |
| TypingTest.RunPreservesInv | fe/fe-web/public/games/typing-test/game.js:47-152 | the invariant holds after any event sequence |
| TypingTest.ErrorsOnlyReset | fe/fe-web/public/games/typing-test/game.js:113-152 | errors never decrease during a run; they go down only to 0, when a run starts or the game resets |
| TypingTest.WpmFormula | fe/fe-web/public/games/typing-test/game.js:154-158 | words per minute is never negative; it is 0 before any time has passed and otherwise 12 times the characters over the seconds elapsed |
| TypingTest.FullMinuteExample | fe/fe-web/public/games/typing-test/game.js:154-171 | 260 characters with 10 errors after the full minute give 52 words per minute, rated "Great!", and 250 of 260 accurate |
| TypingTest.AccuracyBounds | fe/fe-web/public/games/typing-test/game.js:160-163 | accuracy lies in [0, 100] and never exceeds the share of the buffer that is right |
| TypingTest.ShownAccuracyHonest | fe/fe-web/public/games/typing-test/game.js:160-163 | in every reachable state the computed accuracy lies in [0, 100] and never exceeds the correct share of the buffer; the whole percentage the screens show (`Math.round` at lines 225 and 274) lies in [0, 100] and never exceeds that share rounded the same way, so 299 right of 300 shows 100% |
| TypingTest.WpmBeatsBest | fe/fe-web/public/games/typing-test/game.js:136-140 | a speed beating the best rounds to a new best no lower than the old |
| TypingTest.StepKeepsBest | fe/fe-web/public/games/typing-test/game.js:132-152 | the best speed never decreases, and changes only at the end of a run whose speed beats it, to that speed rounded |
| TypingTest.RunKeepsBest | fe/fe-web/public/games/typing-test/game.js:132-152 | the best speed never decreases over any event sequence |
| TypingTest.RatingByTier | fe/fe-web/public/games/typing-test/game.js:165-171 | the rating cascade is the table entry at the number of thresholds 25, 40, 60, 80 reached |
| TypingTest.RatingMonotone | fe/fe-web/public/games/typing-test/game.js:165-171 | a higher speed never gets a lower rating tier |
| TypingTest.RoundedRatingByTier | fe/fe-web/public/games/typing-test/game.js:273-275 | the finished screen rates the rounded speed, which is the table entry at the tier of the exact speed plus one half |
| TypingTest.RoundedRatingExample | fe/fe-web/public/games/typing-test/game.js:273-275 | 123 characters over the minute is 24.6 words per minute, shown as 25 and rated "Good", where the exact speed would rate "Keep Practicing!" |
| TypingTest.FinishedBanner | fe/fe-web/public/games/typing-test/game.js:290-291 | at the end of a run the banner shows exactly when the rounded speed is positive and reaches the old best; when the exact speed does not beat the best, the best stays and the banner can still show |
| ReactionTest.StartWaiting | fe/fe-web/public/games/reaction-test/game.js:51-60 | the random delay lies in [2000, 5000) ms |
| ReactionTest.InitInv | fe/fe-web/public/games/reaction-test/game.js:3-17 | the initial start screen, with only the game's own listener, satisfies the invariant |
| ReactionTest.DispatchEarlyIdle | fe/fe-web/public/games/reaction-test/game.js:63-72 | early-click listeners do nothing unless the screen is red |
| ReactionTest.DispatchEarlyReady | fe/fe-web/public/games/reaction-test/game.js:63-72 | on a red screen the first early-click listener reports the early click and the others do nothing, so a click makes at most one early transition |
| ReactionTest.ClickByPhase | fe/fe-web/public/games/reaction-test/game.js:31-94 | a click's effect in each phase: the first start turns the screen red; every later start ends at "Too Early!" with one more listener; a red click is early; a green click records now minus the start; a result click resets; an early screen ignores clicks |
| ReactionTest.StepPreservesInv | fe/fe-web/public/games/reaction-test/game.js:31-94 | every event keeps the invariant: the listener list is the game's listener then early-click listeners, a delay is pending exactly while red, a return exactly while early, and at most one non-negative attempt is kept |
| ReactionTest.RunPreservesInv | fe/fe-web/public/games/reaction-test/game.js:31-94 | the invariant holds after any event sequence whose clock never goes back |
| ReactionTest.StepKeepsAttempts | fe/fe-web/public/games/reaction-test/game.js:81-94 | no event removes or rewrites an attempt; the list grows only on a green click, by a non-negative time |
| ReactionTest.SessionAtMostOneAttempt | fe/fe-web/public/games/reaction-test/game.js:51-72 | a session from the start keeps at most one attempt, so the result screen never shows the average |
| ReactionTest.SecondStartIsEarly | fe/fe-web/public/games/reaction-test/game.js:51-72 | start, target at 3 s, a 250 ms reaction, reset, then a start at 6 s ends at "Too Early!" with three listeners |
| ReactionTest.IntendedStartIsReady | fe/fe-web/public/games/reaction-test/game.js:51-60 | with the intended handling every start turns the screen red with the delay armed |
| ReactionTest.IntendedStepPreservesInv | fe/fe-web/public/games/reaction-test/game.js:34-94 | with the intended handling every event keeps its invariant: timers match the screen and attempts are non-negative |
| ReactionTest.IntendedRunPreservesInv | fe/fe-web/public/games/reaction-test/game.js:34-94 | the intended invariant holds after any event sequence whose clock never goes back |
| ReactionTest.IntendedRoundRecords | fe/fe-web/public/games/reaction-test/game.js:81-86 | with the intended handling, a round from the start screen appends its reaction and returns to the start |
| ReactionTest.IntendedRoundsRecord | fe/fe-web/public/games/reaction-test/game.js:81-86 | with the intended handling, n rounds keep n attempts |
| ReactionTest.AverageBounds | fe/fe-web/public/games/reaction-test/game.js:96-100 | the average of no attempts is 0; otherwise it lies between any bounds on the attempts |
| ReactionTest.AverageExample | fe/fe-web/public/games/reaction-test/game.js:96-100 | attempts of 180, 220 and 310 ms average to 237 ms |
| ReactionTest.RatingByTier | fe/fe-web/public/games/reaction-test/game.js:102-108 | the rating cascade is the table entry at the number of cut-offs 200, 250, 300, 400 reached |
| ReactionTest.RatingMonotone | fe/fe-web/public/games/reaction-test/game.js:102-108 | a slower reaction never gets a better rating tier |

## Left out

- Drawing: `render`, `drawText`, `roundRect`, the drawing calls of `drawGraph`, and `wrapText`, which needs font metrics. Only the state render changes is modelled: the marker pruning, and the button boxes and bar heights that the hit-tests and chart share.
- Resize handling: canvas dimensions are parameters. A resize only redraws.
- Local storage encoding: stored bests enter as numbers. Neither `JSON.parse`/`JSON.stringify` nor the string-to-number coercion of `localStorage.getItem` is modelled.
- ClickTest.TickCountsDown: time left is exact integer hundredths. The source subtracts the float 0.01 each tick, so its accumulated error may need one tick more or fewer before `Math.max(0, …)` reaches 0.
- FixedClickTest.TickCountsDown: the same float-decrement simplification.
- ClickTest.TicksToFinish: counts ticks in exact hundredths, so 5, 10, 30 and 60 s runs take 500, 1000, 3000 and 6000 ticks. Repeated double subtraction of 0.01 from 5, 10, 30 and 60 reaches 0 after 501, 1001, 3000 and 6001 ticks, so the source's runs can last one tick longer. The fixed test's 10 s run is the same: 1001 ticks in the source, 1000 in the model.
- ClickTest.WriteBucket: writes at an index past the array, which JavaScript would use to grow it, are treated as no-ops. The invariant keeps the current second inside the array, so no reachable state writes there.
- TypingTest.RunningKey: `e.key.length === 1` counts UTF-16 code units. The model counts characters of a `seq<char>`.
- Floating point: rates, speeds, accuracy and reaction averages are exact reals. Rounding is modelled where a rounded value feeds a decision or a promise about what is shown: the multi-duration test's `toFixed(2)` rate that its finished screen rates, and the typing test's `Math.round` speed, which its finished screen rates and compares with the best, and its rounded accuracy percentage. The fixed test's one-decimal rate is proved exact (`FixedClickTest.CpsShownExactly`).
- The running-screen live rate of the multi-duration test is display only. It divides by the time elapsed, clamped to at least 0.1 s.
- Timer scheduling: intervals and timeouts fire only as events. Their periods (10 ms, 1 s, the random delay, the 2 s return) are not enforced against the clock. The reaction delay is recorded in the state and its range is proved.

## Findings

| source | as written | input that shows it | evidently intended | confidence | as-written member | corrected member |
|---|---|---|---|---|---|---|
| fe/fe-web/public/games/reaction-test/game.js:63-72 | `startWaiting` registers a new early-click listener on every start and never removes one. A click runs the listeners registered when it is dispatched, so on every start after the first an older listener runs right after `handleClick` has turned the screen red and turns it to "Too Early!". | Click to start, target shows, click (250 ms), click to reset, click to start again: the last click ends at "Too Early!", and no second attempt can ever be recorded. | A start always turns the screen red, and only a click on the red screen is early, so every round can record an attempt and the average is over several attempts. | high (not executed) | ReactionTest.SecondStartIsEarly | ReactionTest.IntendedRoundsRecord |
