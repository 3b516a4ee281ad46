# Fitness tracker progress engine, in Dafny

A model of the progress-tracking logic of a static fitness-tracking page
(`js/app.js`). The page keeps checkbox and completion flags in the
browser's local storage as JSON text. From those flags it computes:

- the overall share of the five workout types marked complete;
- the per-workout share of checked exercises;
- a day streak found by walking back from today over daily flags.

It also marks a workout complete, picks today's entry from the weekly
schedule, and chooses the badge and weight labels of an exercise card.

Modules, one per concern of `js/app.js`:

- `Storage` (`storage.dfy`): parsed JSON values, the `loadProgress` rule
  (`JSON.parse(...) || false`), and the class `LocalStore` holding the
  key-value map that `saveProgress` updates in place.
- `Keys` (`keys.dfy`): the five `<type>-complete` keys and the daily key
  `"workout-" + date`.
- `Percent` (`percent.dfy`): `Math.round((completed / total) * 100)`,
  guarded for `total == 0`, as exact half-up rounding.
- `Streak` (`streak.dfy`): what the streak means, stated on the 30-day
  window of daily flags, and the lemmas about `calculateStreak`'s loop state.
- `Progress` (`progress.dfy`): overall and per-workout progress, the
  streak loop, marking a workout complete, and the streak scenarios.
- `Schedule` (`schedule.dfy`): `workoutSchedule`, `getTodayWorkout` and
  `startWorkout`.
- `Exercise` (`exercise.dfy`): badge selection and weight labels of
  `generateExerciseHTML`.

Injected inputs. "Today" is a day number passed to the streak and marking
operations. The weekday is passed to the schedule lookup. The checkbox
states of a workout page are passed to the per-workout percentage.

A malformed stored value does not load as `false`: `JSON.parse` throws
and nothing catches it (js/app.js:10). So `Load` returns
`Err(SyntaxError)`, and `CountSet`, `OverallProgress`, `CalculateStreak`
and `UpdateProgress` pass the error on. `CalculateStreak` raises only when
a day it actually reads is malformed; days after the scan stops are never
read. `UpdateProgress` counts first, so a malformed completion key ends
the refresh before the streak is computed.

Marking today complete can shorten the streak. An unmarked today and
yesterday are passed over before the first marked day. Once today is
marked, yesterday becomes a gap that ends the scan
(`Progress.MarkingTodayCanShortenStreak`). This skipping of an unmarked
today is kept as the code has it.

## Model

| member | source | states |
|---|---|---|
| `Storage.Load` | js/app.js:9-11 | a key never written loads `false`; malformed text raises; otherwise the result is truthy (`Truthy`, JavaScript truthiness) exactly when the stored value is, a truthy value comes back unchanged and a falsy one as `false` |
| `Storage.IsSetIffStoredTruthy` | js/app.js:10 | `IsSet` (the truthiness test of `filter` and `if` on `loadProgress`) holds exactly when the key holds well-formed JSON text whose value is truthy (`Truthy`) |
| `Storage.LoadNeverWritten` | js/app.js:9-11 | a missing key loads `false`, is not set and does not raise |
| `Storage.Saved` | js/app.js:5-7 | after writing boolean `b` under `k`, `k` loads `b` and every other key loads as before |
| `Storage.SaveLoadRoundTrip` | js/app.js:5-11 | save then load gives back the saved boolean; the key is set exactly when it is `true` |
| `Storage.LocalStore.Save` | js/app.js:5-7 | the store's map gains `k := "true"/"false"` and nothing else; other keys load as before |
| `Keys.CompleteKey` | js/app.js:202 | the completion key is the workout type followed by `-complete` |
| `Keys.CompleteKeyInjective` | js/app.js:202 | different workout types have different completion keys |
| `Keys.DayKeyShape` | js/app.js:203 | the daily key is `workout-` followed by a non-empty date stamp ending in a digit |
| `Keys.DayKeyInjective` | js/app.js:184 | different days have different daily keys |
| `Keys.DayKeyIsNoCompleteKey` | js/app.js:202-204 | no daily key equals any `<type>-complete` key, so the two writes of markWorkoutComplete never collide |
| `Keys.AllWorkoutsDistinct` | js/app.js:136-142 | `AllWorkouts` holds five different keys, so each workout type is counted once |
| `Keys.AllWorkoutsAreCompleteKeys` | js/app.js:136-142 | the five counted keys are the completion keys of the five workout types |
| `Percent.Percent` | js/app.js:146 | the percentage is 0 for a total of 0 and for nothing completed, and at most 100 while `completed <= total` |
| `Percent.RoundHalfUpBounds` | js/app.js:146 | the half-up rounding of `100*completed/total` is 0 for nothing completed and at most 100 for at most everything |
| `Percent.PercentIsNearest` | js/app.js:146 | for `total > 0` the percentage is the integer nearest to `100*completed/total`, halves rounding up |
| `Percent.PercentOfNothing` | js/app.js:146 | a total of 0 gives 0%, never a division by zero |
| `Percent.PercentRange` | js/app.js:146 | with `completed <= total` the percentage is in [0,100]; 100 exactly when completed/total >= 99.5%, 0 exactly when below 0.5% |
| `Percent.PercentMonotonic` | js/app.js:237 | for a fixed total the percentage never decreases as `completed` grows |
| `Percent.PercentOfFive` | js/app.js:145-146 | out of five, the percentage is exactly `20 * completed` |
| `Progress.CountTrue` | js/app.js:235 | the count equals the number of `true` entries (their multiplicity in the multiset of entries); it is at most the number of entries, 0 exactly when none is checked, all exactly when all are |
| `Progress.CountSet` | js/app.js:144 | `filter(loadProgress).length` raises exactly when some key is malformed, and otherwise counts the keys that load truthy |
| `Progress.OverallProgress` | js/app.js:136-146 | raises exactly when one of the five keys is malformed; otherwise `completed` counts the five keys that load truthy, `total == 5`, `completed <= 5`, `percent == 20 * completed <= 100` |
| `Progress.WorkoutProgress` | js/app.js:235-237 | the per-workout percentage is in [0,100]; 0 with no boxes or none checked; 100 with all checked |
| `Progress.CheckingNeverLowers` | js/app.js:235-237 | checking one more box never lowers the per-workout percentage |
| `Progress.CalculateStreak` | js/app.js:177-194 | raises exactly when a day the scan reads is malformed; otherwise returns the streak of the 30-day window, at most 30 |
| `Progress.UpdateProgress` | js/app.js:134-170 | the refresh raises exactly when one of the five completion keys is malformed, or else when a day the streak scan reads is malformed; otherwise it yields the overall progress and the streak of the 30-day window |
| `Progress.AfterMark` | js/app.js:200-206 | after marking, the workout's completion key and today's daily key are set, no other key is added, and every other entry is unchanged |
| `Progress.MarkWorkoutComplete` | js/app.js:200-208 | both writes happen, so the store becomes `AfterMark` of the old store; the refresh raises exactly as `UpdateProgress` does on the new store; when it does not, it yields the overall progress and the 30-day streak of the new store, the streak is at least 1 and a tracked workout counts as completed |
| `Progress.MarkStartsStreak` | js/app.js:183-188 | after marking, today is flagged and the streak is at least 1 |
| `Progress.MarkCountsWorkout` | js/app.js:144 | after marking one of the five tracked types, the overall count is at least 1 |
| `Progress.AfterMarkWindow` | js/app.js:184 | marking flags today in the window and changes no other day |
| `Progress.StreakOfThreeDays` | js/app.js:183-191 | today, yesterday and the day before marked: streak 3 |
| `Progress.StreakSkipsUnmarkedToday` | js/app.js:185-188 | yesterday and the day before marked, today not: streak 2 |
| `Progress.StreakStopsAtGap` | js/app.js:187-188 | today and the day before yesterday marked, yesterday not: streak 1 |
| `Progress.StreakOfEmptyWindow` | js/app.js:183-191 | no day of the window flagged: streak 0, and all 30 days are read |
| `Progress.MarkingTodayCanShortenStreak` | js/app.js:183-188 | with only days 2 and 3 back marked the streak is 2; after marking today it is 1 |
| `Streak.Run` | js/app.js:185-188 | the run length counts the unbroken flagged days at the front and stops at the first unflagged one |
| `Streak.StreakZeroIff` | js/app.js:183-193 | the streak is 0 exactly when none of the window's days is flagged |
| `Streak.StreakFromFirstHit` | js/app.js:183-191 | if the first flagged day is `j` days back, the streak is the unbroken run of flagged days from there, cut at the window's end |
| `Streak.StreakOfShape` | js/app.js:183-191 | a window of unflagged days, then `n` flagged days, then an unflagged day or the window's end, has streak `n` |
| `Streak.UnflaggedTodayIsSkipped` | js/app.js:185-188 | an unflagged today does not break a streak that starts yesterday |
| `Streak.EndedIffPastRun` | js/app.js:187-188 | the scan has stopped before day `k` exactly when `k` lies past the day after the streak's run |
| `Streak.ScanStep` | js/app.js:185-187 | one loop step keeps the loop state: a flagged day extends the count, an unflagged day before any flagged one is passed over |
| `Streak.ScanNotEnded` | js/app.js:183-188 | while the loop runs, no gap has followed a flagged day |
| `Streak.ScanGap` | js/app.js:187-188 | the break leaves the count equal to the streak, and no later day is read |
| `Streak.ScanDone` | js/app.js:183-193 | reading all 30 days without a break leaves the count equal to the streak |
| `Schedule.ScheduleCoversWeek` | js/app.js:17-60 | `WorkoutSchedule` has entries exactly for weekdays 0..6; only Sunday and Saturday have page `"#"`; Monday to Friday have five different pages |
| `Schedule.TodayWorkout` | js/app.js:62-65 | weekdays 0..6 give their schedule entry; any other number gives Monday's |
| `Schedule.StartWorkout` | js/app.js:77-82 | there is somewhere to go exactly when today's workout has a page other than `"#"`, and it is that page |
| `Schedule.StartWorkoutOnTrainingDays` | js/app.js:77-82 | navigation happens on every day but Saturday and Sunday, never to `"#"` |
| `Schedule.TrainingDaysAreTracked` | js/app.js:17-51 | Monday to Friday open the page of the workout type whose completion key is counted, in the same order |
| `Exercise.BadgeOf` | js/app.js:713-731 | the badge is sets x reps when both are non-empty, else the duration when non-empty, else none; a shown badge is never empty |
| `Exercise.CapitalizeChangesOnlyFirstCase` | js/app.js:720 | `Capitalize` gives a weight label that keeps the key's length and all but the first character, whose case alone may change |
| `Exercise.CapitalizeIdempotent` | js/app.js:720 | `Capitalize` applied to a label again changes nothing |
| `Exercise.WeightSpecsOf` | js/app.js:716-728 | no weight block without weights; otherwise one option per entry, in order, labelled with the capitalized key |
| `Exercise.CatalogExamples` | js/app.js:267-291 | the warm-up shows its duration; the squat shows `3×10–12` (multiplication sign, en dash) and labels Dumbbell and Barbell |

## Left out

- Page wiring: the `DOMContentLoaded` handlers, element lookups, class
  toggles and text updates. They only move values between the model and the page.
- Progress.UpdateProgress: always computes the streak. In the code
  `calculateStreak` runs only when the page has a streak element
  (js/app.js:168-170), so on a page without one a malformed daily key does
  not raise.
- Progress-ring geometry: stroke offsets computed in floating point for CSS.
- `formatDate`, and the navigation `window.location.href = page`.
  `StartWorkout` returns the target page instead of navigating.
- Real calendar dates. A day is an integer; `Keys.DayStamp` writes its
  number in signed decimal, standing in for `toISOString().split('T')[0]`.
  It keeps what the tracker relies on: one stamp per day, distinct days get
  distinct stamps, and it ends in a digit. The mixing of UTC (`toISOString`)
  with local `setDate` is not modelled.
- Percent.Percent: `Math.round` on a floating-point quotient is modelled as exact
  half-up rounding. A quotient that floating point puts just below an exact
  `.5` is not modelled.
- Storage.LocalStore.Save: a full or disabled store makes `setItem` throw; the
  model's writes always succeed.
- Exercise.UpperCase: `toUpperCase` is modelled for ASCII letters only.
  Full Unicode case mapping is not modelled, including mappings that change
  the length ("ß" to "SS").
- Exercise.WeightSpecsOf: the weights object is given as its entries in
  `Object.entries` order. The rule that integer-like keys come first is not modelled.
- The HTML text of the exercise card and its checkbox wiring. The model
  keeps the choices that depend on data: the badge and the weight options.
- The embedded workout catalog, except two records used as examples.
- The global exports at the end of the file. One of them names a
  `loadWorkoutData` that the file never defines.
