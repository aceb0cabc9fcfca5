# SmartHabitTracker — a Dafny model of the habit and completion logic

SmartHabitTracker is an iOS app. The user defines habits, each tagged with a time-of-day slot
(Morning, Afternoon, Evening). Ticking a habit records a completion. From the completions the
app derives:

- a streak,
- a daily reset of the ticks,
- a month calendar with one dot per finished slot and a flame for a perfect day,
- a seven-day history chart.

This project models that logic in Dafny. It follows the Swift views that hold it:

- `HabitRow.toggleCompletion`
- the daily reset, section filter, reordering, deletion and fetch order of `HomeView`
- `CalendarView`'s grid, its per-day completions and `DayCell`'s dots and flame
- `NewHabitView.addHabit` and its Save validator
- `EditHabitView`'s form seeding and `saveChanges`
- `HistoryView.weekData`
- the `TimeOfDay` enum

Modules, one per Swift file plus two shared ones:

- `Wrappers`: `Option`.
- `TimeOfDay`: the enum, its raw values and `allCases`.
- `DayWindow`: calendar days.
  - A day is a fixed 86400-second window.
  - `StartOfDay(t)` is `t - t % 86400`.
  - "date >= start AND date < start + 1 day" is `InDay`.
- `Records`: the Core Data entities.
  - `HabitEntity` is the class `Habit`, whose fields the views update in place.
  - Its `managedObjectContext` is a nullable `Store`.
  - The context is the class `Store`, holding the habit records and the completion records in insertion order.
  - `CompletionEntity` is the value `Completion`; completions are created and deleted but never edited.
  - `Int16` attributes are the newtype `int16`.
  - This module also holds the fetch predicates used as filters over the store.
- `HabitRow`, `HomeView`, `CalendarView`, `NewHabitView`, `EditHabitView`, `HistoryView`: the views' logic.

Inputs the views read from their environment are parameters:

- clock readings (`Date()`, `.now`) become `now`
- `UUID()` becomes `newId`
- `@FetchRequest` results become a `seq<Habit>` or `seq<Completion>` snapshot
- the `@AppStorage` reset marker becomes `lastDailyReset`
- the outcome of `viewContext.save()` in the reset becomes `saveSucceeds`

Three behaviours of the code are kept as written:

- **The streak is never stored.** `toggleCompletion` (`HabitRow.swift:72-105`) computes `newStreak` in a local and never writes `habit.streak` or saves. See "## Findings".
- **Unknown tags fall back silently.** `EditHabitView.swift:16` seeds the editor with Morning (`?? .Morning`) for any tag that is not a case name. Nothing reports the unknown tag.
- **The toggle is not atomic.** `HabitRow.swift:42-105` flips the flag, inserts or deletes, and fetches again as separate in-memory steps, with no save between or after them.
  - Completions are keyed by slot, not by habit.
  - Every habit of a slot therefore shares the slot's completion history. The model keeps this.

## Model

| member | source | states |
|---|---|---|
| TimeOfDay.RawValue | SmartHabbitTracker/Models/TimeOfDay.swift:11-12 | every case has a non-empty raw value (its name) |
| TimeOfDay.FromRawValue | SmartHabbitTracker/Models/TimeOfDay.swift:11-12 | `TimeOfDay(rawValue:)` yields exactly the case whose raw value is the string, and nil when there is none |
| TimeOfDay.AllCasesEnumerates | SmartHabbitTracker/Models/TimeOfDay.swift:11-12 | `allCases` lists three distinct cases and contains every case |
| TimeOfDay.RawValueRoundTrip | SmartHabbitTracker/Models/TimeOfDay.swift:11-12 | parsing a case's raw value gives the case back |
| TimeOfDay.ValidTagIff | SmartHabbitTracker/Models/TimeOfDay.swift:11-12 | a tag names a slot iff it is "Morning", "Afternoon" or "Evening" |
| TimeOfDay.ThreeDistinctTags | SmartHabbitTracker/Views/HabitRow.swift:102-105 | a set of valid tags has three members iff every slot's tag is in it |
| TimeOfDay.AtMostTwoWithoutOne | SmartHabbitTracker/Views/HabitRow.swift:102-105 | a set of valid tags missing one slot has at most two members |
| DayWindow.StartOfDay | SmartHabbitTracker/Views/HabitRow.swift:49 | the day start is a day boundary at or before the instant and less than one day before it |
| DayWindow.DayStartUnique | SmartHabbitTracker/Views/HabitRow.swift:49 | only one day boundary is within a day before an instant |
| DayWindow.StartOfDayOfDayStart | SmartHabbitTracker/Views/HabitRow.swift:75 | the start of a day start is itself |
| DayWindow.AddDaysShiftsDayStart | SmartHabbitTracker/Views/HabitRow.swift:50 | `date(byAdding: .day, value: n)` keeps the time of day: the day start moves by exactly n days, and a positive n moves the instant forward |
| DayWindow.InDayIffDayStart | SmartHabbitTracker/Views/HabitRow.swift:53 | the window `date >= start AND date < start + 1 day` of a day boundary holds exactly the instants whose day start is that boundary |
| DayWindow.AddDaysKeepsDayStart | SmartHabbitTracker/Views/HabitRow.swift:72-76 | stepping a day start by whole days gives a day start |
| DayWindow.InDayIffSameDay | SmartHabbitTracker/Views/HabitRow.swift:49-57 | an instant lies in today's window `[todayStart, tomorrow)` iff it has today's day start |
| DayWindow.WindowBoundaries | SmartHabbitTracker/Views/HabitRow.swift:50-57 | the window includes its start and its last second, and excludes the next day's start |
| DayWindow.StartOfDayMonotone | SmartHabbitTracker/Views/HomeView.swift:135-137 | a later instant never has an earlier day start |
| DayWindow.NextDayIff | SmartHabbitTracker/Views/HomeView.swift:135-137 | one day start is before another iff the later instant is at or past the next midnight |
| Records.Store.InsertCompletion | SmartHabbitTracker/Views/HabitRow.swift:61-64 | the new completion is appended; nothing else changes |
| Records.Store.DeleteCompletions | SmartHabbitTracker/Views/HabitRow.swift:67-69 | exactly the completions matching the slot/day predicate are removed |
| Records.Store.DeleteHabit | SmartHabbitTracker/Views/HomeView.swift:158 | the habit record is removed from the store |
| Records.Habit.constructor | SmartHabbitTracker/Views/NewHabitView.swift:45 | `HabitEntity(context:)` is a record with default attributes, appended to its context |
| Records.SlotDay | SmartHabbitTracker/Views/HabitRow.swift:51-57 | the predicate's fetch keeps exactly the completions of the slot in the day window |
| Records.RemoveSlotDay | SmartHabbitTracker/Views/HabitRow.swift:65-69 | exactly the completions not matching the predicate remain |
| Records.OnDay | SmartHabbitTracker/Views/HabitRow.swift:94-101 | keeps exactly the completions in the day window, any slot |
| Records.InSlot | SmartHabbitTracker/Views/CalendarView.swift:161 | keeps exactly the completions with the slot tag |
| Records.SlotDayAppend | SmartHabbitTracker/Views/HabitRow.swift:59-64 | after an insert, the slot/day query gains the new record iff it matches |
| Records.RemoveSlotDayAppend | SmartHabbitTracker/Views/HabitRow.swift:59-70 | the delete on an extended store is the delete of the old store plus the new record if it does not match |
| Records.RemoveKeepsOtherSlots | SmartHabbitTracker/Views/HabitRow.swift:65-70 | deleting a slot's day leaves every other slot's query on every day unchanged |
| Records.TwoStepQuery | SmartHabbitTracker/Views/CalendarView.swift:160-163 | filtering by slot then by day equals the single slot-and-day predicate |
| Records.OnDayThenSlotDay | SmartHabbitTracker/Views/CalendarView.swift:102-107 | the slot/day query over a day's completions equals the query over the whole store |
| Records.OnDayKeepsDateOrder | SmartHabbitTracker/Views/CalendarView.swift:7-10 | filtering a date-sorted fetch keeps it date-sorted |
| Records.Without | SmartHabbitTracker/Views/HomeView.swift:157-159 | keeps exactly the habits not deleted |
| Records.WithoutNone | SmartHabbitTracker/Views/HomeView.swift:157-159 | deleting nothing keeps the list |
| Records.WithoutTwice | SmartHabbitTracker/Views/HomeView.swift:157-159 | deleting one set after another equals deleting their union |
| HabitRow.TrailingRun | SmartHabbitTracker/Views/HabitRow.swift:72-92 | the scan counts at most the number of days it visits |
| HabitRow.TrailingRunIsLongestRun | SmartHabbitTracker/Views/HabitRow.swift:72-92 | every counted day has a completion in the slot, and the scan stops at the first day without one |
| HabitRow.TrailingRunCongruent | SmartHabbitTracker/Views/HabitRow.swift:77-86 | the scan depends only on the slot/day query counts |
| HabitRow.TrailingRunStep | SmartHabbitTracker/Views/HabitRow.swift:74-91 | one scan step: a day without a completion ends the run, otherwise it counts one and moves one day back |
| HabitRow.DistinctSlots | SmartHabbitTracker/Views/HabitRow.swift:94-102 | the set of tags of the day's completions has no more members than there are completions, and is empty exactly when the day has none |
| HabitRow.PerfectDayBonus | SmartHabbitTracker/Views/HabitRow.swift:102-104 | the bonus is 0 or 1, and 1 needs at least three completions that day |
| HabitRow.ComputedStreak | SmartHabbitTracker/Views/HabitRow.swift:72-105 | the streak is at most seven days plus the bonus |
| HabitRow.StreakScan | SmartHabbitTracker/Views/HabitRow.swift:72-92 | the loop with `break` computes the trailing run over today and the six days before |
| HabitRow.ToggleCompletion | SmartHabbitTracker/Views/HabitRow.swift:42-105 | no context: nothing changes; else the flag flips, on inserts one completion, off deletes today's slot completions, and the computed streak is returned; streak, order and last date are not written |
| HabitRow.ToggleOnStreakPositive | SmartHabbitTracker/Views/HabitRow.swift:59-92 | after a toggle on, the computed streak is at least one |
| HabitRow.ToggleOffStreakZero | SmartHabbitTracker/Views/HabitRow.swift:65-105 | after a toggle off with valid tags, the computed streak is zero, the bonus included |
| HabitRow.PerfectDayIffAllSlots | SmartHabbitTracker/Views/HabitRow.swift:94-105 | with valid tags, the bonus is earned iff each slot has a completion that day |
| HabitRow.ToggleOnThenOff | SmartHabbitTracker/Views/HabitRow.swift:59-70 | on then off the same day leaves the original store minus its completions of that slot and day: the new record is gone and nothing else changes |
| HabitRow.ToggleLeavesOtherSlots | SmartHabbitTracker/Views/HabitRow.swift:51-57 | toggling one slot never changes another slot's trailing run |
| HabitRow.BadgeStaysHidden | SmartHabbitTracker/Views/HabitRow.swift:25-32 | as written: a new habit toggled on has computed streak at least one but stored streak zero |
| HabitRow.ToggleAndStoreStreak | SmartHabbitTracker/Views/HabitRow.swift:25-32 | corrected: the stored streak equals the computed one, positive after on, zero after off with valid tags |
| HomeView.ResetDue | SmartHabbitTracker/Views/HomeView.swift:135-137 | a reset is only ever due strictly after the marker, and always due once a full day has passed since it |
| HomeView.ResetCompletionsIfNeeded | SmartHabbitTracker/Views/HomeView.swift:134-149 | not due: nothing changes; due: every flag cleared, and the marker moves to now only when the save succeeds; no other field changes |
| HomeView.ResetDueIff | SmartHabbitTracker/Views/HomeView.swift:135-137 | the reset is due iff now is at or past the midnight after the marker |
| HomeView.ResetTwiceSameDay | SmartHabbitTracker/Views/HomeView.swift:134-149 | a second reset later the same day, after a successful first one, changes nothing: after both calls the marker is the first call's (now if due, else unchanged), the flags are all clear if the first was due and as before otherwise, and no other field changes |
| HomeView.HabitsFor | SmartHabbitTracker/Views/HomeView.swift:151-153 | the section holds exactly the habits with the tag, each as many times as in the fetch and every other habit not at all |
| HomeView.HabitsForAppend | SmartHabbitTracker/Views/HomeView.swift:151-153 | the section of a concatenation is the concatenation of the sections, so the section keeps the fetch order |
| HomeView.SectionInOrder | SmartHabbitTracker/Views/HomeView.swift:7-13 | in a fetch sorted by tag then order, each section is sorted by order |
| HomeView.SectionsCoverAll | SmartHabbitTracker/Views/HomeView.swift:151-153 | with valid tags, the three sections together hold every habit |
| HomeView.HabitsForDistinct | SmartHabbitTracker/Views/HomeView.swift:151-153 | a section of a list without repeats has no repeats |
| HomeView.Move | SmartHabbitTracker/Views/HomeView.swift:165 | `move(fromOffsets:toOffset:)` with no offsets leaves the section as it is |
| HomeView.PickNone | SmartHabbitTracker/Views/HomeView.swift:165 | with no offsets selected, nothing is picked and everything is kept |
| HomeView.PickSplit | SmartHabbitTracker/Views/HomeView.swift:165 | picking from two joined pieces picks from each piece, offsets continuing |
| HomeView.PickPartition | SmartHabbitTracker/Views/HomeView.swift:165 | the picked and the unpicked elements together are the whole collection |
| HomeView.MoveIsPermutation | SmartHabbitTracker/Views/HomeView.swift:165 | `move(fromOffsets:toOffset:)` is a permutation of the section |
| HomeView.MovedSection | SmartHabbitTracker/Views/HomeView.swift:164-165 | moving a section without repeats gives a permutation of it, of the same length and without repeats |
| HomeView.MoveHabits | SmartHabbitTracker/Views/HomeView.swift:163-171 | the result is `Move` of the fetched section (a permutation, by `MoveIsPermutation`) and its habits get orders 0, 1, ... in that order; the other habits' orders and every other field are unchanged |
| HomeView.Renumber | SmartHabbitTracker/Views/HomeView.swift:167-169 | each habit's order is its index; nothing else changes |
| HomeView.DeleteHabits | SmartHabbitTracker/Views/HomeView.swift:155-161 | the store loses exactly the section habits at the offsets |
| CalendarView.RoundUpToWeek | SmartHabbitTracker/Views/CalendarView.swift:98 | the padding target is the least multiple of seven at or above the count |
| CalendarView.MakeDays | SmartHabbitTracker/Views/CalendarView.swift:81-100 | empty grid on lookup failure; else leading blanks, the month's days in order, and trailing blanks to a multiple of seven |
| CalendarView.GridHasMonthDays | SmartHabbitTracker/Views/CalendarView.swift:81-100 | a grid has exactly one non-empty cell per day of the month |
| CalendarView.GridDatesIncrease | SmartHabbitTracker/Views/CalendarView.swift:92-96 | the grid's dates increase from cell to cell |
| CalendarView.CompletionsFor | SmartHabbitTracker/Views/CalendarView.swift:102-107 | no date: none; else exactly the completions on the cell's calendar day |
| CalendarView.CompletionsForInOrder | SmartHabbitTracker/Views/CalendarView.swift:7-10 | a cell's completions keep the fetch's date order |
| CalendarView.IsSlotComplete | SmartHabbitTracker/Views/CalendarView.swift:151-166 | no dot for a slot without habits; with habits, the dot shows iff the slot's completions that day (the same query as the streak's) number at least its habits |
| CalendarView.DotNeedsHabitAndCompletion | SmartHabbitTracker/Views/CalendarView.swift:151-166 | a dot implies a habit tagged with the slot and a completion of the slot on that calendar day |
| CalendarView.AllComplete | SmartHabbitTracker/Views/CalendarView.swift:138 | `allSatisfy` holds iff every listed slot is complete |
| CalendarView.FlameShown | SmartHabbitTracker/Views/CalendarView.swift:137-143 | the flame shows iff Morning, Afternoon and Evening are all complete |
| CalendarView.CellSeesItsDay | SmartHabbitTracker/Views/CalendarView.swift:59-63 | a cell given only its day's completions decides as it would from the whole store |
| CalendarView.MoreCompletionsKeepDot | SmartHabbitTracker/Views/CalendarView.swift:151-166 | a new completion never removes a dot |
| NewHabitView.IsWhitespace | SmartHabbitTracker/Views/NewHabitView.swift:39 | space and tab are in `.whitespaces`; no line break (U+000A to U+000D, U+0085, U+2028, U+2029) is |
| NewHabitView.TrimLeading | SmartHabbitTracker/Views/NewHabitView.swift:39 | removes a whitespace-only prefix and leaves a non-whitespace first character |
| NewHabitView.TrimTrailing | SmartHabbitTracker/Views/NewHabitView.swift:39 | removes a whitespace-only suffix and leaves a non-whitespace last character |
| NewHabitView.Trimmed | SmartHabbitTracker/Views/NewHabitView.swift:39 | a non-empty trimmed name starts and ends with non-whitespace |
| NewHabitView.TrimmedIdempotent | SmartHabbitTracker/Views/NewHabitView.swift:39 | trimming twice equals trimming once |
| NewHabitView.TrimmedEmptyIff | SmartHabbitTracker/Views/NewHabitView.swift:39 | the trimmed name is empty iff every character is whitespace |
| NewHabitView.SaveEnabled | SmartHabbitTracker/Views/NewHabitView.swift:39 | Save is enabled iff the name has a non-whitespace character |
| NewHabitView.SectionOrders | SmartHabbitTracker/Views/NewHabitView.swift:54-55 | the orders are exactly those of the fetched habits with the tag |
| NewHabitView.MaxOrder | SmartHabbitTracker/Views/NewHabitView.swift:55 | the largest order, belonging to some habit, or -1 for none |
| NewHabitView.NextOrder | SmartHabbitTracker/Views/NewHabitView.swift:56 | the new order exceeds every section order by at least one and one existing order by exactly one; 0 for an empty section |
| NewHabitView.AddHabit | SmartHabbitTracker/Views/NewHabitView.swift:44-59 | one fresh record is appended with the name, the slot's tag, unticked, streak 0, no date, order `NextOrder`; no existing record changes |
| EditHabitView.SeedSelection | SmartHabbitTracker/Views/EditHabitView.swift:16 | a valid tag seeds its own slot; any other tag seeds Morning |
| EditHabitView.Init | SmartHabbitTracker/Views/EditHabitView.swift:12-17 | the form starts from the habit's name and its seeded slot |
| EditHabitView.SaveChanges | SmartHabbitTracker/Views/EditHabitView.swift:48-53 | name and tag are written, the tag is always valid; nothing else changes |
| EditHabitView.SeedKeepsTagIff | SmartHabbitTracker/Views/EditHabitView.swift:16 | opening and saving keeps the tag iff the tag is valid |
| EditHabitView.EditUnchanged | SmartHabbitTracker/Views/EditHabitView.swift:12-53 | opening and saving unchanged keeps the name, keeps a valid tag, and turns an invalid one into "Morning" |
| HistoryView.Reverse | SmartHabbitTracker/Views/HistoryView.swift:68-70 | `reversed()` puts element i at the mirrored index |
| HistoryView.WeekDays | SmartHabbitTracker/Views/HistoryView.swift:67-70 | seven day starts, oldest first, ending today |
| HistoryView.CountBetween | SmartHabbitTracker/Views/HistoryView.swift:75 | a window's count is at most the number of completions |
| HistoryView.OnDayCount | SmartHabbitTracker/Views/HistoryView.swift:73-75 | the day filter's size is the count of completions in `[start, end)` |
| HistoryView.CountBetweenEmpty | SmartHabbitTracker/Views/HistoryView.swift:75 | an empty window counts nothing |
| HistoryView.CountBetweenSplit | SmartHabbitTracker/Views/HistoryView.swift:73-75 | adjacent windows' counts add up |
| HistoryView.WeekData | SmartHabbitTracker/Views/HistoryView.swift:66-78 | seven bars on consecutive day starts ending today; each counts its day window; percent is count / 3 |
| HistoryView.TotalOfConsecutiveDays | SmartHabbitTracker/Views/HistoryView.swift:72-77 | bars on consecutive days together count the union window |
| HistoryView.WeekTotal | SmartHabbitTracker/Views/HistoryView.swift:66-78 | the bars together count exactly the completions of the last seven days, so no more than the store holds |
| HistoryView.AllOnDay | SmartHabbitTracker/Views/HistoryView.swift:75 | the day filter keeps a list whose completions all fall in that day |
| HistoryView.PercentCanExceedOne | SmartHabbitTracker/Views/HistoryView.swift:76-83 | as written, `percent` is the day's count over three with no cap, so four completions today give a bar above 1.0; the field's comment at line 83 gives 0.0 … 1.0 |

## Findings

| source | as written | input that shows it | evidently intended | confidence | as-written member | corrected member |
|---|---|---|---|---|---|---|
| SmartHabbitTracker/Views/HabitRow.swift:72-105 | `newStreak` is computed and dropped; `habit.streak` is only ever set to 0 (`NewHabitView.swift:50`) | a new habit with a context, toggled on: computed streak >= 1, stored streak 0, so the badge in lines 25-32 never shows | `habit.streak = Int16(newStreak)` after the bonus | not executed; high, since the badge reads a field nothing updates | HabitRow.BadgeStaysHidden | HabitRow.ToggleAndStoreStreak |

## Left out

- SwiftUI bodies, layout, animation, navigation, dismissal, `changeMonth`, `monthYear`, `color(for:)` and the chart's axes: presentation only.
- `ProgressSummaryView` and the app bootstrap: not part of this model.
- Core Data saving: `try? viewContext.save()` is not modelled.
  - Every change is in memory, and a failed save has no effect on it.
  - The daily reset is the exception: its marker depends on `saveSucceeds`.
- The completion fetches (`try? ctx.fetch`, `try! ctx.count`) are taken to succeed. A failing `try!` would trap; that is not modelled.
- `Calendar.current`, time zones and daylight saving: a day is a fixed 86400-second window on a single clock.
- CalendarView.MakeDays: `cal.date(byAdding:)` is taken to succeed for every day of the month; the `if let` that would skip a day is not modelled.
- HistoryView.WeekData: `percent` is a `real`. The rounding of `Double(count) / 3.0` is not modelled.
- The sort of the `@FetchRequest`: only the order it produces is modelled (`HomeView.FetchSorted`), not the sort algorithm or its tie-breaking.
- NewHabitView.AddHabit: `allHabits` is the fetch result from before the insert. A refresh of `FetchedResults` in the middle of the action is not modelled.
- `IndexSet` offsets are a `set<nat>`. HomeView.DeleteHabits deletes them one at a time; the order of deletion does not affect the result.
- HomeView.DeleteHabits: a deleted habit's `managedObjectContext` is not cleared.
- Int16 overflow traps are preconditions, not modelled traps:
  - HomeView.MoveHabits: the section has at most 32768 habits.
  - NewHabitView.AddHabit: no section order is already 32767.
- HabitRow.ToggleOffStreakZero: stated only for valid tags. With an unrecognised tag the three distinct tags of the bonus can come from other strings, and the streak can be 1.
- The identity of a `CompletionEntity` beyond its attributes: completions are values, so two with equal attributes are not told apart.
- Concurrency between a toggle and the reset: the model is sequential.
- HomeView.ResetCompletionsIfNeeded: the reset reads the clock twice, for the guard (`HomeView.swift:135`) and for the new marker (`HomeView.swift:145`). The model uses one reading, `now`, for both, so a reset running across midnight is not modelled.
