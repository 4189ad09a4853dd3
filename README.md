# Bead counter — a Dafny model

A Dafny model of the logic of a prayer-bead tally app for iOS. The user
scrolls a ring of 11 beads; every single step forward counts one
recitation. A finished session is stored as a record with its date, start
time, duration, count and the practitioner's name. Stored records are
listed by day, edited, and summed per day in a monthly bar chart.

The model has these parts:

- `counting.dfy` (module `Counting`) models the counting screen. `LoopedBeads`
  lays out three copies of the ring on the scroll surface. `AdjustIndex` folds a
  slot back into the middle copy. `CircularDistance` gives the distance round the
  ring. The class `BeadCounter` holds the screen's state fields. Its change
  handler `HandleSelectionChange` updates the `beadCounts` array in place and
  reassigns `numCount`, `previousIndex` and `selectedIndex`. The handler is
  proved against the function `Step` on `CounterState` values. The invariant,
  the acceptance rule and whole runs of events are proved about `Step`.
- `records.dfy` (module `Records`) holds the stored record as a datatype, the day
  arithmetic, and the one date-window filter that the list and the chart both
  apply.
- `content.dfy` (module `Content`) gives the records of the selected day.
- `monthly_chart.dfy` (module `MonthlyChart`) is the per-day aggregation. The
  method `MonthlyData` builds a per-day table in a loop, as the source does. It
  is proved against the function `DailyTotals`.
- `int_text.dfy` (module `IntText`) models the decimal text of a count
  (`String(n)`) and the failable parse `Int(text)`.
- `edit_record.dfy` (module `EditRecord`) is the record editor: count
  validation, the field update, and the hours/minutes/seconds split of a
  duration.
- `arith.dfy` and `wrappers.dfy` hold division facts and `Option`.

Instants are whole seconds on the local clock. A day is 86400 seconds long.
Day number `d` covers `[d * 86400, (d + 1) * 86400)`. A month is given by
the day number of its first day and its number of days.

From a fresh session, settling on slots 10, 9 and 8 counts 3 recitations.
Slot 10 folds to position 21, and from the starting position 11 that is the
wrap-around case (difference 10); see `Counting.ThreeForwardSlotsCountThree`.

## Model

| member | source | states |
|---|---|---|
| `Counting.LoopedBeads` | ios_app/CountingView.swift:31-32 | The surface has `3 * 11` slots, and slot `i` shows bead `i % 11`. |
| `Counting.CircularDistance` | ios_app/CountingView.swift:41-44 | The distance lies in `[0, total / 2]`. It is 0 exactly when the two positions are congruent modulo `total`. |
| `Counting.CircularDistanceSymmetric` | ios_app/CountingView.swift:41-44 | The distance is symmetric in `from` and `to`. |
| `Counting.CircularDistanceIsShortestWay` | ios_app/CountingView.swift:41-44 | Walking the distance forward or backward from `from` lands on `to`'s bead. No shorter walk in either direction does. |
| `Counting.AdjustIndex` | ios_app/CountingView.swift:131-139 | The result is congruent to the input modulo 11. Every slot in `[0, 33)` maps into the middle band `[11, 22)`. The map is the identity on that band. |
| `Counting.InitialState` | ios_app/CountingView.swift:33-36 | A fresh session satisfies the counter invariant with count 0. |
| `Counting.Step` | ios_app/CountingView.swift:141-168 | An event raises the count by 0 or 1. The tally sum moves by the same amount. After a non-nil event the selected position equals the committed one. |
| `Counting.StepPreservesInvariant` | ios_app/CountingView.swift:162-165 | Every event keeps four things: `previousIndex` in `[11, 22)`, 11 non-negative tallies, `Sum(beadCounts) == numCount`, and a count that never decreases. |
| `Counting.StepAcceptsPreviousBead` | ios_app/CountingView.swift:144-147 | The test "difference is -1 or 10" is the same as `(previousIndex - corrected) % 11 == 1`. A step counts exactly when the settled slot shows the bead just before the committed one on the ring. |
| `Counting.StepTalliesSettledBead` | ios_app/CountingView.swift:148-162 | An accepted step raises only the tally of the bead under the settled slot, and that bead is in `[0, 11)`. A rejected step leaves all tallies unchanged. |
| `Counting.StepIsSettled` | ios_app/CountingView.swift:165-167 | After an event the handler writes a slot. Feeding that slot back as the next event changes nothing. |
| `Counting.Run` | ios_app/CountingView.swift:118-120 | After `N` events the count has risen by at least 0 and at most `N`. |
| `Counting.RunCountsForwardSteps` | ios_app/CountingView.swift:141-168 | After `N` events the count has risen by exactly `N` if and only if every event was a single forward step. |
| `Counting.RunPreservesInvariant` | ios_app/CountingView.swift:141-168 | The counter invariant holds after any sequence of events. |
| `Counting.ThreeForwardSlotsCountThree` | ios_app/CountingView.swift:131-168 | From a fresh session, slots 10, 9, 8 count three recitations. |
| `Counting.BeadCounter.constructor` | ios_app/CountingView.swift:25-39 | The looped beads are laid out and all 11 tallies are 0. Position 11 is selected and committed, the count is 0, and the start time and name are stored. |
| `Counting.BeadCounter.HandleSelectionChange` | ios_app/CountingView.swift:141-169 | A nil event changes nothing. An accepted step adds one to the count and one to the tally of the settled slot's bead, and commits and selects the corrected slot. Any other event snaps the selection back to `previousIndex` and leaves the count, the committed position and the tallies unchanged. The invariant is kept. |
| `Counting.BeadCounter.Finalize` | ios_app/CountingView.swift:59-61 | The session result is the count, the stored start time, the elapsed time `now - startTime` and the session name. Its count equals the sum of the tallies and is not negative. |
| `Records.StartOfDay` | ios_app/MonthlyChartView.swift:50 | The start of day is at most `t`, and `t` is less than one day after it. It is the first instant of `t`'s day number. |
| `Records.DayWindow` | ios_app/ContentView.swift:112-114 | An instant lies in a window of whole days exactly when its day number does. |
| `Records.RecordsBetweenKeepsWindow` | ios_app/ContentView.swift:114 | Every kept record is dated in `[lo, hi)`. Each record in the window is kept as many times as it occurs. The result is a subsequence of the input. |
| `Records.RecordsBetweenAppend` | ios_app/MonthlyChartView.swift:45 | Filtering a concatenation is the concatenation of the filtered parts. |
| `Content.RecordsForSelectedDate` | ios_app/ContentView.swift:110-115 | Every listed record lies in `[startOfDay, startOfDay + 1 day)`. A record is listed if and only if it is stored and lies in that window, with its multiplicity kept. The list is a subsequence of all records. |
| `Content.ListedIffSameDay` | ios_app/ContentView.swift:111-114 | A record is listed exactly when it is stored and its day number is the selected date's. |
| `MonthlyChart.MonthlyData` | ios_app/MonthlyChartView.swift:38-62 | There is one entry per day of the month, in ascending day order. Each total is the sum of counts of the month's records on that day, and 0 where there are none. The method only reads `allRecords`, which is a value here. |
| `MonthlyChart.MonthlyTotalsAddUp` | ios_app/MonthlyChartView.swift:45-61 | The daily totals add up to the total count of the month's records. |
| `MonthlyChart.OutOfMonthRecordIgnored` | ios_app/MonthlyChartView.swift:44-45 | A record dated before the month's start, or at or after the next month's start, changes no entry wherever it is stored. |
| `MonthlyChart.EmptyDayIsZero` | ios_app/MonthlyChartView.swift:57 | A day of the month with no record gets a total of 0. |
| `IntText.Digits` | ios_app/EditRecordView.swift:14 | The digits are non-empty and all decimal, with no leading zero. Read back, they give `n`. |
| `IntText.ShowInt` | ios_app/EditRecordView.swift:14 | The text is non-empty. For a negative value it is a minus sign followed by digits. Otherwise it is only digits. |
| `IntText.ParseInt` | ios_app/EditRecordView.swift:67 | The text is accepted exactly when it is an optional `+` or `-` followed by one or more ASCII digits whose signed value lies in the 64-bit range. The result is that signed value; anything else (empty text, a lone sign, spaces, other characters, overflow) gives nil. |
| `IntText.ParseShowRoundTrip` | ios_app/EditRecordView.swift:67 | Parsing the decimal text of any 64-bit value gives back that value. |
| `EditRecord.ValidatedCount` | ios_app/EditRecordView.swift:67 | A count is accepted exactly when the text parses as an integer and the integer is not negative. |
| `EditRecord.UneditedCountValidates` | ios_app/EditRecordView.swift:11-15 | The initial count text of a record with a non-negative count validates to that same count. |
| `EditRecord.NegativeCountRefused` | ios_app/EditRecordView.swift:67-70 | The text of a negative count, such as `"-5"`, is refused. |
| `EditRecord.RecordEditor.constructor` | ios_app/EditRecordView.swift:11-15 | The name field starts as the record's name. The count field starts as the decimal text of its count. |
| `EditRecord.RecordEditor.SaveChanges` | ios_app/EditRecordView.swift:66-73 | On valid input the new name and the parsed count are written. On invalid input the record is left as it was. Date, start time and duration never change. Saving without edits leaves the record unchanged. |
| `EditRecord.Rem` | ios_app/EditRecordView.swift:106-107 | The remainder takes the sign of the dividend, is smaller than the divisor in magnitude, and recomposes the dividend with the truncating quotient. |
| `EditRecord.SplitDuration` | ios_app/EditRecordView.swift:104-108 | `hours * 3600 + minutes * 60 + seconds` equals the duration. Minutes and seconds lie strictly between -60 and 60, and in `[0, 60)` when the duration is not negative. |

## Left out

- Views, layout, alerts and navigation are presentation only.
- The bead scale and 3-D rotation (CountingView.swift:86-105) are floating-point presentation. `CircularDistance` itself is modelled.
- The `isAnimating` flag and its delayed reset have no effect on counts.
- The system sound and haptic pulse are fire-and-forget device calls.
- The `onAppear` reset of the selection to slot 11 is not modelled. The constructor already starts there.
- Counting.BeadCounter.HandleSelectionChange: takes only the slots the scroll view offers (ids `0..<33`, CountingView.swift:82 and 110). A value outside that range is not modelled.
- Counting.BeadCounter.HandleSelectionChange: the scroll binding writes `selectedIndex` before the handler runs. The model starts the handler from the state before the scroll. `StepIsSettled` covers the handler's own write firing the handler again.
- Counting.BeadCounter.HandleSelectionChange: counts and tallies are unbounded integers. The trap on 64-bit overflow of `num_count += 1` is not modelled.
- Counting.BeadCounter.constructor: the clock reading `Date()` taken as the session's start time (CountingView.swift:37) is the parameter `startTime`.
- MonthlyChart.MonthlyData: per-day sums are unbounded integers. The trap on 64-bit overflow of `dailySum[dayStart, default: 0] += record.count` (MonthlyChartView.swift:51) is not modelled.
- Counting.BeadCounter.Finalize: the clock reading `Date()` is the parameter `now`. The `onDone` callback is not modelled: the result is returned instead.
- Persistence is I/O and not modelled. This covers insert, delete, save and fetch in ContentView.swift:117-151 and EditRecordView.swift:74-90, and the record deletion.
- EditRecord.RecordEditor.SaveChanges: in the source, the record is a shared object, and the list sees the edit through it. The editor here holds a record value, so that aliasing is not modelled. The save call and its error path are also left out.
- Calendar arithmetic is a library call. It is replaced by fixed 86400-second days in local time, with no daylight-saving days. A month is given by its first day number and its number of days.
- MonthlyChart.MonthlyData: the early return of an empty chart, when the calendar gives no day range, is not modelled. The month length is always given.
- EditRecord.SplitDuration: durations are whole seconds. The truncation of a fractional `TimeInterval` is not modelled. The assembly of the text with its unit words is also left out.
- Date and time formatting for display is a library call.
- ios_app/CalendarView.swift and ios_app/ios_appApp.swift are not part of this model. The first is calendar wrappers; the second is the app entry point.
