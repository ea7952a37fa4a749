# Duty-rotation scheduler, modelled in Dafny

This project models the weekly duty-rotation engine of `scheduler_app/app.py`. The engine
produces a schedule over a number of weeks. Each week has two roles: a first-priority and a
second-priority person on duty.

- The roster is shuffled and split at its midpoint into two queues. Newcomers are filtered out
  of the first half.
- Each week the engine first checks that no name is in both queues. It then keeps the eligible
  members of each queue, following the newcomer rules and the 30-day spacing rule.
- From each queue it picks a person with the longest wait, breaking ties at random.
- It records each pick's gap since their previous assignment.
- It rotates the picks: the first-priority pick moves to the tail of the second queue, and the
  second-priority pick to the tail of the first.
- The results page reports the longest and the shortest recorded interval.

Modules:

- `Wrappers`: `Option` and `Result`.
- `Intervals`: `get_interval_days`. The `Unbounded` interval replaces the floating-point
  infinity.
- `Selection`: `check_duplicate_members` and `select_person`.
- `Schedule`: the engine as functions.
  - the `State` kept between weeks;
  - the eligibility rules;
  - the interval recording;
  - `Advance`, one week's bookkeeping;
  - `WeekStep`, one iteration of the weekly loop;
  - `Run`, the loop;
  - `Generate`, the whole of `generate_schedule`.
- `Generator`: `generate_schedule` as the step-by-step procedure the source runs, with its locals
  updated in place. It is proved to return what `Generate` defines.
- `ScheduleProperties`: what the engine guarantees. This covers queue initialisation, one week's
  outcome, the rotation and a state invariant kept by every week. The invariant yields
  `GenerateGuarantees` and `ScheduleInvariant`.
  - Distinct people each week, and dates a week apart.
  - At least 30 days between two assignments of one person.
  - The newcomer rules.
  - The interval lists are exactly the gaps between a person's assignment dates.
  - The schedule has the requested length.
- `Summary`: the longest/shortest loop of the results page, proved against reference functions.

Encoding choices:

- Dates are integer day numbers, counted as Python's `date.toordinal` counts them: 0001-01-01 is day 1, and 9999-12-31, the last date Python represents, is day 3652059 (`LastDay`). A week adds 7.
- `random.shuffle` is an input: `shuffled`, a permutation of the roster's names.
- `random.choice` is an input oracle `draws`.
  - Week `i` uses `draws(2*i)` for first priority and `draws(2*i+1)` for second priority.
  - The pick is the candidate at `draw % |candidates|`. `EveryTieReachable` shows that every tied
    person is some draw's pick.
- Python's insertion-ordered `intervals` dictionary is a map plus the sequence `order` of its keys,
  in creation order.
- A raised `ValueError` is an `Err`: `DuplicateMembers` (line 115) or `InsufficientPersonnel`
  (line 152). The `OverflowError` of the date increment at line 192, raised when the next week would fall after
  9999-12-31, is the third `Err`, `DateOverflow`; it discards the week just produced.

Behaviour of the code that the model keeps as written:

- A newcomer shuffled into the first half is filtered out of the first queue (line 97) and is not
  added to the second queue (line 98). They are in neither queue, so the queues cover the roster
  only up to these newcomers; `FirstHalfNewcomerIsDropped` states this. Such a newcomer is in no
  week of a successful run; `DroppedNewcomerNeverScheduled` states that, and `TwoPersonRosterFails`
  exhibits a roster on which the first week fails because of it. The intended design places every newcomer in the second
  queue.
- Line 160 adds a newcomer second-priority pick to `has_served_second` before line 185 tests that
  they are not in it. The branch at lines 185-186 therefore never runs, and every second-priority
  pick moves to the first queue. `AdvanceRotates` states this. The intended design re-appends a
  newcomer to the second queue after their first second-priority turn.
- Unique names are never checked by the code. `GenerateSchedule` and `Generate` accept any roster.
  The guarantees (`GenerateGuarantees`, `InitialQueuesDisjoint`, `GeneratedSummary`) assume unique
  names through `Distinct`.

## Model

| member | source | states |
|---|---|---|
| Selection.CheckDuplicateMembers | scheduler_app/app.py:38-43 | a name is in the result exactly when it is in both queues |
| Intervals.IntervalDays | scheduler_app/app.py:45-49 | the interval is unbounded exactly for a person never assigned; otherwise it is the number of days since the last assignment |
| Selection.IntervalOf | scheduler_app/app.py:124 | a person's interval is unbounded exactly when no date is recorded for them, and otherwise the days since that date |
| Intervals.AtMostTotalOrder | scheduler_app/app.py:47-49 | intervals compare in a total order in which every day count lies below the unbounded interval |
| Selection.MaxInterval | scheduler_app/app.py:57-61 | the maximum is the interval of some eligible person, and no eligible person's interval exceeds it |
| Selection.Candidates | scheduler_app/app.py:63-64 | the candidates are exactly the eligible people whose interval equals the maximum; they are non-empty when some eligible person attains it |
| Selection.CandidatesAppend | scheduler_app/app.py:64 | the candidates of a concatenation are the candidates of each part, concatenated, so the list keeps the eligible list's order |
| Selection.CandidatesSingle | scheduler_app/app.py:64 | a one-person list yields that person exactly when their interval equals the maximum, and nobody otherwise |
| Selection.SelectPerson | scheduler_app/app.py:51-67 | None exactly for an empty list; otherwise a member of the list whose interval no other member exceeds |
| Selection.EveryTieReachable | scheduler_app/app.py:63-67 | every eligible person of maximal interval is the pick for some outcome of the random choice |
| Schedule.Names | scheduler_app/app.py:86-88 | the staff list has one entry per roster entry, holding that entry's name in roster order |
| Schedule.NewcomerNames | scheduler_app/app.py:87-90 | a name is a newcomer exactly when some roster entry with that name is flagged new |
| Schedule.WithoutNewcomers | scheduler_app/app.py:97 | the filter keeps exactly the non-newcomers of its input, with no more copies of any name |
| Schedule.WithoutNewcomersAppend | scheduler_app/app.py:97 | filtering a concatenation filters each part and concatenates the results, so the filter keeps its input's order |
| Schedule.WithoutNewcomersSingle | scheduler_app/app.py:97 | a one-name list is kept when the name is not a newcomer and emptied when it is |
| Schedule.InitialState | scheduler_app/app.py:86-98 | no contract of its own; `InitialQueues`, `InitialFirstQueue`, `InitialQueuesWithinRoster` and `InitialQueuesDisjoint` state the queues and the empty bookkeeping |
| Schedule.IndexOf | scheduler_app/app.py:180-181 | the position found holds the name, and no earlier position does |
| Schedule.Remove | scheduler_app/app.py:180-181 | `deque.remove` deletes the first occurrence of the name and keeps the order of the rest; the length drops by one, and the contents lose exactly one copy |
| Schedule.FitsFirst | scheduler_app/app.py:125-130 | the first-priority rules in the source's order; no contract of its own, `EligibleFirst` and `FilterFirstQueue` are stated against it |
| Schedule.FitsSecond | scheduler_app/app.py:140-143 | the second-priority rules in the source's order; no contract of its own, `EligibleSecond` and `FilterSecondQueue` are stated against it |
| Schedule.EligibleFirst | scheduler_app/app.py:122-133 | a person is first-eligible exactly when they are in the first queue and pass the served-second rule, the waiting-weeks rule and the 30-day rule |
| Schedule.EligibleSecond | scheduler_app/app.py:137-146 | a person is second-eligible exactly when they are in the second queue and pass the waiting-weeks rule and the 30-day rule |
| Schedule.Record | scheduler_app/app.py:173-177 | recording a pick sets their last date to today and changes no queue, set or date of the state |
| Schedule.RecordAll | scheduler_app/app.py:173-177 | recording the picks changes only the last dates, the interval lists and their key order |
| Schedule.Advance | scheduler_app/app.py:158-192 | no contract of its own; `AdvanceRotates` states the rotation, the served set and the next week and date, and `AdvanceLedger` the bookkeeping |
| Schedule.WeekStep | scheduler_app/app.py:110-192 | no contract of its own; `WeekStepOutcome` states each failure condition and the successful week |
| Schedule.Run | scheduler_app/app.py:107-192 | no contract of its own; `RunKeepsInvariant` and `RunWithinCalendar` state its outcome |
| Schedule.Generate | scheduler_app/app.py:69-199 | no contract of its own; `GenerateGuarantees`, `GenerateWithinCalendar` and `DroppedNewcomerNeverScheduled` state its outcome, and `GenerateSchedule` is proved to return it |
| Generator.FilterFirstQueue | scheduler_app/app.py:122-133 | the filtering loop over the first queue builds exactly the first-eligible list, in queue order |
| Generator.FilterSecondQueue | scheduler_app/app.py:137-146 | the filtering loop over the second queue builds exactly the second-eligible list, in queue order |
| Generator.RecordPicks | scheduler_app/app.py:172-177 | the recording loop leaves the last dates, interval lists and key order that recording the picks in turn defines |
| Generator.GenerateSchedule | scheduler_app/app.py:69-199 | the procedure returns the schedule and interval lists, or the failure (including the date overflow of line 192), that `Generate` defines for the same shuffle and random choices |
| Generator.RecordedWeekIsAdvance | scheduler_app/app.py:158-192 | the locals after one pass of the weekly loop hold the state `Advance` defines |
| Generator.RunUnfolds | scheduler_app/app.py:107-192 | a completed week followed by the remaining loop gives the same outcome as the loop from before that week |
| ScheduleProperties.QueuesDisjoint | scheduler_app/app.py:38-43 | when each pooled name occurs once, no name is in both queues, and the duplicate check finds nothing |
| ScheduleProperties.InitialQueues | scheduler_app/app.py:86-98 | the second queue is the second half of the shuffle; the first queue holds exactly the non-newcomers of the first half; nothing is recorded yet, at week 0 on the start date |
| ScheduleProperties.InitialFirstQueue | scheduler_app/app.py:96-97 | the first queue is the first half of the shuffle through the newcomer filter, in shuffle order (with `WithoutNewcomersAppend` and `WithoutNewcomersSingle`) |
| ScheduleProperties.InitialQueuesWithinRoster | scheduler_app/app.py:96-98 | the two initial queues together hold no name more often than the roster |
| ScheduleProperties.InitialQueuesDisjoint | scheduler_app/app.py:96-98 | with unique names, each name is in the initial queues at most once, and no name is in both |
| ScheduleProperties.FirstHalfNewcomerIsDropped | scheduler_app/app.py:97-98 | a roster newcomer shuffled into the first half is in neither initial queue |
| ScheduleProperties.TwoPersonRosterFails | scheduler_app/app.py:97-98 | for the roster newcomer N and regular A, shuffled as N then A, the first queue starts empty and the first week fails for lack of eligible people |
| ScheduleProperties.TwoRegularsStart | scheduler_app/app.py:86-98 | two regulars shuffled as A, B start with A alone in the first queue and B alone in the second |
| ScheduleProperties.LastWeekOverflows | scheduler_app/app.py:190-192 | two regulars starting on 9999-12-30 for one week: the week is found, but the date increment fails, so generation returns the overflow failure and no schedule |
| ScheduleProperties.WeekStepOutcome | scheduler_app/app.py:110-192 | a week fails on duplicates exactly when a name is in both queues; otherwise it fails for lack of personnel exactly when an eligible list is empty; otherwise it fails on the date increment exactly when the next week would fall after 9999-12-31; otherwise both picks come from their own queue, are eligible and have the longest interval there, and the state moves to `Advance` |
| ScheduleProperties.AdvanceRotates | scheduler_app/app.py:158-192 | the first pick leaves the first queue for the tail of the second; the second pick always leaves the second queue for the tail of the first; queue lengths and pooled names are unchanged; a newcomer second pick joins the served set; week and date advance by one week |
| ScheduleProperties.RecordEntry | scheduler_app/app.py:173-177 | recording a pick who meets the 30-day rule extends their gap list by the days since their previous date, and makes today their last date |
| ScheduleProperties.RecordRepeat | scheduler_app/app.py:173-177 | recording a person assigned before appends the gap since their last date to their list, each gap still at least 30, and gives them a key |
| ScheduleProperties.RecordPairEntry | scheduler_app/app.py:172-177 | recording two different picks who meet the 30-day rule keeps any one person's entry in step with the extended schedule |
| ScheduleProperties.RecordKeepsLedger | scheduler_app/app.py:172-177 | recording two different picks who meet the 30-day rule keeps every person's last date and gap list in step with the extended schedule |
| ScheduleProperties.AllEntriesStep | scheduler_app/app.py:172-177 | recording two different picks who meet the 30-day rule keeps every person's entry in step with the extended schedule |
| ScheduleProperties.RecordLastDates | scheduler_app/app.py:177 | after recording the picks, every assignment so far lies on or before that person's last date |
| ScheduleProperties.LastDatesStep | scheduler_app/app.py:177 | setting both picks' last dates to the week's date keeps every assignment on or before its person's last date |
| ScheduleProperties.DatesBelow | scheduler_app/app.py:173-177 | when every week lies before a date, so does every assignment date of each person |
| ScheduleProperties.RecordKey | scheduler_app/app.py:175-177 | recording a pick appends their key exactly when they have a last date but no interval list yet |
| ScheduleProperties.RecordOrder | scheduler_app/app.py:172-177 | recording two different picks appends the first-priority pick's key, then the second-priority pick's, each exactly when that pick has a last date but no interval list yet |
| ScheduleProperties.KeysGrow | scheduler_app/app.py:172-177 | appending a week keeps existing keys listed once each, in order of second assignment |
| ScheduleProperties.KeysExtend | scheduler_app/app.py:172-177 | keys whose second assignment is the last week, appended after earlier keys (first priority before second), keep the keys listed once each in order |
| ScheduleProperties.KeysExtendWeek | scheduler_app/app.py:172-177 | the keys one week creates, appended first priority then second, keep the keys in order |
| ScheduleProperties.OldKeysEarlier | scheduler_app/app.py:172-177 | keys created before an appended later week had their second assignment before it |
| ScheduleProperties.AddedKey | scheduler_app/app.py:175-177 | a person assigned exactly once before has their second assignment in the week appended |
| ScheduleProperties.OrderStep | scheduler_app/app.py:172-177 | one week's recording keeps the dictionary's keys listed once each, in the order of each person's second assignment, first priority before second within a week |
| ScheduleProperties.AdvanceLedger | scheduler_app/app.py:158-192 | one week's bookkeeping keeps every person's last date and gap list in step with the schedule, and the keys in creation order |
| ScheduleProperties.LedgerOutcome | scheduler_app/app.py:172-177 | per-person agreement means the interval lists hold exactly the gaps of everyone assigned twice, each at least 30 days; the keys are exactly the people with a list, listed once each, in the order of each person's second assignment, first priority before second within a week |
| ScheduleProperties.ScheduleRolesStep | scheduler_app/app.py:122-170 | a week whose picks differ and pass the eligibility rules extends a schedule that keeps the newcomer, spacing and date rules to one that still keeps them |
| ScheduleProperties.AdvanceKeepsInvariant | scheduler_app/app.py:107-192 | one week with eligible picks from the two queues keeps the state invariant: disjoint queues over the same names, the ledger, and the schedule rules |
| ScheduleProperties.WeekKeepsInvariant | scheduler_app/app.py:110-192 | from a state meeting the invariant a week never fails on duplicates, and a successful week leads to a state meeting it for the extended schedule |
| ScheduleProperties.RunKeepsInvariant | scheduler_app/app.py:107-199 | from a state meeting the invariant, the loop never fails on duplicates; a successful loop ends with the requested number of weeks, satisfying `ScheduleInvariant` |
| ScheduleProperties.OutsideQueuesNeverScheduled | scheduler_app/app.py:107-192 | a person in neither queue, and not yet scheduled, is in no week of a successful run |
| ScheduleProperties.WeekKeepsOut | scheduler_app/app.py:155-188 | a week from a state with a person in neither queue does not pick them and leaves them in neither queue |
| ScheduleProperties.AdvanceKeepsOut | scheduler_app/app.py:180-188 | the rotation moves only the two picks, so a person in neither queue stays in neither |
| ScheduleProperties.DroppedNewcomerNeverScheduled | scheduler_app/app.py:96-192 | with unique names, a newcomer shuffled into the first half is in no week of a successful run |
| ScheduleProperties.RunWithinCalendar | scheduler_app/app.py:107-192 | a successful run ends on a representable date: the date after its last week is at most 9999-12-31 |
| ScheduleProperties.GenerateWithinCalendar | scheduler_app/app.py:69-192 | generation of at least one week succeeds only when start + 7 * weeks is at most 9999-12-31 |
| ScheduleProperties.InitialInvariant | scheduler_app/app.py:86-98 | with unique names, the state before the first week meets the invariant |
| ScheduleProperties.GenerateGuarantees | scheduler_app/app.py:69-199 | with unique names, generation never fails on duplicates; on success there are `max(weeks, 0)` weeks with the properties below. Week `i` is dated start + 7*i, and its two people differ. Newcomers serve only from week 26 on, and in first priority only after a second-priority turn. Two assignments of one person are at least 30 days apart. The interval lists are exactly each person's gaps; their keys are listed once each, in the order of each person's second assignment, first priority before second within a week |
| Summary.MaxOf | scheduler_app/app.py:229 | the result is an element of the list that no element exceeds |
| Summary.MinOf | scheduler_app/app.py:230 | the result is an element of the list below no other element |
| Summary.Items | scheduler_app/app.py:227 | one entry per key in key order, each holding that key's interval list |
| Summary.Longest | scheduler_app/app.py:224-232 | no name with 0 exactly when no non-empty list has a maximum above 0; otherwise the first person whose largest gap attains the overall maximum, with that maximum |
| Summary.Shortest | scheduler_app/app.py:225-234 | no name and the unbounded interval exactly when every list is empty; otherwise the first person whose smallest gap attains the overall minimum, with that minimum |
| Summary.Summarize | scheduler_app/app.py:224-234 | the summary loop reports exactly `Longest` and `Shortest` of the entries, in dictionary order |
| Summary.ItemEntry | scheduler_app/app.py:226-228 | an entry of interval lists holding each person's gaps is non-empty exactly for a person assigned twice, and then its largest and smallest gaps are at least 30 |
| Summary.LedgerSummary | scheduler_app/app.py:224-234 | for interval lists holding each person's gaps, each reported extreme is at least 30 days; each is reported exactly when someone was assigned twice |
| Summary.ExtremesAtLeastMin | scheduler_app/app.py:224-234 | for interval lists holding each person's gaps, each reported extreme is at least 30 days |
| Summary.ExtremesReported | scheduler_app/app.py:224-234 | for interval lists holding each person's gaps, each extreme is reported exactly when someone was assigned twice |
| Summary.EntriesAtLeastMin | scheduler_app/app.py:227-230 | for interval lists holding each person's gaps, every non-empty entry's largest and smallest gaps are at least 30 |
| Summary.SomeEntryIffTwice | scheduler_app/app.py:227-228 | for interval lists holding each person's gaps, some entry is non-empty exactly when someone was assigned twice |
| Summary.LongestReported | scheduler_app/app.py:224-232 | when every non-empty entry's largest gap is at least 30, the longest interval names somebody exactly when some entry is non-empty |
| Summary.KeyNotBefore | scheduler_app/app.py:227 | a key absent from the first `k` keys had its second assignment no earlier than the `k`-th key's person |
| Summary.LongestTieBreak | scheduler_app/app.py:224-232 | on a tie for the longest interval the person reported had their second assignment no later than anyone else whose largest gap equals it |
| Summary.ShortestTieBreak | scheduler_app/app.py:225-234 | on a tie for the shortest interval the person reported had their second assignment no later than anyone else whose smallest gap equals it |
| Summary.GeneratedSummary | scheduler_app/app.py:221-234 | for a successful run on unique names, each reported extreme is at least 30 days; each is reported exactly when someone served twice |

## Left out

- The Flask application, the `/` route's form parsing, `render_template` and the `__main__` block are web plumbing with no logic to verify.
- `read_personnel` is CSV reading. The roster is an input sequence of `Person` values.
- `get_resource_path` and the platform and path constants are filesystem plumbing.
- The `print` diagnostics and the `ValueError` message texts are left out. Failures are the three `Error` values, and no week index is attached.
- The `week` field of a schedule entry is a `strftime` string in the source. It is the day number here.
- The start date is any day number. The source's comes from `strptime`, so it always lies between 0001-01-01 and 9999-12-31; the model does not require that, and a start outside that range has no counterpart in the source.
- `weeks=26` is only a default argument. `Generate` takes the number of weeks explicitly.
- Selection.SelectPerson: the randomness is not modelled. The pick is the candidate at the supplied draw modulo their number, so statements about the uniformity of `random.choice` and `random.shuffle` are out of reach. `EveryTieReachable` shows that no tied person is excluded.
- `last_assigned_date` is a `defaultdict`. Its lookups insert `None` for people never assigned. The model keeps only the people actually assigned; a `None` entry and a missing one behave alike in every test the code makes. Every stored date counts as assigned, as any `date` object is truthy.
- GenerateGuarantees: assumes unique roster names. The code never checks them, and with repeated names the duplicate check can fail.
- Generator.GenerateSchedule: the two eligibility loops and the recording loop are separate methods, and the deques are `seq` locals that the loop reassigns. Aliasing of the deques is not modelled; nothing else refers to them.
