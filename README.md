# Capacity-packing scheduler, modelled in Dafny

This project models the scheduler at the heart of the work-order reflow
system. `GlobalSchedule` (src/reflow/globalSchedule.ts) keeps, for every
work center, an index of committed events keyed by UTC day. It places one
work order at a time:

- it walks forward shift by shift from the work order's start;
- for each shift it collects the conflicts, which are the overlapping
  maintenance windows plus the events already committed on the shift's days;
- it computes the free slots between those conflicts;
- it packs the remaining work greedily into the slots, charging the setup
  time once for each session that does not continue the previous one;
- it commits one event per session to the day index;
- finally it rewrites the work order's sessions, start and end.

The calendar helpers (src/utils/date.ts) and the stateless validation
checks (src/reflow/validator.ts) are modelled too.

Every instant is an integer number of minutes since 1970-01-01T00:00Z, in
UTC:

- the day key of `t` is `t / 1440`;
- the weekday of day `d` is `(d + 4) % 7`, with Sunday = 0, because day 0
  was a Thursday;
- the hour of `t` is `(t % 1440) / 60`.

Files and modules:

- `types.dfy` (`Types`) holds the data shapes. Shift intervals, conflicts
  and time slots are all `Interval`. A work order is a class whose `data`
  the scheduler overwrites.
- `intervals.dfy` (`Intervals`) holds the stable sort by start that the
  scheduler and the overlap check use.
- `calendar.dfy` (`Calendar`) holds the day key, the weekday, shift lookup,
  and the forward scan for the next shift interval. The scan is a method
  proved against the function `NextShift`.
- `packing.dfy` (`Packing`) holds the specification functions of the
  scheduler: `Conflicts`, `Slots`, `PackSessions`, `ShiftStep`, and the day
  index with `Record` and `Committed`. The lemmas here state what they
  guarantee.
- `global_schedule.dfy` (`Schedule`) holds the class `GlobalSchedule`. Its
  methods update the day index in place, and each is proved against the
  functions of `Packing`.
- `validator.dfy` (`Validation`) holds the guard checks. Each returns `Pass`
  or `Fail` with a coded `ValidationError`.

## Model

| member | source | states |
|---|---|---|
| Intervals.Insert | src/reflow/globalSchedule.ts:63 | inserting keeps every element and adds the new one once (multiset) |
| Intervals.InsertSorted | src/reflow/globalSchedule.ts:63 | inserting into a list sorted by start keeps it sorted |
| Intervals.SortByStart | src/reflow/globalSchedule.ts:63 | the result is a permutation of the input (multiset) and is sorted by start |
| Intervals.InsertAfterAll | src/reflow/validator.ts:54 | an element starting no earlier than all others goes last |
| Intervals.SortByStartOfSorted | src/reflow/validator.ts:54 | sorting a list already in start order returns it unchanged |
| Calendar.DayKey | src/utils/date.ts:4-7 | the key's day span holds the instant |
| Calendar.DayKeyExactly | src/utils/date.ts:4-7 | an instant has key k exactly when it lies in day k's span, so all instants of a UTC day share one key |
| Calendar.DayKeyMonotone | src/utils/date.ts:4-7 | the day key never decreases as the instant grows |
| Calendar.Weekday | src/utils/date.ts:23 | the weekday is in 0..6 and day 0 is a Thursday (4) |
| Calendar.WeekdayPeriodic | src/utils/date.ts:23 | days a week apart share the weekday |
| Calendar.HourOf | src/utils/date.ts:10 | the hour is in 0..23 and the instant lies within that hour of its day |
| Calendar.FirstShiftUnique | src/utils/date.ts:24 | only one shift can be the first one configured for a weekday |
| Calendar.FindShift | src/utils/date.ts:24 | a found shift is one of the configured shifts and is set for the weekday asked for |
| Calendar.FindShiftSpec | src/utils/date.ts:24 | nothing is found iff no shift has the weekday; a found shift is the first with that weekday |
| Calendar.FindShiftIsFirst | src/utils/date.ts:24 | the first shift with the weekday is the one found |
| Calendar.IsDateInShift | src/utils/date.ts:9-11 | true iff the date's hour is in [start hour, end hour) of the interval |
| Calendar.DateInShiftIgnoresDay | src/utils/date.ts:9-11 | moving the date by whole days never changes the answer |
| Calendar.IsDuringShift | src/utils/date.ts:13-17 | true iff the first shift for the date's weekday exists and its hours hold the date's hour |
| Calendar.ShiftIntervalOnSpec | src/utils/date.ts:23-27 | a day has a shift interval iff some shift is configured for its weekday, and the interval is the first such shift's hours placed on that day |
| Calendar.QualifiesExactly | src/utils/date.ts:26-35 | a scanned day is taken iff a shift is configured for its weekday and the first such shift, placed on that day, has not ended by the date or does not start before it |
| Calendar.NextShiftFrom | src/utils/date.ts:20-40 | a found interval holds the date or starts at or after it |
| Calendar.NextShift | src/utils/date.ts:20-40 | the interval returned for a date holds the date or starts at or after it |
| Calendar.NextShiftFromSpec | src/utils/date.ts:20-40 | a found interval is the shift of the earliest qualifying scanned day, with no earlier scanned day qualifying; nothing is found iff no scanned day qualifies |
| Calendar.GetNextShiftInterval | src/utils/date.ts:20-40 | the interval holds the date or starts at or after it; it is the shift of the first qualifying day within the lookahead; the error comes iff no scanned day qualifies |
| Packing.OverlappingWindows | src/reflow/globalSchedule.ts:40-44 | a window is kept iff it is in the list and ends after the shift start and starts before the shift end |
| Packing.OverlappingWindowsCounts | src/reflow/globalSchedule.ts:40-44 | each overlapping window is kept exactly as often as it occurs in the list, and every other window is dropped |
| Packing.OverlappingWindowsAppend | src/reflow/globalSchedule.ts:40-44 | filtering keeps list order: the windows kept from two lists joined are those kept from each, in turn |
| Packing.ShiftDayKeys | src/reflow/globalSchedule.ts:47-51 | the day keys are the day of the shift start, then the day of its end when that is a different day; no key repeats |
| Packing.Conflicts | src/reflow/globalSchedule.ts:58-63 | the conflicts are sorted by start and, as a multiset, are the overlapping windows plus the events |
| Packing.ConflictsExactly | src/reflow/globalSchedule.ts:38-64 | the conflicts are sorted by start, there is one per overlapping window and per event, and an interval is a conflict iff it is that of an overlapping window or of an event |
| Packing.Gap | src/reflow/globalSchedule.ts:87-95 | at most one gap, and a gap runs from the later of the running end and the current time to the conflict start and is not empty |
| Packing.SlotsFrom | src/reflow/globalSchedule.ts:73-110 | the walk yields at most one slot per conflict plus one after the last |
| Packing.Slots | src/reflow/globalSchedule.ts:73-110 | a shift has at most one slot per conflict plus one after the last |
| Packing.SlotsFromBounds | src/reflow/globalSchedule.ts:85-108 | every slot is non-empty and starts at or after the running end and the current time |
| Packing.SlotsFromOrdered | src/reflow/globalSchedule.ts:85-108 | with conflicts of start <= end, the slots come in increasing order and are pairwise disjoint |
| Packing.SlotsFromAvoidConflicts | src/reflow/globalSchedule.ts:85-108 | with conflicts sorted by start, no slot overlaps any conflict |
| Packing.SlotsFromEnds | src/reflow/globalSchedule.ts:85-108 | every slot ends at a conflict start or the shift end, and every slot but the last ends at a conflict start |
| Packing.SlotsInsideShift | src/reflow/globalSchedule.ts:100-108 | when every conflict starts before the shift ends, all slots end within the shift and only the trailing one reaches its end |
| Packing.SlotsAfterCursor | src/reflow/globalSchedule.ts:67-111 | every slot of a shift is non-empty and starts at or after both the shift start and the current time |
| Packing.ActiveConflict | src/reflow/globalSchedule.ts:211 | nothing is found iff no conflict holds the instant; a found conflict holds it and is the first in list order that does |
| Packing.PackOne | src/reflow/globalSchedule.ts:128-150 | a placed session starts at the slot start, ends within the slot, has end - start = setup + work with work > 0 and not above what remains, and is charged the setup iff it opens a new session; it fills the slot unless it finishes the work; a slot is skipped iff its length is <= 0 or <= the setup it would be charged |
| Packing.PackSlotSpec | src/reflow/globalSchedule.ts:125-172 | one turn of the packing loop either changes nothing or appends one session that starts at the slot start and ends within the slot, moves the time to its end and takes its work off the work left, which stays non-negative |
| Packing.PackSessions | src/reflow/globalSchedule.ts:125-172 | packing places at most one session per slot |
| Packing.SumWorkAppend | src/reflow/globalSchedule.ts:168 | the work of two session lists adds up |
| Packing.PackLoopSessions | src/reflow/globalSchedule.ts:125-174 | the packing loop (`PackLoop`, one `PackSlot` per slot, stopping once no work is left) appends exactly the packed sessions, subtracts their work from the remaining work, and ends at the last one's end |
| Packing.PackShape | src/reflow/globalSchedule.ts:128-150 | every packed session has end - start = setup + work, positive work, setup either the configured setup or 0, and starts at a slot start and ends within that slot |
| Packing.PackSetupRule | src/reflow/globalSchedule.ts:132-134 | every packed session is charged the setup iff no session precedes it or the previous one ended strictly before its start |
| Packing.PackConservesWork | src/reflow/globalSchedule.ts:125-171 | the packed work never exceeds the remaining work, and every session but the last leaves work to do, so packing stops once the work is placed |
| Packing.ChainedAppend | src/reflow/globalSchedule.ts:145 | appending a session that starts after the last one ends keeps the sessions chained |
| Packing.PackChained | src/reflow/globalSchedule.ts:125-172 | with setup >= 0 and slots in increasing disjoint order after the earlier sessions, the earlier and new sessions follow one another without overlap |
| Packing.PackAvoidsConflicts | src/reflow/globalSchedule.ts:125-172 | sessions packed into slots that avoid the conflicts avoid them too |
| Packing.PassStart | src/reflow/globalSchedule.ts:201-214 | the pass starts no earlier than the shift start and the cursor, and moves past that time iff some conflict holds it |
| Packing.ShiftStep | src/reflow/globalSchedule.ts:201-234 | with work owed, a pass leaves the owed work minus the work it placed, never negative; if work is left the cursor is at the shift end |
| Packing.ShiftStepAdvances | src/reflow/globalSchedule.ts:197-235 | on a non-empty shift that holds the cursor or lies ahead of it, a pass moves the cursor strictly forward when work remains, places no more work than remains, and keeps every session well shaped, after the start and charged by the setup rule |
| Packing.WindowIsConflict | src/reflow/globalSchedule.ts:38-64 | a maintenance window that overlaps the shift is one of its conflicts |
| Packing.EventIsConflict | src/reflow/globalSchedule.ts:38-64 | an event read for the shift is one of its conflicts |
| Packing.ShiftStepAvoidsConflicts | src/reflow/globalSchedule.ts:201-234 | no session a pass places overlaps a maintenance window that overlaps the shift or an event listed for the shift's days |
| Packing.OnDayAppend | src/reflow/globalSchedule.ts:164-166 | the events of a day in two lists are the day's events of each, in order |
| Packing.OnDay | src/reflow/globalSchedule.ts:164 | the events listed for a day are at most as many as all events, and each starts on that day |
| Packing.OnDayMembers | src/reflow/globalSchedule.ts:164 | an event is listed for a day iff it starts on that day |
| Packing.EventFor | src/reflow/globalSchedule.ts:153-162 | the event has the session's start, end, setup and work, the work order's id and its work center |
| Packing.EventsFor | src/reflow/globalSchedule.ts:153-162 | one event per session, in order, each mirroring its session |
| Packing.EventsForAppend | src/reflow/globalSchedule.ts:153-162 | the events of two session lists are the events of each, in order |
| Packing.CommittedNothing | src/reflow/globalSchedule.ts:18-26 | an index whose lists all read the same as before has committed nothing |
| Packing.LookupReadsStored | src/reflow/globalSchedule.ts:18-26 | a lookup reads empty iff nothing or an empty list is stored for the work center and day, and otherwise reads the stored list |
| Packing.Touch | src/reflow/globalSchedule.ts:18-26 | reading a list keeps the set of work centers and changes what no lookup reads |
| Packing.TouchDays | src/reflow/globalSchedule.ts:53-56 | reading the lists of several days keeps the set of work centers and changes what no lookup reads |
| Packing.CommittedTrans | src/reflow/globalSchedule.ts:164-166 | two commits in a row are one commit of both event lists |
| Packing.CommittedAtTrans | src/reflow/globalSchedule.ts:164-166 | the same for the list of one work center and day |
| Packing.Push | src/reflow/globalSchedule.ts:164-166 | pushing keeps the set of work centers |
| Packing.PushCommits | src/reflow/globalSchedule.ts:164-166 | pushing an event under the day key of its start appends it to that day's list and changes no other list |
| Packing.Record | src/reflow/globalSchedule.ts:164-166 | recording keeps the set of work centers |
| Packing.RecordCommits | src/reflow/globalSchedule.ts:125-172 | recording events one by one appends each to the list of its start day, in order, and changes nothing else |
| Packing.CommittedIndexedByDay | src/reflow/globalSchedule.ts:164-166 | commits keep every event under the day of its start |
| Packing.RecordedCommits | src/reflow/globalSchedule.ts:202-233 | reads that install empty lists followed by recording are a commit that keeps the index keyed by day |
| Packing.TouchedRecordCommits | src/reflow/globalSchedule.ts:201-234 | reading the lists of the shift's days and then recording events commits exactly those events and keeps the index keyed by day |
| Packing.EventsOnDays | src/reflow/globalSchedule.ts:53-56 | an event is gathered iff it is listed for the work center under one of the days |
| Packing.PackExtends | src/reflow/globalSchedule.ts:125-172 | packing into slots after a bound keeps all sessions well shaped, after the bound and charged by the setup rule |
| Packing.SumWorkPositive | src/reflow/globalSchedule.ts:139 | a non-empty list of well-shaped sessions does positive work |
| Packing.EmptyShiftStalls | src/reflow/globalSchedule.ts:197-235 | with a shift of no length, the next shift interval is empty, and a pass over it places nothing and leaves the cursor where it was |
| Schedule.IndexById | src/reflow/globalSchedule.ts:14 | the map holds exactly the ids of the list, each mapped to a work center carrying that id |
| Schedule.IndexByIdLastWins | src/reflow/globalSchedule.ts:14 | each id maps to the last work center carrying it |
| Schedule.StartNotes | src/reflow/globalSchedule.ts:29-35 | the notes of the start check are none or the no-shift note, and none iff the start is readable and some shift is configured for its weekday |
| Schedule.PassOver | src/reflow/globalSchedule.ts:201-234 | a pass keeps the earlier sessions as a prefix, leaves the work owed minus the new sessions' work and never a negative amount, ends at the shift end when work is left, and adds at most the maintenance note |
| Schedule.Pass | src/reflow/globalSchedule.ts:201-234 | a pass fails iff no shift interval is found or the one found is empty; with work left after it, a pass moves the cursor strictly forward |
| Schedule.Placements | src/reflow/globalSchedule.ts:197-235 | the passes end either with an error (no shift interval, or an empty one) or in a state where the start is unreadable, no work is left or the cursor reached the horizon |
| Schedule.PassOverCommits | src/reflow/globalSchedule.ts:201-234 | a pass commits exactly the events of the sessions it places, keeps events keyed by day, places sessions clear of the shift's conflicts and adds only the known notes |
| Schedule.PassSpec | src/reflow/globalSchedule.ts:201-234 | on a non-empty shift that holds the cursor or lies ahead of it, a pass only appends sessions, leaves the owed work minus the new work, never negative, keeps shape and setup rule, and commits exactly the new sessions' events |
| Schedule.PlacementsSpec | src/reflow/globalSchedule.ts:197-235 | over all passes the sessions only grow, the work left is the work owed minus the new sessions' work, every session keeps shape and setup rule, exactly the new events are committed and only known notes are added |
| Schedule.FromStartSpec | src/reflow/globalSchedule.ts:186-237 | passes from the work order's start that end without error and place sessions had a readable start and positive duration, placed positive work not above the duration, all of it unless the horizon was reached, and committed exactly the sessions' events |
| Schedule.GlobalSchedule.constructor | src/reflow/globalSchedule.ts:13-16 | the work centers are indexed by id, each has an empty day index, and every lookup reads empty |
| Schedule.GlobalSchedule.GetScheduledEvents | src/reflow/globalSchedule.ts:18-26 | returns the stored list, or empty; a missing day of a known work center gets an empty list installed (the index becomes `Touch` of the old one); no list reads differently afterwards |
| Schedule.GlobalSchedule.ValidateInitialSchedule | src/reflow/globalSchedule.ts:29-35 | appends the no-shift note iff the start is unreadable or no shift is configured for its weekday |
| Schedule.GlobalSchedule.FindConflictsForShift | src/reflow/globalSchedule.ts:38-64 | returns the conflicts of the windows and of the events on the shift's days, sorted by start; the index becomes `TouchDays` of the old one over those days, so no list reads differently |
| Schedule.GlobalSchedule.FindAvailableSlots | src/reflow/globalSchedule.ts:67-111 | returns the free slots, all after the shift start and the current time and non-empty, none overlapping a conflict when the conflicts are sorted; appends the maintenance note iff some conflict holds the current time |
| Schedule.GlobalSchedule.ScheduleWorkInSlots | src/reflow/globalSchedule.ts:114-175 | appends the packed sessions, returns the work left and the end of the last session, and records their events in the day index |
| Schedule.GlobalSchedule.RecordEvent | src/reflow/globalSchedule.ts:164-166 | the index becomes the old one with the event pushed under the day of its start |
| Schedule.GlobalSchedule.UpdateWorkOrderTiming | src/reflow/globalSchedule.ts:178-184 | the work order always takes the sessions; it succeeds iff there is one, and then takes the first one's start and the last one's end; nothing else of it changes |
| Schedule.GlobalSchedule.EnterShift | src/reflow/globalSchedule.ts:202-214 | returns the shift's conflicts and the pass start past the conflict holding the cursor; the index changes only by the reads of the shift's days |
| Schedule.GlobalSchedule.PlaceInShift | src/reflow/globalSchedule.ts:201-234 | the new index, sessions, work left, cursor and notes are the pass over the shift; exactly the events of the new sessions are committed, and none of those sessions overlaps a maintenance window of the shift or an event already listed |
| Schedule.GlobalSchedule.RunPasses | src/reflow/globalSchedule.ts:197-235 | the index, sessions, work left, cursor, notes and error after the loop are those of the passes from the start |
| Schedule.GlobalSchedule.AddWorkOrder | src/reflow/globalSchedule.ts:186-243 | the error for an unknown work center comes iff its id is not indexed, and changes nothing; otherwise the outcome is that of the passes from the start: their error, with the work order unchanged; or, with no session placed, the error for reading the first session, with the work order's sessions emptied; or success with the notes, the work order's timing rewritten from the sessions and all work placed unless the horizon was reached. On success the sessions are well shaped, start no earlier than the work order, follow the setup rule, do positive work not above the duration, exactly their events are committed and every note is a known one; the loop terminates |
| Validation.CodeNamesDistinct | src/reflow/validator.ts:4-10 | distinct error codes have distinct code strings |
| Validation.PreSchedule | src/reflow/validator.ts:14-22 | passes iff all six checks pass; a failure carries the code of the first failing check in the source's order |
| Validation.MaintenanceNotReschedulable | src/reflow/validator.ts:23-27 | fails iff the work order is maintenance and needs rescheduling, with MAINT_RESCHEDULE |
| Validation.FirstUnsatisfied | src/reflow/validator.ts:30-37 | finds the first dependency that is scheduled and ends after the start, or none iff no such dependency |
| Validation.DependenciesSatisfied | src/reflow/validator.ts:29-38 | fails iff some scheduled dependency ends strictly after the start, with DEP_UNSATISFIED |
| Validation.PostSchedule | src/reflow/validator.ts:40-52 | passes iff all three checks pass, the horizon check passing when the start is unreadable; a failure carries the code of the first failing check in the source's order |
| Validation.UnparsedStartPassesHorizon | src/reflow/validator.ts:47-51 | with an unreadable start, complete work and at least one session pass, however late the last session ends |
| Validation.SessionIntervals | src/reflow/validator.ts:54 | one interval per session with its start and end |
| Validation.ChainedIsPairwiseDisjoint | src/reflow/validator.ts:55-61 | in a chained list of well-formed intervals every earlier one ends before every later one starts |
| Validation.SessionsNoOverlap | src/reflow/validator.ts:53-62 | fails iff in start order some session starts before its predecessor ends, with SESSION_OVERLAP; for sessions with start <= end, passes iff in start order no two overlap |
| Validation.SortedWellFormed | src/reflow/validator.ts:54 | sorting keeps every interval well formed |
| Validation.ChainedSessionsPass | src/reflow/validator.ts:53-62 | sessions laid out one after the other pass the overlap check |

## Left out

- ISO-8601 strings, Luxon parsing and formatting (`fromISO`, `toISO`, `startOf('day')`, `hasSame`) are not modelled: instants are integer minutes, and sessions and events are integer start/end records.
- Time zones are not modelled: weekday and hour are computed in UTC. The shift scan and the placement cursor are in UTC in the source too, but validateInitialSchedule, isDateInShift and isDuringShift read `weekday` and `hour` of a DateTime parsed without a zone setting, which Luxon puts in the system's default zone rather than the offset written in the string.
- A start date that does not parse is the flag `startValid`. An invalid start makes the placement loop stop at once, because NaN comparisons are false in the source. addWorkOrder then stores the empty session list and ends with `Err(NoSessions)`. That error stands for the crash of `sessions[0]` on an empty list in updateWorkOrderTiming, which happens after the list was stored; any loop that placed nothing ends the same way.
- Error messages are not modelled. Only the error codes and the two explanation notes are kept, with their exact wording.
- Thrown exceptions are `Err` results. When addWorkOrder fails halfway, the events already committed stay in the index: its contract says that the index after an error is the one the passes completed before the error left, which holds exactly the events of the sessions they placed.
- `postSchedule` compares elapsed minutes with `maxDays * 1440`, not fractional days.
- Schedule.GlobalSchedule.ScheduleWorkInSlots: the caller's session array is returned as a new sequence, not appended in place, so aliasing of that array is not modelled.
- Schedule.GlobalSchedule.ScheduleWorkInSlots: the per-slot length, setup and fit checks that `continue` are taken from the function `PackOne`, not written out as statements.
- Schedule.GlobalSchedule.PlaceInShift: the body of addWorkOrder's loop is a method of its own, and so are the start of a pass (`EnterShift`) and the loop itself (`RunPasses`).
- Schedule.GlobalSchedule.AddWorkOrder: the error `EmptyShift` does not exist in the source. It is added so that a shift interval of no length ends the placement instead of looping forever (see Findings).
- Schedule.GlobalSchedule.AddWorkOrder: the `EmptyShift` guard fails on every shift interval with end <= start. The source does not always loop there: when an event listed on that day starts after the interval start, a slot opens before it, work is placed past the interval, and the source can go on and return normally. The model returns the error in that case too.
- Schedule.GlobalSchedule.AddWorkOrder: conflict avoidance is stated per pass only. `PlaceInShift` and `Schedule.PassOverCommits` prove that the sessions of a pass avoid the maintenance windows overlapping its shift and the events listed for its days when the pass starts, which include those committed by earlier passes and earlier work orders. The whole-run statement would need the shift interval and the index of every pass, which `Schedule.Placements` does not record, so AddWorkOrder's contract does not carry it.
- Schedule.GlobalSchedule.AddWorkOrder: its contract does not claim that the sessions of different shifts never overlap. A day index can hold an event that starts after the shift end, and then a slot can reach past the shift end, so that property needs assumptions on the index that the source does not enforce. `Packing.PackChained` states it within one shift, and `Packing.SlotsInsideShift` states the condition under which slots stay inside the shift.
- Packing.ShiftStepAdvances: it does not claim that the cursor never moves back within a pass. A negative setup time makes a session end before it starts, and the source does not reject it.
- Intervals.SortByStart: stability of the sort is not stated beyond the already-sorted case.
- src/reflow/reflow.service.ts, src/main.ts and src/index.ts are not part of this model. They are a stub, a console demo and re-exports.

## Findings

| source | as written | input that shows it | evidently intended | confidence | as-written member | corrected member |
|---|---|---|---|---|---|---|
| src/reflow/globalSchedule.ts:197-235 | a shift interval with end <= start (endHour <= startHour) is used as is. When no maintenance window and no event is listed on that day, nothing fits, and the cursor is set to the interval's end, which is not after the cursor. getNextShiftInterval then returns the same interval and the loop never ends | work center with shifts `[{dayOfWeek: 4, startHour: 8, endHour: 8}]`, no maintenance windows and no events, work order starting 1970-01-01T08:00Z with positive duration | each pass moves the cursor forward, or the placement gives up | not executed | Packing.EmptyShiftStalls | Schedule.GlobalSchedule.AddWorkOrder |

The corrected AddWorkOrder returns `Err(EmptyShift)` on such an interval. Its loop is proved to terminate, and `Packing.ShiftStepAdvances` proves that every other pass moves the cursor strictly forward while work remains.
