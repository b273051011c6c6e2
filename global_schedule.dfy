/** The capacity-packing scheduler (src/reflow/globalSchedule.ts): a class
    holding the work centers and the per-work-center, per-UTC-day index of
    committed events, and placing one work order at a time. */
module Schedule {
  import opened Types
  import opened Intervals
  import opened Calendar
  import opened Packing

  /** Why addWorkOrder gives up. The first three are the source's throws
      (unknown work center, no shift within the scan, and reading the first
      session of an empty list); EmptyShift is the guard this model adds
      against a shift interval of no length. */
  datatype PlaceError = WorkCenterNotFound | NoShiftFound | NoSessions | EmptyShift

  /** The lookup table from work-center id to work center: the ids of the
      list, each mapped to a work center carrying it. */
  function IndexById(wcs: seq<WorkCenter>): (m: map<string, WorkCenter>)
    ensures forall id :: id in m <==> exists i :: 0 <= i < |wcs| && wcs[i].docId == id
    ensures forall id :: id in m ==> m[id].docId == id
  {
    if |wcs| == 0 then map[]
    else
      var init := wcs[..|wcs| - 1];
      assert forall i :: 0 <= i < |wcs| - 1 ==> init[i] == wcs[i];
      IndexById(init)[wcs[|wcs| - 1].docId := wcs[|wcs| - 1]]
  }

  /** As with a Map built from pairs, a later work center with the same id
      replaces an earlier one: each id maps to the last carrying it. */
  lemma {:induction false} IndexByIdLastWins(wcs: seq<WorkCenter>, i: int)
    requires 0 <= i < |wcs|
    requires forall j :: i < j < |wcs| ==> wcs[j].docId != wcs[i].docId
    ensures IndexById(wcs)[wcs[i].docId] == wcs[i]
    decreases |wcs|
  {
    if i < |wcs| - 1 {
      var init := wcs[..|wcs| - 1];
      assert init[i] == wcs[i];
      IndexByIdLastWins(init, i);
    }
  }

  // ---------------------------------------------------------------------
  // The passes of addWorkOrder as a function of the state it starts from

  /** The state of addWorkOrder between two passes of its loop: the event
      index, the sessions placed so far, the work left, the cursor and the
      notes. */
  datatype Placement = Placement(index: EventIndex, sessions: seq<Session>, remaining: int, cursor: int, notes: seq<string>)

  /** How the passes end: the state after the last pass, and the error that
      stopped them, if one did. */
  datatype Run = Run(final: Placement, failure: Option<PlaceError>)

  /** The notes validateInitialSchedule adds: the no-shift note, exactly
      when the start is unreadable or no shift is configured for its
      weekday. */
  function StartNotes(data: WorkOrderData, wc: WorkCenter): (r: seq<string>)
    ensures r == [] || r == [NO_SHIFT_ON_START_NOTE]
    ensures r == [] <==>
      data.startValid && exists i :: 0 <= i < |wc.shifts| && wc.shifts[i].dayOfWeek == Weekday(DayKey(data.startDate))
  {
    FindShiftSpec(wc.shifts, Weekday(DayKey(data.startDate)));
    if data.startValid && FindShift(wc.shifts, Weekday(DayKey(data.startDate))).Some? then []
    else [NO_SHIFT_ON_START_NOTE]
  }

  /** A pass over the shift interval `shift`: its conflicts as read from
      the index, the work packed into its free slots and their events
      recorded, and the maintenance note when the pass starts inside a
      conflict. */
  function PassOver(wc: WorkCenter, woId: string, data: WorkOrderData, p: Placement, shift: Interval): (r: Placement)
    ensures Advanced(p, r, shift)
  {
    var conflicts := PassConflicts(wc, p.index, shift);
    var st := ShiftStep(shift, conflicts, p.cursor, p.remaining, data.setupTimeMinutes, p.sessions);
    var note := if InConflict(conflicts, PassStart(shift, conflicts, p.cursor)) then [MAINTENANCE_CONFLICT_NOTE] else [];
    AppendSlices(p.sessions, st.placed);
    AppendSlices(p.notes, note);
    Placement(PassIndex(wc, woId, data, p.index, shift, st.placed),
              p.sessions + st.placed, st.remaining, st.cursor, p.notes + note)
  }

  /** What a pass over `shift` from `p` to `q` keeps: the earlier sessions
      stay as a prefix, the work left is the work owed minus the work of the
      new sessions and is never negative, a pass that leaves work ends at the
      shift end, and at most the maintenance note is added. */
  predicate Advanced(p: Placement, q: Placement, shift: Interval) {
    && |p.sessions| <= |q.sessions| && q.sessions[..|p.sessions|] == p.sessions
    && (p.remaining > 0 ==> 0 <= q.remaining == p.remaining - SumWork(q.sessions[|p.sessions|..]))
    && (q.remaining > 0 ==> q.cursor == shift.end)
    && (q.notes == p.notes || q.notes == p.notes + [MAINTENANCE_CONFLICT_NOTE])
  }

  /** The conflicts of a pass over `shift`, as read from `index`. */
  function PassConflicts(wc: WorkCenter, index: EventIndex, shift: Interval): seq<Interval> {
    Conflicts(wc.maintenanceWindows, EventsOnDays(index, wc.docId, ShiftDayKeys(shift)), shift)
  }

  /** The index after a pass over `shift` that placed `placed`: the days of
      the shift read, then the events of the sessions recorded. */
  function PassIndex(wc: WorkCenter, woId: string, data: WorkOrderData, index: EventIndex, shift: Interval, placed: seq<Session>): EventIndex {
    Record(TouchDays(index, wc.docId, ShiftDayKeys(shift)), wc.docId, EventsFor(woId, data, placed))
  }

  /** One pass of the loop: over the next shift interval from the cursor,
      failing when there is none or it is empty. With work left, a pass
      moves the cursor strictly forward. */
  function Pass(wc: WorkCenter, woId: string, data: WorkOrderData, p: Placement): (r: Result<Placement, PlaceError>)
    ensures r.Ok? && p.remaining > 0 && r.value.remaining > 0 ==> r.value.cursor > p.cursor
  {
    match NextShift(wc.shifts, p.cursor, DEFAULT_LOOKAHEAD_DAYS)
    case Err(_) => Err(PlaceError.NoShiftFound)
    case Ok(shift) =>
      if shift.end <= shift.start then Err(EmptyShift)
      else Ok(PassOver(wc, woId, data, p, shift))
  }

  /** A pass over `shift` from `p` ends in `q` when `q` holds what each
      step of the pass computes. */
  lemma PassOverIs(wc: WorkCenter, woId: string, data: WorkOrderData, p: Placement, shift: Interval,
                   conflicts: seq<Interval>, pastConflict: int, placed: seq<Session>, q: Placement)
    requires conflicts == PassConflicts(wc, p.index, shift)
    requires pastConflict == PassStart(shift, conflicts, p.cursor)
    requires placed == PackSessions(Slots(shift, conflicts, pastConflict), data.setupTimeMinutes, p.sessions, p.remaining)
    requires q.index == PassIndex(wc, woId, data, p.index, shift, placed)
    requires q.sessions == p.sessions + placed && q.remaining == p.remaining - SumWork(placed)
    requires q.cursor == if q.remaining > 0 then shift.end else if |placed| == 0 then pastConflict else placed[|placed| - 1].endDate
    requires q.notes == p.notes + (if InConflict(conflicts, pastConflict) then [MAINTENANCE_CONFLICT_NOTE] else [])
    ensures PassOver(wc, woId, data, p, shift) == q
  {
    var st := ShiftStep(shift, conflicts, p.cursor, p.remaining, data.setupTimeMinutes, p.sessions);
    assert st.placed == placed;
    assert st.remaining == q.remaining;
    assert st.cursor == q.cursor;
  }

  /** Any pass over `shift` commits exactly the events of the sessions it
      places, keeps every event under the day of its start, places them
      clear of the shift's conflicts, and adds only known notes. */
  lemma PassOverCommits(wc: WorkCenter, woId: string, data: WorkOrderData, p: Placement, shift: Interval)
    ensures var events := EventsOnDays(p.index, wc.docId, ShiftDayKeys(shift));
      var st := ShiftStep(shift, Conflicts(wc.maintenanceWindows, events, shift), p.cursor, p.remaining, data.setupTimeMinutes, p.sessions);
      var q := PassOver(wc, woId, data, p, shift);
      && Committed(p.index, q.index, wc.docId, EventsFor(woId, data, st.placed))
      && (IndexedByDay(p.index) ==> IndexedByDay(q.index))
      && KeepsClear(st.placed, wc.maintenanceWindows, shift, events)
      && (KnownNotes(p.notes) ==> KnownNotes(q.notes))
  {
    var days := ShiftDayKeys(shift);
    var events := EventsOnDays(p.index, wc.docId, days);
    var conflicts := Conflicts(wc.maintenanceWindows, events, shift);
    var st := ShiftStep(shift, conflicts, p.cursor, p.remaining, data.setupTimeMinutes, p.sessions);
    var q := PassOver(wc, woId, data, p, shift);
    TouchedRecordCommits(p.index, wc.docId, days, EventsFor(woId, data, st.placed));
    ShiftStepAvoidsConflicts(wc.maintenanceWindows, events, shift, p.cursor, p.remaining, data.setupTimeMinutes, p.sessions);
    if InConflict(conflicts, PassStart(shift, conflicts, p.cursor)) {
      if KnownNotes(p.notes) {
        KnownNotesAppend(p.notes, MAINTENANCE_CONFLICT_NOTE);
      }
    } else {
      assert q.notes == p.notes + [];
      assert p.notes + [] == p.notes;
    }
  }

  /** A pass over a shift interval that is not empty and holds the cursor
      or lies ahead of it adds sessions after the earlier ones without
      taking more work than is left, keeps the shape and setup rule of all
      sessions, commits exactly the events of the new sessions, and adds
      only known notes. */
  lemma PassSpec(wc: WorkCenter, woId: string, data: WorkOrderData, p: Placement, shift: Interval, lo: int)
    requires shift.start < shift.end && ((shift.start <= p.cursor < shift.end) || shift.start >= p.cursor)
    requires p.remaining > 0 && lo <= p.cursor
    requires AllShaped(p.sessions, data.setupTimeMinutes, lo) && SetupRule(p.sessions, data.setupTimeMinutes)
    ensures var q := PassOver(wc, woId, data, p, shift);
      && |p.sessions| <= |q.sessions| && q.sessions[..|p.sessions|] == p.sessions
      && 0 <= q.remaining == p.remaining - SumWork(q.sessions[|p.sessions|..])
      && AllShaped(q.sessions, data.setupTimeMinutes, lo) && SetupRule(q.sessions, data.setupTimeMinutes)
      && Committed(p.index, q.index, wc.docId, EventsFor(woId, data, q.sessions[|p.sessions|..]))
      && (IndexedByDay(p.index) ==> IndexedByDay(q.index))
      && (KnownNotes(p.notes) ==> KnownNotes(q.notes))
  {
    var days := ShiftDayKeys(shift);
    var conflicts := Conflicts(wc.maintenanceWindows, EventsOnDays(p.index, wc.docId, days), shift);
    var st := ShiftStep(shift, conflicts, p.cursor, p.remaining, data.setupTimeMinutes, p.sessions);
    var q := PassOver(wc, woId, data, p, shift);
    assert q.sessions[..|p.sessions|] == p.sessions && q.sessions[|p.sessions|..] == st.placed;
    ShiftStepAdvances(shift, conflicts, p.cursor, p.remaining, data.setupTimeMinutes, p.sessions, lo);
    PassOverCommits(wc, woId, data, p, shift);
  }

  /** The passes of the loop from `p` while the start is readable, work is
      left and the cursor is before `horizonEnd`; unless a pass fails, the
      final state meets none of those conditions. */
  function Placements(wc: WorkCenter, woId: string, data: WorkOrderData, horizonEnd: int, p: Placement): (r: Run)
    ensures r.failure.None? ==> !(data.startValid && r.final.remaining > 0 && r.final.cursor < horizonEnd)
    ensures r.failure == None || r.failure == Some(PlaceError.NoShiftFound) || r.failure == Some(EmptyShift)
    decreases if p.remaining > 0 then 1 else 0, horizonEnd - p.cursor
  {
    if !(data.startValid && p.remaining > 0 && p.cursor < horizonEnd) then Run(p, None)
    else
      match Pass(wc, woId, data, p)
      case Err(e) => Run(p, Some(e))
      case Ok(q) => Placements(wc, woId, data, horizonEnd, q)
  }

  /** A prefix of a prefix is a prefix, and what the longest adds past
      the shortest is what each step adds. */
  lemma PrefixCompose<T>(x: seq<T>, y: seq<T>, z: seq<T>)
    requires |x| <= |y| <= |z| && y[..|x|] == x && z[..|y|] == y
    ensures z[..|x|] == x && z[|x|..] == y[|x|..] + z[|y|..]
  {
    assert z[..|x|] == z[..|y|][..|x|];
    assert z[|x|..] == z[|x|..|y|] + z[|y|..];
  }

  /** All passes together: the sessions placed extend the earlier ones, the
      work left is what the new sessions did not take (never negative when
      none was owed), every session keeps its shape and the setup rule,
      exactly the new sessions' events are committed, and only known notes
      are added. */
  lemma {:induction false} PlacementsSpec(wc: WorkCenter, woId: string, data: WorkOrderData, horizonEnd: int, p: Placement, lo: int)
    requires p.remaining > 0 ==> lo <= p.cursor
    requires AllShaped(p.sessions, data.setupTimeMinutes, lo) && SetupRule(p.sessions, data.setupTimeMinutes)
    ensures var out := Placements(wc, woId, data, horizonEnd, p).final;
      && |p.sessions| <= |out.sessions| && out.sessions[..|p.sessions|] == p.sessions
      && out.remaining == p.remaining - SumWork(out.sessions[|p.sessions|..])
      && (p.remaining >= 0 ==> out.remaining >= 0)
      && AllShaped(out.sessions, data.setupTimeMinutes, lo) && SetupRule(out.sessions, data.setupTimeMinutes)
      && Committed(p.index, out.index, wc.docId, EventsFor(woId, data, out.sessions[|p.sessions|..]))
      && (IndexedByDay(p.index) ==> IndexedByDay(out.index))
      && (KnownNotes(p.notes) ==> KnownNotes(out.notes))
    decreases if p.remaining > 0 then 1 else 0, horizonEnd - p.cursor
  {
    var out := Placements(wc, woId, data, horizonEnd, p).final;
    if !(data.startValid && p.remaining > 0 && p.cursor < horizonEnd) || Pass(wc, woId, data, p).Err? {
      assert out == p;
      assert p.sessions[|p.sessions|..] == [] && p.sessions[..|p.sessions|] == p.sessions;
      CommittedNothing(p.index, p.index, wc.docId);
    } else {
      var shift := NextShift(wc.shifts, p.cursor, DEFAULT_LOOKAHEAD_DAYS).value;
      var q := PassOver(wc, woId, data, p, shift);
      PassSpec(wc, woId, data, p, shift, lo);
      PlacementsSpec(wc, woId, data, horizonEnd, q, lo);
      var a := q.sessions[|p.sessions|..];
      var b := out.sessions[|q.sessions|..];
      PrefixCompose(p.sessions, q.sessions, out.sessions);
      SumWorkAppend(a, b);
      EventsForAppend(woId, data, a, b);
      CommittedTrans(p.index, q.index, out.index, wc.docId, EventsFor(woId, data, a), EventsFor(woId, data, b));
    }
  }

  /** The passes of addWorkOrder from its start, with no sessions yet, the
      full duration to place and the cursor at the start date: when they
      end without error having placed sessions, the start was readable,
      some work was owed, each session keeps its shape and the setup rule,
      the work placed is positive and at most the duration, all of it is
      placed unless the cursor reached the horizon, and exactly the
      sessions' events are committed. */
  lemma FromStartSpec(wc: WorkCenter, woId: string, data: WorkOrderData, horizonEnd: int, index: EventIndex, notes: seq<string>)
    ensures var run := Placements(wc, woId, data, horizonEnd, Placement(index, [], data.durationMinutes, data.startDate, notes));
      var ss := run.final.sessions;
      run.failure.None? && |ss| > 0 ==>
        && data.startValid && data.durationMinutes > 0
        && AllShaped(ss, data.setupTimeMinutes, data.startDate) && SetupRule(ss, data.setupTimeMinutes)
        && 0 < SumWork(ss) <= data.durationMinutes
        && (SumWork(ss) == data.durationMinutes || run.final.cursor >= horizonEnd)
        && Committed(index, run.final.index, wc.docId, EventsFor(woId, data, ss))
        && (KnownNotes(notes) ==> KnownNotes(run.final.notes))
  {
    var start := Placement(index, [], data.durationMinutes, data.startDate, notes);
    var run := Placements(wc, woId, data, horizonEnd, start);
    var ss := run.final.sessions;
    if !data.startValid || data.durationMinutes <= 0 {
      assert run.final == start;
    } else {
      PlacementsSpec(wc, woId, data, horizonEnd, start, data.startDate);
      assert ss[..0] == [] && ss[0..] == ss;
      if |ss| > 0 {
        SumWorkPositive(ss, data.setupTimeMinutes, data.startDate);
      }
    }
  }

  class GlobalSchedule {
    const workCenters: map<string, WorkCenter>
    var scheduledEvents: EventIndex
    /** The search horizon of addWorkOrder, in days. */
    const MAX_DAYS_LOOKAHEAD: int := 365

    /** Every known work center has a day index and nothing else has one,
        and every event sits under the UTC day of its start. */
    ghost predicate Valid()
      reads this
    {
      && scheduledEvents.Keys == workCenters.Keys
      && (forall id :: id in workCenters ==> workCenters[id].docId == id)
      && IndexedByDay(scheduledEvents)
    }

    /** Indexes the work centers by id and gives each an empty day index. */
    constructor (wcs: seq<WorkCenter>)
      ensures workCenters == IndexById(wcs)
      ensures scheduledEvents == map id | id in workCenters :: map[]
      ensures forall w, d :: Lookup(scheduledEvents, w, d) == []
      ensures Valid()
    {
      workCenters := IndexById(wcs);
      scheduledEvents := map id | id in IndexById(wcs) :: map[];
    }

    /** getScheduledEvents: the list stored for (wcId, dateKey); a missing
        day of a known work center gets an empty list installed. */
    method GetScheduledEvents(wcId: string, dateKey: int) returns (events: seq<ScheduledEvent>)
      modifies this
      ensures events == Lookup(old(scheduledEvents), wcId, dateKey)
      ensures wcId in old(scheduledEvents) ==>
        scheduledEvents == old(scheduledEvents)[wcId := old(scheduledEvents)[wcId][dateKey := events]]
      ensures wcId !in old(scheduledEvents) ==> scheduledEvents == old(scheduledEvents)
      ensures scheduledEvents == Touch(old(scheduledEvents), wcId, dateKey)
      ensures scheduledEvents.Keys == old(scheduledEvents).Keys
      ensures forall w, d :: Lookup(scheduledEvents, w, d) == Lookup(old(scheduledEvents), w, d)
    {
      if wcId in scheduledEvents {
        var wcSchedule := scheduledEvents[wcId];
        if dateKey in wcSchedule {
          events := wcSchedule[dateKey];
          assert wcSchedule[dateKey := events] == wcSchedule;
          assert scheduledEvents[wcId := wcSchedule] == scheduledEvents;
        } else {
          events := [];
          scheduledEvents := scheduledEvents[wcId := wcSchedule[dateKey := events]];
        }
      } else {
        events := [];
      }
    }

    /** validateInitialSchedule: notes that no shift is configured for the
        weekday of the start (an unreadable start never has one). */
    method ValidateInitialSchedule(wo: WorkOrderData, workCenter: WorkCenter, explanation: seq<string>) returns (notes: seq<string>)
      ensures notes == explanation || notes == explanation + [NO_SHIFT_ON_START_NOTE]
      ensures notes == explanation + StartNotes(wo, workCenter)
      ensures |notes| == |explanation| <==>
        wo.startValid && exists i :: 0 <= i < |workCenter.shifts| && workCenter.shifts[i].dayOfWeek == Weekday(DayKey(wo.startDate))
    {
      FindShiftSpec(workCenter.shifts, Weekday(DayKey(wo.startDate)));
      notes := explanation;
      var hasShiftOnStartDay := wo.startValid && FindShift(workCenter.shifts, Weekday(DayKey(wo.startDate))).Some?;
      if !hasShiftOnStartDay {
        notes := notes + [NO_SHIFT_ON_START_NOTE];
      }
    }

    /** findConflictsForShift: the overlapping maintenance windows and the
        events of the shift's start day (and end day, when another) of the
        work center, sorted by start. Reading a missing day installs an
        empty list, which no lookup can tell from a missing one. */
    method FindConflictsForShift(workCenter: WorkCenter, shift: Interval) returns (conflicts: seq<Interval>)
      modifies this
      ensures conflicts == Conflicts(workCenter.maintenanceWindows,
                                     EventsOnDays(old(scheduledEvents), workCenter.docId, ShiftDayKeys(shift)), shift)
      ensures SortedByStart(conflicts)
      ensures scheduledEvents == TouchDays(old(scheduledEvents), workCenter.docId, ShiftDayKeys(shift))
      ensures scheduledEvents.Keys == old(scheduledEvents).Keys
      ensures forall w, d :: Lookup(scheduledEvents, w, d) == Lookup(old(scheduledEvents), w, d)
    {
      var maintenanceWindows := OverlappingWindows(workCenter.maintenanceWindows, shift);
      var dayKeys := ShiftDayKeys(shift);
      var existingEvents: seq<ScheduledEvent> := [];
      for i := 0 to |dayKeys|
        invariant existingEvents == EventsOnDays(old(scheduledEvents), workCenter.docId, dayKeys[..i])
        invariant scheduledEvents == TouchDays(old(scheduledEvents), workCenter.docId, dayKeys[..i])
      {
        var dayEvents := GetScheduledEvents(workCenter.docId, dayKeys[i]);
        assert dayKeys[..i + 1][..i] == dayKeys[..i];
        existingEvents := existingEvents + dayEvents;
      }
      assert dayKeys[..|dayKeys|] == dayKeys;
      conflicts := SortByStart(WindowIntervals(maintenanceWindows) + EventIntervals(existingEvents));
    }

    /** findAvailableSlots: walks the conflicts keeping the latest end seen
        and emits the gaps before them and the tail up to the shift end,
        none starting before `currentTime`; notes a maintenance conflict when
        `currentTime` lies in one of the conflicts. */
    method FindAvailableSlots(shift: Interval, conflicts: seq<Interval>, currentTime: int, explanation: seq<string>)
      returns (slots: seq<Interval>, notes: seq<string>)
      ensures slots == Slots(shift, conflicts, currentTime)
      ensures forall k :: 0 <= k < |slots| ==> shift.start <= slots[k].start && currentTime <= slots[k].start < slots[k].end
      ensures SortedByStart(conflicts) ==> forall k, i :: 0 <= k < |slots| && 0 <= i < |conflicts| ==> Disjoint(slots[k], conflicts[i])
      ensures notes == explanation + (if InConflict(conflicts, currentTime) then [MAINTENANCE_CONFLICT_NOTE] else [])
    {
      slots := [];
      notes := explanation;
      var lastEnd := shift.start;
      var currentTimeConflicts := InConflict(conflicts, currentTime);
      if currentTimeConflicts {
        notes := notes + [MAINTENANCE_CONFLICT_NOTE];
      }
      for i := 0 to |conflicts|
        invariant Slots(shift, conflicts, currentTime) == slots + SlotsFrom(conflicts[i..], lastEnd, currentTime, shift.end)
      {
        var conflict := conflicts[i];
        SlotsFromStep(conflicts, i, lastEnd, currentTime, shift.end);
        ghost var before := slots;
        ghost var gap := Gap(conflict, lastEnd, currentTime);
        if conflict.start > lastEnd {
          var slotStart := Max(lastEnd, currentTime);
          if slotStart < conflict.start {
            slots := slots + [Interval(slotStart, conflict.start)];
          } else {
            assert gap == [];
          }
        } else {
          assert gap == [];
        }
        assert slots == before + gap;
        lastEnd := Max(lastEnd, conflict.end);
        AppendAssoc(before, gap, SlotsFrom(conflicts[i + 1..], lastEnd, currentTime, shift.end));
      }
      assert conflicts[|conflicts|..] == [];
      if lastEnd < shift.end {
        var slotStart := Max(lastEnd, currentTime);
        if slotStart < shift.end {
          slots := slots + [Interval(slotStart, shift.end)];
        }
      }
      SlotsAfterCursor(shift, conflicts, currentTime);
      if SortedByStart(conflicts) {
        SlotsFromAvoidConflicts(conflicts, shift.start, currentTime, shift.end);
      }
    }

    /** scheduleWorkInSlots: packs the remaining work into the slots in
        order, appending each session to `sessions` and committing its event
        under the day of its start; returns the sessions, the work left and
        the end of the last session placed (or `currentTime`). */
    method ScheduleWorkInSlots(slots: seq<Interval>, woId: string, wo: WorkOrderData, wcId: string,
                               sessions: seq<Session>, remainingDuration: int, currentTime: int)
      returns (sessions': seq<Session>, duration: int, time: int)
      modifies this
      ensures var placed := PackSessions(slots, wo.setupTimeMinutes, sessions, remainingDuration);
        && sessions' == sessions + placed
        && duration == remainingDuration - SumWork(placed)
        && time == (if |placed| == 0 then currentTime else placed[|placed| - 1].endDate)
        && scheduledEvents == Record(old(scheduledEvents), wcId, EventsFor(woId, wo, placed))
    {
      ghost var start := PackState(sessions, remainingDuration, currentTime);
      ghost var placed: seq<Session> := [];
      sessions' := sessions;
      duration := remainingDuration;
      time := currentTime;
      // The source's `break` when no work is left is the second conjunct.
      var i := 0;
      while i < |slots| && duration > 0
        invariant 0 <= i <= |slots|
        invariant PackLoop(slots, 0, wo.setupTimeMinutes, start) == PackLoop(slots, i, wo.setupTimeMinutes, PackState(sessions', duration, time))
        invariant sessions' == sessions + placed
        invariant scheduledEvents == Record(old(scheduledEvents), wcId, EventsFor(woId, wo, placed))
      {
        // The length, setup and fit checks that `continue` past a slot.
        var pack := PackOne(slots[i], wo.setupTimeMinutes, sessions', duration);
        if pack.Some? {
          var session := pack.value;
          AppendAssoc(sessions, placed, [session]);
          assert PackLoop(slots, i, wo.setupTimeMinutes, PackState(sessions', duration, time)) ==
                 PackLoop(slots, i + 1, wo.setupTimeMinutes, PackState(sessions' + [session], duration - session.durationTimeMinutes, session.endDate));
          sessions' := sessions' + [session];
          RecordEvent(wcId, EventFor(woId, wo, session));
          RecordSession(old(scheduledEvents), wcId, woId, wo, placed, session);
          placed := placed + [session];
          duration := duration - session.durationTimeMinutes;
          time := session.endDate;
        } else {
          assert PackLoop(slots, i, wo.setupTimeMinutes, PackState(sessions', duration, time)) ==
                 PackLoop(slots, i + 1, wo.setupTimeMinutes, PackState(sessions', duration, time));
        }
        i := i + 1;
      }
      PackLoopSessions(slots, 0, wo.setupTimeMinutes, sessions, remainingDuration, currentTime);
      assert slots[0..] == slots;
      assert placed == sessions'[|sessions|..];
    }

    /** Records the event of a session (lines 164-166): it is appended to
        the list of its work center for the UTC day of its start, installing
        that list if the day had none. */
    method RecordEvent(wcId: string, scheduledEvent: ScheduledEvent)
      modifies this
      ensures scheduledEvents == Push(old(scheduledEvents), wcId, DayKey(scheduledEvent.startDate), scheduledEvent)
    {
      var dayKey := DayKey(scheduledEvent.startDate);
      var dayEvents := GetScheduledEvents(wcId, dayKey);
      if wcId in scheduledEvents {
        assert scheduledEvents[wcId][dayKey := dayEvents + [scheduledEvent]] ==
               old(scheduledEvents)[wcId][dayKey := dayEvents + [scheduledEvent]];
        scheduledEvents := scheduledEvents[wcId := scheduledEvents[wcId][dayKey := dayEvents + [scheduledEvent]]];
      }
    }

    /** updateWorkOrderTiming: the work order takes the sessions, the start
        of the first and the end of the last. The sessions are stored first;
        reading the first session of an empty list then fails, which `ok`
        reports, with the work order keeping the empty list. */
    method UpdateWorkOrderTiming(wo: WorkOrder, sessions: seq<Session>) returns (ok: bool)
      modifies wo
      ensures ok <==> |sessions| > 0
      ensures ok ==> wo.data == old(wo.data).(sessions := sessions,
                                              startDate := sessions[0].startDate,
                                              endDate := sessions[|sessions| - 1].endDate)
      ensures !ok ==> wo.data == old(wo.data).(sessions := sessions)
    {
      wo.data := wo.data.(sessions := sessions);
      if |sessions| == 0 {
        return false;
      }
      wo.data := wo.data.(startDate := sessions[0].startDate);
      wo.data := wo.data.(endDate := sessions[|sessions| - 1].endDate);
      return true;
    }

    /** The start of a pass (lines 202-214): the cursor moves to the shift
        start if the shift lies ahead, the shift's conflicts are read, and
        the cursor moves past the first conflict holding it. */
    method EnterShift(workCenter: WorkCenter, shift: Interval, currentTime: int) returns (conflicts: seq<Interval>, time: int)
      modifies this
      ensures conflicts == Conflicts(workCenter.maintenanceWindows,
                                     EventsOnDays(old(scheduledEvents), workCenter.docId, ShiftDayKeys(shift)), shift)
      ensures scheduledEvents == TouchDays(old(scheduledEvents), workCenter.docId, ShiftDayKeys(shift))
      ensures time == PassStart(shift, conflicts, currentTime)
    {
      time := currentTime;
      if shift.start > time {
        time := shift.start;
      }
      conflicts := FindConflictsForShift(workCenter, shift);
      var activeConflict := ActiveConflict(conflicts, time);
      if activeConflict.Some? {
        time := activeConflict.value.end;
      }
    }

    /** One pass of the loop of addWorkOrder over a shift interval (lines
        202-233): the cursor moves to the shift start if the shift lies
        ahead and past the conflict holding it, the free slots are packed,
        and the cursor moves to the shift end if work is left. */
    method PlaceInShift(workCenter: WorkCenter, shift: Interval, woId: string, data: WorkOrderData,
                        sessions: seq<Session>, remainingDuration: int, currentTime: int, explanation: seq<string>)
      returns (sessions': seq<Session>, remainingDuration': int, currentTime': int, explanation': seq<string>)
      requires Valid()
      modifies this
      ensures Valid()
      ensures Placement(scheduledEvents, sessions', remainingDuration', currentTime', explanation') ==
              PassOver(workCenter, woId, data, Placement(old(scheduledEvents), sessions, remainingDuration, currentTime, explanation), shift)
      ensures var st := ShiftStep(shift, Conflicts(workCenter.maintenanceWindows,
                                                   EventsOnDays(old(scheduledEvents), workCenter.docId, ShiftDayKeys(shift)), shift),
                                  currentTime, remainingDuration, data.setupTimeMinutes, sessions);
        && Committed(old(scheduledEvents), scheduledEvents, workCenter.docId, EventsFor(woId, data, st.placed))
        && KeepsClear(st.placed, workCenter.maintenanceWindows, shift,
                      EventsOnDays(old(scheduledEvents), workCenter.docId, ShiftDayKeys(shift)))
      ensures KnownNotes(explanation) ==> KnownNotes(explanation')
    {
      var shiftConflicts;
      shiftConflicts, currentTime' := EnterShift(workCenter, shift, currentTime);
      ghost var pastConflict := currentTime';
      var availableSlots;
      availableSlots, explanation' := FindAvailableSlots(shift, shiftConflicts, currentTime', explanation);
      sessions', remainingDuration', currentTime' :=
        ScheduleWorkInSlots(availableSlots, woId, data, workCenter.docId, sessions, remainingDuration, currentTime');
      ghost var placed := PackSessions(availableSlots, data.setupTimeMinutes, sessions, remainingDuration);
      assert currentTime' == if |placed| == 0 then pastConflict else placed[|placed| - 1].endDate;
      if remainingDuration' > 0 {
        currentTime' := shift.end;
      }
      PassOverIs(workCenter, woId, data, Placement(old(scheduledEvents), sessions, remainingDuration, currentTime, explanation), shift,
                 shiftConflicts, pastConflict, placed, Placement(scheduledEvents, sessions', remainingDuration', currentTime', explanation'));
      PassOverCommits(workCenter, woId, data, Placement(old(scheduledEvents), sessions, remainingDuration, currentTime, explanation), shift);
    }

    /** The loop of addWorkOrder (lines 197-235): passes over the next
        shift interval while the start is readable, work is left and the
        cursor is before `horizonEnd`. Returns the state after the last pass
        and the error that stopped the passes, if one did: the source throws
        when no shift interval is found. */
    method RunPasses(workCenter: WorkCenter, woId: string, data: WorkOrderData, horizonEnd: int, explanation: seq<string>)
      returns (sessions: seq<Session>, remainingDuration: int, currentTime: int, notes: seq<string>, failure: Option<PlaceError>)
      requires Valid()
      modifies this
      ensures Valid()
      ensures Run(Placement(scheduledEvents, sessions, remainingDuration, currentTime, notes), failure) ==
              Placements(workCenter, woId, data, horizonEnd, Placement(old(scheduledEvents), [], data.durationMinutes, data.startDate, explanation))
    {
      sessions := [];
      remainingDuration := data.durationMinutes;
      currentTime := data.startDate;
      notes := explanation;
      ghost var run := Placements(workCenter, woId, data, horizonEnd, Placement(scheduledEvents, sessions, remainingDuration, currentTime, notes));
      while data.startValid && remainingDuration > 0 && currentTime < horizonEnd
        invariant Valid()
        invariant run == Placements(workCenter, woId, data, horizonEnd, Placement(scheduledEvents, sessions, remainingDuration, currentTime, notes))
        decreases if remainingDuration > 0 then 1 else 0, horizonEnd - currentTime
      {
        ghost var here := Placement(scheduledEvents, sessions, remainingDuration, currentTime, notes);
        var shiftResult := GetNextShiftInterval(workCenter, currentTime, DEFAULT_LOOKAHEAD_DAYS);
        if shiftResult.Err? {
          assert run == Run(here, Some(PlaceError.NoShiftFound));
          return sessions, remainingDuration, currentTime, notes, Some(PlaceError.NoShiftFound);
        }
        var shiftInterval := shiftResult.value;
        if shiftInterval.end <= shiftInterval.start {
          assert run == Run(here, Some(EmptyShift));
          return sessions, remainingDuration, currentTime, notes, Some(EmptyShift);
        }
        sessions, remainingDuration, currentTime, notes :=
          PlaceInShift(workCenter, shiftInterval, woId, data, sessions, remainingDuration, currentTime, notes);
        assert Pass(workCenter, woId, data, here) == Ok(Placement(scheduledEvents, sessions, remainingDuration, currentTime, notes));
      }
      failure := None;
    }

    /** addWorkOrder: walks forward shift by shift from the work order's
        start, at most MAX_DAYS_LOOKAHEAD days, packing the work into the
        free slots of each shift; then rewrites the work order's sessions
        and timing and returns the explanation notes. The outcome is that of
        Placements from the start: the error that stopped the passes, or,
        when they placed nothing, the failure of reading the first of no
        sessions after the empty list was stored. */
    method AddWorkOrder(wo: WorkOrder) returns (r: Result<seq<string>, PlaceError>)
      requires Valid()
      modifies this, wo
      ensures Valid()
      ensures r == Err(WorkCenterNotFound) <==> old(wo.data).workCenterId !in workCenters
      ensures old(wo.data).workCenterId !in workCenters ==> wo.data == old(wo.data) && scheduledEvents == old(scheduledEvents)
      ensures old(wo.data).workCenterId in workCenters ==>
        var data := old(wo.data);
        var wc := workCenters[data.workCenterId];
        var run := Placements(wc, wo.docId, data, data.startDate + DayStart(MAX_DAYS_LOOKAHEAD),
                              Placement(old(scheduledEvents), [], data.durationMinutes, data.startDate, StartNotes(data, wc)));
        var ss := run.final.sessions;
        && scheduledEvents == run.final.index
        && (run.failure.Some? ==> r == Err(run.failure.value) && wo.data == data)
        && (run.failure.None? && |ss| == 0 ==> r == Err(NoSessions) && wo.data == data.(sessions := []))
        && (run.failure.None? && |ss| > 0 ==>
              && r == Ok(run.final.notes)
              && wo.data == data.(sessions := ss, startDate := ss[0].startDate, endDate := ss[|ss| - 1].endDate)
              && (SumWork(ss) == data.durationMinutes || run.final.cursor >= data.startDate + DayStart(MAX_DAYS_LOOKAHEAD)))
      ensures r.Ok? ==>
        var ss := wo.data.sessions;
        && |ss| > 0
        && AllShaped(ss, old(wo.data).setupTimeMinutes, old(wo.data).startDate)
        && SetupRule(ss, old(wo.data).setupTimeMinutes)
        && 0 < SumWork(ss) <= old(wo.data).durationMinutes
        && Committed(old(scheduledEvents), scheduledEvents, old(wo.data).workCenterId, EventsFor(wo.docId, old(wo.data), ss))
        && KnownNotes(r.value)
    {
      var data := wo.data;
      if data.workCenterId !in workCenters {
        return Err(WorkCenterNotFound);
      }
      var workCenter := workCenters[data.workCenterId];
      var explanation: seq<string> := [];
      explanation := ValidateInitialSchedule(data, workCenter, explanation);
      assert explanation == StartNotes(data, workCenter);
      var horizonEnd := data.startDate + DayStart(MAX_DAYS_LOOKAHEAD);
      ghost var start := Placement(scheduledEvents, [], data.durationMinutes, data.startDate, explanation);
      FromStartSpec(workCenter, wo.docId, data, horizonEnd, scheduledEvents, explanation);
      var sessions, remainingDuration, currentTime, failure;
      sessions, remainingDuration, currentTime, explanation, failure := RunPasses(workCenter, wo.docId, data, horizonEnd, explanation);
      ghost var run := Run(Placement(scheduledEvents, sessions, remainingDuration, currentTime, explanation), failure);
      assert run == Placements(workCenter, wo.docId, data, horizonEnd, start);
      assert data == old(wo.data) && workCenter == workCenters[old(wo.data).workCenterId];
      assert horizonEnd == old(wo.data).startDate + DayStart(MAX_DAYS_LOOKAHEAD);
      assert start == Placement(old(scheduledEvents), [], old(wo.data).durationMinutes, old(wo.data).startDate,
                                StartNotes(old(wo.data), workCenters[old(wo.data).workCenterId]));
      assert run == Placements(workCenters[old(wo.data).workCenterId], wo.docId, old(wo.data), old(wo.data).startDate + DayStart(MAX_DAYS_LOOKAHEAD),
        Placement(old(scheduledEvents), [], old(wo.data).durationMinutes, old(wo.data).startDate, StartNotes(old(wo.data), workCenters[old(wo.data).workCenterId])));
      if failure.Some? {
        return Err(failure.value);
      }
      assert wo.data == data;
      var ok := UpdateWorkOrderTiming(wo, sessions);
      if !ok {
        return Err(NoSessions);
      }
      assert wo.data == data.(sessions := sessions, startDate := sessions[0].startDate, endDate := sessions[|sessions| - 1].endDate);
      return Ok(explanation);
    }
  }
}
