/** The placement algorithm of GlobalSchedule (src/reflow/globalSchedule.ts)
    written as functions: conflicts of a shift, free slots between them,
    greedy packing of setup and work into the slots, and the per-day event
    index. The class in global_schedule.dfy is proved to compute exactly
    these; the lemmas here state what they guarantee. */
module Packing {
  import opened Types
  import opened Intervals
  import opened Calendar

  const MAINTENANCE_CONFLICT_NOTE: string := "Maintenance window conflict"
  const NO_SHIFT_ON_START_NOTE: string := "No shift available on initial date"

  /** Every note is one of the two notes the scheduler writes. */
  predicate KnownNotes(notes: seq<string>) {
    forall k :: 0 <= k < |notes| ==> notes[k] == NO_SHIFT_ON_START_NOTE || notes[k] == MAINTENANCE_CONFLICT_NOTE
  }

  lemma KnownNotesAppend(notes: seq<string>, note: string)
    requires KnownNotes(notes) && (note == NO_SHIFT_ON_START_NOTE || note == MAINTENANCE_CONFLICT_NOTE)
    ensures KnownNotes(notes + [note])
  {
    assert forall k :: 0 <= k < |notes| ==> (notes + [note])[k] == notes[k];
  }

  function Max(a: int, b: int): int { if a >= b then a else b }
  function Min(a: int, b: int): int { if a <= b then a else b }

  /** Two intervals share no instant (touching ends do not overlap). */
  predicate Disjoint(a: Interval, b: Interval) {
    a.end <= b.start || b.end <= a.start
  }

  // ---------------------------------------------------------------------
  // Conflicts of a shift (findConflictsForShift)

  predicate OverlapsShift(w: MaintenanceWindow, shift: Interval) {
    w.endDate > shift.start && w.startDate < shift.end
  }

  /** The maintenance windows that overlap the shift, in list order. */
  function OverlappingWindows(ws: seq<MaintenanceWindow>, shift: Interval): (r: seq<MaintenanceWindow>)
    ensures forall w :: w in r <==> w in ws && OverlapsShift(w, shift)
  {
    if |ws| == 0 then []
    else
      assert forall w :: w in ws <==> w == ws[0] || w in ws[1..];
      (if OverlapsShift(ws[0], shift) then [ws[0]] else []) + OverlappingWindows(ws[1..], shift)
  }

  /** Each overlapping window is kept as often as it occurs; the others are
      dropped. */
  lemma {:induction false} OverlappingWindowsCounts(ws: seq<MaintenanceWindow>, shift: Interval, w: MaintenanceWindow)
    ensures multiset(OverlappingWindows(ws, shift))[w] == if OverlapsShift(w, shift) then multiset(ws)[w] else 0
    decreases |ws|
  {
    if |ws| > 0 {
      assert ws == [ws[0]] + ws[1..];
      OverlappingWindowsCounts(ws[1..], shift, w);
    }
  }

  /** Filtering keeps the order of the windows: the windows kept from a
      concatenation are those kept from each part, in turn. */
  lemma {:induction false} OverlappingWindowsAppend(a: seq<MaintenanceWindow>, b: seq<MaintenanceWindow>, shift: Interval)
    ensures OverlappingWindows(a + b, shift) == OverlappingWindows(a, shift) + OverlappingWindows(b, shift)
    decreases |a|
  {
    if |a| > 0 {
      assert (a + b)[1..] == a[1..] + b;
      OverlappingWindowsAppend(a[1..], b, shift);
    } else {
      assert a + b == b;
    }
  }

  function WindowIntervals(ws: seq<MaintenanceWindow>): (r: seq<Interval>)
    ensures |r| == |ws| && forall i :: 0 <= i < |ws| ==> r[i] == WindowInterval(ws[i])
  {
    seq(|ws|, i requires 0 <= i < |ws| => WindowInterval(ws[i]))
  }

  function EventIntervals(es: seq<ScheduledEvent>): (r: seq<Interval>)
    ensures |r| == |es| && forall i :: 0 <= i < |es| ==> r[i] == EventInterval(es[i])
  {
    seq(|es|, i requires 0 <= i < |es| => EventInterval(es[i]))
  }

  /** The day keys whose events can collide with the shift: the day of its
      start, and the day of its end when that is another day. */
  function ShiftDayKeys(shift: Interval): (r: seq<int>)
    ensures 1 <= |r| <= 2 && r[0] == DayKey(shift.start) && r[|r| - 1] == DayKey(shift.end)
    ensures |r| == 2 ==> r[0] != r[1]
  {
    if DayKey(shift.end) == DayKey(shift.start) then [DayKey(shift.start)]
    else [DayKey(shift.start), DayKey(shift.end)]
  }

  /** The conflicts of a shift: the overlapping maintenance windows followed
      by the committed events, sorted by start. Each interval occurs as often
      as overlapping windows and events carry it. */
  function Conflicts(ws: seq<MaintenanceWindow>, events: seq<ScheduledEvent>, shift: Interval): (r: seq<Interval>)
    ensures SortedByStart(r)
    ensures multiset(r) == multiset(WindowIntervals(OverlappingWindows(ws, shift))) + multiset(EventIntervals(events))
  {
    SortByStart(WindowIntervals(OverlappingWindows(ws, shift)) + EventIntervals(events))
  }

  /** The conflicts are sorted by start and are exactly the overlapping
      maintenance windows plus every committed event, each as often as it
      occurs. */
  lemma ConflictsExactly(ws: seq<MaintenanceWindow>, events: seq<ScheduledEvent>, shift: Interval)
    ensures SortedByStart(Conflicts(ws, events, shift))
    ensures |Conflicts(ws, events, shift)| == |OverlappingWindows(ws, shift)| + |events|
    ensures forall c :: c in Conflicts(ws, events, shift) <==>
      (exists w :: w in ws && OverlapsShift(w, shift) && WindowInterval(w) == c) ||
      (exists e :: e in events && EventInterval(e) == c)
  {
    var mw := OverlappingWindows(ws, shift);
    var all := WindowIntervals(mw) + EventIntervals(events);
    var r := Conflicts(ws, events, shift);
    forall c
      ensures c in r <==>
        (exists w :: w in ws && OverlapsShift(w, shift) && WindowInterval(w) == c) ||
        (exists e :: e in events && EventInterval(e) == c)
    {
      assert c in r <==> c in multiset(r);
      assert c in all <==> c in multiset(all);
      UnsortedConflict(ws, events, shift, c);
    }
  }

  /** Before sorting: an interval is listed exactly when it is that of an
      overlapping window or of an event. */
  lemma UnsortedConflict(ws: seq<MaintenanceWindow>, events: seq<ScheduledEvent>, shift: Interval, c: Interval)
    ensures c in WindowIntervals(OverlappingWindows(ws, shift)) + EventIntervals(events) <==>
      (exists w :: w in ws && OverlapsShift(w, shift) && WindowInterval(w) == c) ||
      (exists e :: e in events && EventInterval(e) == c)
  {
    var mw := OverlappingWindows(ws, shift);
    var wi := WindowIntervals(mw);
    var ei := EventIntervals(events);
    if c in wi {
      var i :| 0 <= i < |wi| && wi[i] == c;
      assert mw[i] in mw;
    } else if c in ei {
      var i :| 0 <= i < |ei| && ei[i] == c;
      assert events[i] in events;
    }
    if exists w :: w in ws && OverlapsShift(w, shift) && WindowInterval(w) == c {
      var w :| w in ws && OverlapsShift(w, shift) && WindowInterval(w) == c;
      var i :| 0 <= i < |mw| && mw[i] == w;
      assert wi[i] == c;
    } else if exists e :: e in events && EventInterval(e) == c {
      var e :| e in events && EventInterval(e) == c;
      var i :| 0 <= i < |events| && events[i] == e;
      assert ei[i] == c;
    }
  }

  // ---------------------------------------------------------------------
  // Free slots (findAvailableSlots)

  /** Some conflict holds instant `t`. */
  predicate InConflict(conflicts: seq<Interval>, t: int) {
    exists i :: 0 <= i < |conflicts| && conflicts[i].start <= t < conflicts[i].end
  }

  /** The free gap before conflict `c`, if the running end has not reached
      its start: it opens at the later of the running end and the current
      time. */
  function Gap(c: Interval, lastEnd: int, currentTime: int): (r: seq<Interval>)
    ensures |r| <= 1
    ensures |r| == 1 ==> r[0] == Interval(Max(lastEnd, currentTime), c.start) && r[0].start < r[0].end
  {
    if c.start > lastEnd && Max(lastEnd, currentTime) < c.start then [Interval(Max(lastEnd, currentTime), c.start)] else []
  }

  /** The free slots left of the shift after the conflicts, walking them in
      order with `lastEnd` the latest end seen so far and never starting a
      slot before `currentTime`. */
  function SlotsFrom(conflicts: seq<Interval>, lastEnd: int, currentTime: int, shiftEnd: int): (r: seq<Interval>)
    ensures |r| <= |conflicts| + 1
    decreases |conflicts|
  {
    if |conflicts| == 0 then
      if lastEnd < shiftEnd && Max(lastEnd, currentTime) < shiftEnd then [Interval(Max(lastEnd, currentTime), shiftEnd)]
      else []
    else
      Gap(conflicts[0], lastEnd, currentTime) + SlotsFrom(conflicts[1..], Max(lastEnd, conflicts[0].end), currentTime, shiftEnd)
  }

  /** Concatenation regroups freely. */
  lemma AppendAssoc<T>(a: seq<T>, b: seq<T>, c: seq<T>)
    ensures (a + b) + c == a + (b + c)
  {
  }

  /** A concatenation splits back into its parts. */
  lemma AppendSlices<T>(a: seq<T>, b: seq<T>)
    ensures (a + b)[..|a|] == a && (a + b)[|a|..] == b
  {
  }

  /** One step of the walk over the conflicts, from position `i`. */
  lemma SlotsFromStep(conflicts: seq<Interval>, i: nat, lastEnd: int, currentTime: int, shiftEnd: int)
    requires i < |conflicts|
    ensures SlotsFrom(conflicts[i..], lastEnd, currentTime, shiftEnd) ==
            Gap(conflicts[i], lastEnd, currentTime) + SlotsFrom(conflicts[i + 1..], Max(lastEnd, conflicts[i].end), currentTime, shiftEnd)
  {
    assert conflicts[i..][1..] == conflicts[i + 1..];
  }

  /** The free slots of a shift: at most one before each conflict and one
      after the last. */
  function Slots(shift: Interval, conflicts: seq<Interval>, currentTime: int): (r: seq<Interval>)
    ensures |r| <= |conflicts| + 1
  {
    SlotsFrom(conflicts, shift.start, currentTime, shift.end)
  }

  /** Every slot is non-empty and starts at or after both the running end
      and the current time. */
  lemma {:induction false} SlotsFromBounds(conflicts: seq<Interval>, lastEnd: int, currentTime: int, shiftEnd: int)
    ensures forall k :: 0 <= k < |SlotsFrom(conflicts, lastEnd, currentTime, shiftEnd)| ==>
      && lastEnd <= SlotsFrom(conflicts, lastEnd, currentTime, shiftEnd)[k].start
      && currentTime <= SlotsFrom(conflicts, lastEnd, currentTime, shiftEnd)[k].start
      && SlotsFrom(conflicts, lastEnd, currentTime, shiftEnd)[k].start < SlotsFrom(conflicts, lastEnd, currentTime, shiftEnd)[k].end
    decreases |conflicts|
  {
    if |conflicts| > 0 {
      var c := conflicts[0];
      var here := Gap(c, lastEnd, currentTime);
      var tail := SlotsFrom(conflicts[1..], Max(lastEnd, c.end), currentTime, shiftEnd);
      SlotsFromBounds(conflicts[1..], Max(lastEnd, c.end), currentTime, shiftEnd);
      var r := SlotsFrom(conflicts, lastEnd, currentTime, shiftEnd);
      assert r == here + tail;
      forall k | 0 <= k < |r| ensures lastEnd <= r[k].start && currentTime <= r[k].start < r[k].end {
        if k >= |here| {
          assert r[k] == tail[k - |here|];
        }
      }
    }
  }

  /** With well-formed conflicts the slots come in increasing order and are
      pairwise disjoint. */
  lemma {:induction false} SlotsFromOrdered(conflicts: seq<Interval>, lastEnd: int, currentTime: int, shiftEnd: int)
    requires forall i :: 0 <= i < |conflicts| ==> conflicts[i].start <= conflicts[i].end
    ensures forall i, j :: 0 <= i < j < |SlotsFrom(conflicts, lastEnd, currentTime, shiftEnd)| ==>
      SlotsFrom(conflicts, lastEnd, currentTime, shiftEnd)[i].end <= SlotsFrom(conflicts, lastEnd, currentTime, shiftEnd)[j].start
    decreases |conflicts|
  {
    if |conflicts| > 0 {
      var c := conflicts[0];
      var here := Gap(c, lastEnd, currentTime);
      var tail := SlotsFrom(conflicts[1..], Max(lastEnd, c.end), currentTime, shiftEnd);
      SlotsFromOrdered(conflicts[1..], Max(lastEnd, c.end), currentTime, shiftEnd);
      SlotsFromBounds(conflicts[1..], Max(lastEnd, c.end), currentTime, shiftEnd);
      var r := SlotsFrom(conflicts, lastEnd, currentTime, shiftEnd);
      assert r == here + tail;
      forall i, j | 0 <= i < j < |r| ensures r[i].end <= r[j].start {
        assert r[j] == tail[j - |here|];
        if i >= |here| {
          assert r[i] == tail[i - |here|];
        }
      }
    }
  }

  /** With conflicts sorted by start no slot overlaps any conflict. */
  lemma {:induction false} SlotsFromAvoidConflicts(conflicts: seq<Interval>, lastEnd: int, currentTime: int, shiftEnd: int)
    requires SortedByStart(conflicts)
    ensures forall k, i :: 0 <= k < |SlotsFrom(conflicts, lastEnd, currentTime, shiftEnd)| && 0 <= i < |conflicts| ==>
      Disjoint(SlotsFrom(conflicts, lastEnd, currentTime, shiftEnd)[k], conflicts[i])
    decreases |conflicts|
  {
    if |conflicts| > 0 {
      var c := conflicts[0];
      var rest := conflicts[1..];
      SlotsFromAvoidConflicts(rest, Max(lastEnd, c.end), currentTime, shiftEnd);
      SlotsFromBounds(rest, Max(lastEnd, c.end), currentTime, shiftEnd);
      var r := SlotsFrom(conflicts, lastEnd, currentTime, shiftEnd);
      var here := Gap(c, lastEnd, currentTime);
      var tail := SlotsFrom(rest, Max(lastEnd, c.end), currentTime, shiftEnd);
      assert r == here + tail;
      forall k, i | 0 <= k < |r| && 0 <= i < |conflicts| ensures Disjoint(r[k], conflicts[i]) {
        if k < |here| {
          assert r[k].end == c.start <= conflicts[i].start;
        } else {
          assert r[k] == tail[k - |here|];
          if i == 0 {
            assert Max(lastEnd, c.end) <= tail[k - |here|].start;
          } else {
            assert conflicts[i] == rest[i - 1];
          }
        }
      }
    }
  }

  /** Every slot but the last ends where a conflict starts; the last ends at
      a conflict start or at the shift end. So when every conflict starts
      before the shift ends, every slot lies inside the shift and only the
      trailing one reaches its end. */
  lemma {:induction false} SlotsFromEnds(conflicts: seq<Interval>, lastEnd: int, currentTime: int, shiftEnd: int)
    ensures forall k :: 0 <= k < |SlotsFrom(conflicts, lastEnd, currentTime, shiftEnd)| ==>
      SlotsFrom(conflicts, lastEnd, currentTime, shiftEnd)[k].end == shiftEnd ||
      exists i :: 0 <= i < |conflicts| && SlotsFrom(conflicts, lastEnd, currentTime, shiftEnd)[k].end == conflicts[i].start
    ensures forall k :: 0 <= k < |SlotsFrom(conflicts, lastEnd, currentTime, shiftEnd)| - 1 ==>
      exists i :: 0 <= i < |conflicts| && SlotsFrom(conflicts, lastEnd, currentTime, shiftEnd)[k].end == conflicts[i].start
    decreases |conflicts|
  {
    if |conflicts| > 0 {
      var c := conflicts[0];
      var rest := conflicts[1..];
      SlotsFromEnds(rest, Max(lastEnd, c.end), currentTime, shiftEnd);
      var r := SlotsFrom(conflicts, lastEnd, currentTime, shiftEnd);
      var here := Gap(c, lastEnd, currentTime);
      var tail := SlotsFrom(rest, Max(lastEnd, c.end), currentTime, shiftEnd);
      assert r == here + tail;
      forall k | 0 <= k < |r|
        ensures r[k].end == shiftEnd || exists i :: 0 <= i < |conflicts| && r[k].end == conflicts[i].start
        ensures k < |r| - 1 ==> exists i :: 0 <= i < |conflicts| && r[k].end == conflicts[i].start
      {
        if k < |here| {
          assert r[k].end == conflicts[0].start;
        } else {
          var m := k - |here|;
          assert r[k] == tail[m];
          if tail[m].end != shiftEnd || k < |r| - 1 {
            assert exists i :: 0 <= i < |rest| && tail[m].end == rest[i].start;
            var i :| 0 <= i < |rest| && tail[m].end == rest[i].start;
            assert conflicts[i + 1] == rest[i];
          }
        }
      }
    } else {
      var r := SlotsFrom(conflicts, lastEnd, currentTime, shiftEnd);
      assert |r| == 1 ==> r[0].end == shiftEnd;
    }
  }

  /** When every conflict starts before the shift ends, every slot lies
      inside the shift and only the trailing one reaches its end. */
  lemma SlotsInsideShift(shift: Interval, conflicts: seq<Interval>, currentTime: int)
    requires forall i :: 0 <= i < |conflicts| ==> conflicts[i].start < shift.end
    ensures forall k :: 0 <= k < |Slots(shift, conflicts, currentTime)| ==> Slots(shift, conflicts, currentTime)[k].end <= shift.end
    ensures forall k :: 0 <= k < |Slots(shift, conflicts, currentTime)| - 1 ==> Slots(shift, conflicts, currentTime)[k].end < shift.end
  {
    SlotsFromEnds(conflicts, shift.start, currentTime, shift.end);
  }

  /** Slots of a shift are non-empty and start at or after both the shift
      start and the current time. */
  lemma SlotsAfterCursor(shift: Interval, conflicts: seq<Interval>, currentTime: int)
    ensures forall k :: 0 <= k < |Slots(shift, conflicts, currentTime)| ==>
      && shift.start <= Slots(shift, conflicts, currentTime)[k].start
      && currentTime <= Slots(shift, conflicts, currentTime)[k].start
      && Slots(shift, conflicts, currentTime)[k].start < Slots(shift, conflicts, currentTime)[k].end
  {
    SlotsFromBounds(conflicts, shift.start, currentTime, shift.end);
  }

  /** Conflict `i` is the first in list order that holds `t`. */
  predicate FirstHolding(conflicts: seq<Interval>, i: int, t: int) {
    && 0 <= i < |conflicts|
    && conflicts[i].start <= t < conflicts[i].end
    && forall j :: 0 <= j < i ==> !(conflicts[j].start <= t < conflicts[j].end)
  }

  /** The first conflict, in list order, that holds `t`. */
  function ActiveConflict(conflicts: seq<Interval>, t: int): (r: Option<Interval>)
    ensures r.None? <==> !InConflict(conflicts, t)
    ensures r.Some? ==> r.value in conflicts && r.value.start <= t < r.value.end
    ensures r.Some? ==> exists i :: FirstHolding(conflicts, i, t) && conflicts[i] == r.value
  {
    if |conflicts| == 0 then None
    else if conflicts[0].start <= t < conflicts[0].end then
      assert FirstHolding(conflicts, 0, t);
      Some(conflicts[0])
    else
      var r := ActiveConflict(conflicts[1..], t);
      assert forall i :: 1 <= i < |conflicts| ==> conflicts[i] == conflicts[1..][i - 1];
      assert InConflict(conflicts[1..], t) ==> InConflict(conflicts, t) by {
        if InConflict(conflicts[1..], t) {
          var i :| 0 <= i < |conflicts[1..]| && conflicts[1..][i].start <= t < conflicts[1..][i].end;
          assert conflicts[i + 1] == conflicts[1..][i];
        }
      }
      assert r.Some? ==> exists i :: FirstHolding(conflicts, i, t) && conflicts[i] == r.value by {
        if r.Some? {
          var i :| FirstHolding(conflicts[1..], i, t) && conflicts[1..][i] == r.value;
          assert FirstHolding(conflicts, i + 1, t) by {
            forall j | 0 <= j < i + 1 ensures !(conflicts[j].start <= t < conflicts[j].end) {
              if j > 0 { assert conflicts[j] == conflicts[1..][j - 1]; }
            }
          }
        }
      }
      r
  }

  // ---------------------------------------------------------------------
  // Greedy packing (scheduleWorkInSlots)

  /** Continuing at `start` opens a new session: nothing was placed yet, or
      the previous session ended strictly before `start`. */
  predicate IsNewSession(prior: seq<Session>, start: int) {
    |prior| == 0 || prior[|prior| - 1].endDate < start
  }

  /** The shape of one placed session: its span is its setup plus its work,
      the work is positive and the setup is either the full setup or none. */
  predicate SessionShape(s: Session, setup: int) {
    && s.endDate - s.startDate == s.setupTimeMinutes + s.durationTimeMinutes
    && s.durationTimeMinutes > 0
    && (s.setupTimeMinutes == setup || s.setupTimeMinutes == 0)
  }

  /** The session placed into one slot, if any: a slot of no length, or one
      too short to hold the setup it would be charged, is skipped. The
      session starts at the slot start, is charged the setup exactly when it
      opens a new session, and does as much of the remaining work as fits. */
  function PackOne(slot: Interval, setup: int, prior: seq<Session>, duration: int): (r: Option<Session>)
    requires duration > 0
    ensures r.Some? ==> && SessionShape(r.value, setup)
                        && r.value.startDate == slot.start
                        && r.value.endDate <= slot.end
                        && r.value.durationTimeMinutes <= duration
                        && r.value.setupTimeMinutes == (if IsNewSession(prior, slot.start) then setup else 0)
    ensures r.Some? && r.value.durationTimeMinutes < duration ==> r.value.endDate == slot.end
    ensures r.None? <==> slot.end - slot.start <= 0 || slot.end - slot.start <= (if IsNewSession(prior, slot.start) then setup else 0)
  {
    var slotDuration := slot.end - slot.start;
    if slotDuration <= 0 then None
    else
      var setupTime := if IsNewSession(prior, slot.start) then setup else 0;
      var availableWorkTime := Max(0, slotDuration - setupTime);
      if availableWorkTime <= 0 then None
      else
        var workTime := Min(duration, availableWorkTime);
        Some(Session(setupTime, workTime, slot.start, slot.start + setupTime + workTime))
  }

  /** The sessions the greedy packing places into `slots`, given the
      sessions placed before and the work still to place. */
  function PackSessions(slots: seq<Interval>, setup: int, prior: seq<Session>, duration: int): (r: seq<Session>)
    ensures |r| <= |slots|
    decreases |slots|
  {
    if |slots| == 0 || duration <= 0 then []
    else
      match PackOne(slots[0], setup, prior, duration)
      case None => PackSessions(slots[1..], setup, prior, duration)
      case Some(s) => [s] + PackSessions(slots[1..], setup, prior + [s], duration - s.durationTimeMinutes)
  }

  /** Nothing is placed without slots or without work left. */
  lemma PackStops(slots: seq<Interval>, setup: int, prior: seq<Session>, duration: int)
    requires |slots| == 0 || duration <= 0
    ensures PackSessions(slots, setup, prior, duration) == []
  {
  }

  /** Otherwise the first slot is packed or skipped, then the rest. */
  lemma PackUnfold(slots: seq<Interval>, setup: int, prior: seq<Session>, duration: int)
    requires |slots| > 0 && duration > 0
    ensures PackOne(slots[0], setup, prior, duration).None? ==>
      PackSessions(slots, setup, prior, duration) == PackSessions(slots[1..], setup, prior, duration)
    ensures PackOne(slots[0], setup, prior, duration).Some? ==>
      var s := PackOne(slots[0], setup, prior, duration).value;
      PackSessions(slots, setup, prior, duration) == [s] + PackSessions(slots[1..], setup, prior + [s], duration - s.durationTimeMinutes)
  {
  }

  /** Total work minutes of a list of sessions. */
  function SumWork(ss: seq<Session>): int {
    if |ss| == 0 then 0 else SumWork(ss[..|ss| - 1]) + ss[|ss| - 1].durationTimeMinutes
  }

  lemma {:induction false} SumWorkAppend(a: seq<Session>, b: seq<Session>)
    ensures SumWork(a + b) == SumWork(a) + SumWork(b)
    decreases |b|
  {
    if |b| > 0 {
      assert (a + b)[..|a + b| - 1] == a + b[..|b| - 1];
      SumWorkAppend(a, b[..|b| - 1]);
    } else {
      assert a + b == a;
    }
  }

  /** The variables of the packing loop: the sessions so far, the work
      left and the end of the last session placed. */
  datatype PackState = PackState(sessions: seq<Session>, duration: int, time: int)

  /** One turn of the packing loop over `slot`. */
  function PackSlot(slot: Interval, setup: int, st: PackState): PackState
    requires st.duration > 0
  {
    match PackOne(slot, setup, st.sessions, st.duration)
    case None => st
    case Some(s) => PackState(st.sessions + [s], st.duration - s.durationTimeMinutes, s.endDate)
  }

  /** One turn keeps the sessions so far and either changes nothing or adds
      one session that starts at the slot start, ends within the slot and
      at the new time, and takes its work off the work left, which stays
      non-negative. */
  lemma PackSlotSpec(slot: Interval, setup: int, st: PackState)
    requires st.duration > 0
    ensures var r := PackSlot(slot, setup, st);
      r != st ==>
        && |r.sessions| == |st.sessions| + 1 && r.sessions[..|st.sessions|] == st.sessions
        && r.sessions[|st.sessions|].startDate == slot.start && r.sessions[|st.sessions|].endDate <= slot.end
        && r.time == r.sessions[|st.sessions|].endDate
        && 0 <= r.duration == st.duration - r.sessions[|st.sessions|].durationTimeMinutes < st.duration
  {
    var r := PackSlot(slot, setup, st);
    if r != st {
      AppendSlices(st.sessions, [r.sessions[|st.sessions|]]);
    }
  }

  /** The packing loop from slot `i` on: it stops after the last slot or
      once no work is left. */
  function PackLoop(slots: seq<Interval>, i: int, setup: int, st: PackState): PackState
    requires 0 <= i <= |slots|
    decreases |slots| - i
  {
    if i == |slots| || st.duration <= 0 then st
    else PackLoop(slots, i + 1, setup, PackSlot(slots[i], setup, st))
  }

  /** The loop appends the packed sessions to those before, takes their
      work off the work left and ends at the end of the last one. */
  lemma {:induction false} PackLoopSessions(slots: seq<Interval>, i: int, setup: int, prior: seq<Session>, duration: int, time: int)
    requires 0 <= i <= |slots|
    ensures var placed := PackSessions(slots[i..], setup, prior, duration);
      PackLoop(slots, i, setup, PackState(prior, duration, time)) ==
        PackState(prior + placed, duration - SumWork(placed), if |placed| == 0 then time else placed[|placed| - 1].endDate)
    decreases |slots| - i
  {
    if i == |slots| || duration <= 0 {
      PackStops(slots[i..], setup, prior, duration);
      assert prior + [] == prior;
    } else {
      PackUnfold(slots[i..], setup, prior, duration);
      assert slots[i..][1..] == slots[i + 1..];
      match PackOne(slots[i], setup, prior, duration)
      case None =>
        PackLoopSessions(slots, i + 1, setup, prior, duration, time);
      case Some(s) =>
        var rest := PackSessions(slots[i + 1..], setup, prior + [s], duration - s.durationTimeMinutes);
        PackLoopSessions(slots, i + 1, setup, prior + [s], duration - s.durationTimeMinutes, s.endDate);
        SumWorkAppend([s], rest);
        assert [s][..0] == [];
        assert (prior + [s]) + rest == prior + ([s] + rest);
        assert |rest| > 0 ==> ([s] + rest)[|rest|] == rest[|rest| - 1];
    }
  }

  /** Session `s` starts at the start of one of the slots and ends within it. */
  predicate InSomeSlot(slots: seq<Interval>, s: Session) {
    exists j :: 0 <= j < |slots| && slots[j].start == s.startDate && s.endDate <= slots[j].end
  }

  lemma InSomeSlotTail(slots: seq<Interval>, s: Session)
    requires |slots| > 0 && InSomeSlot(slots[1..], s)
    ensures InSomeSlot(slots, s)
  {
    var j :| 0 <= j < |slots[1..]| && slots[1..][j].start == s.startDate && s.endDate <= slots[1..][j].end;
    assert slots[j + 1] == slots[1..][j];
  }

  /** Each packed session has the shape of a session and starts at the
      start of one of the slots and ends within it, so setup plus work fits
      that slot. */
  lemma {:induction false} PackShape(slots: seq<Interval>, setup: int, prior: seq<Session>, duration: int)
    ensures forall k :: 0 <= k < |PackSessions(slots, setup, prior, duration)| ==>
      SessionShape(PackSessions(slots, setup, prior, duration)[k], setup) && InSomeSlot(slots, PackSessions(slots, setup, prior, duration)[k])
    decreases |slots|
  {
    if |slots| > 0 && duration > 0 {
      var r := PackSessions(slots, setup, prior, duration);
      match PackOne(slots[0], setup, prior, duration)
      case None =>
        PackShape(slots[1..], setup, prior, duration);
        assert r == PackSessions(slots[1..], setup, prior, duration);
        forall k | 0 <= k < |r| ensures InSomeSlot(slots, r[k]) {
          InSomeSlotTail(slots, r[k]);
        }
      case Some(s) =>
        var rest := PackSessions(slots[1..], setup, prior + [s], duration - s.durationTimeMinutes);
        PackShape(slots[1..], setup, prior + [s], duration - s.durationTimeMinutes);
        assert r == [s] + rest;
        forall k | 0 <= k < |r| ensures SessionShape(r[k], setup) && InSomeSlot(slots, r[k]) {
          if k == 0 {
            assert r[0] == s && slots[0].start == s.startDate && s.endDate <= slots[0].end;
          } else {
            assert r[k] == rest[k - 1];
            InSomeSlotTail(slots, r[k]);
          }
        }
    }
  }

  /** Each packed session is charged the setup exactly when it opens a new
      session after everything placed before it. */
  lemma {:induction false} PackSetupRule(slots: seq<Interval>, setup: int, prior: seq<Session>, duration: int)
    ensures forall k :: 0 <= k < |PackSessions(slots, setup, prior, duration)| ==>
      PackSessions(slots, setup, prior, duration)[k].setupTimeMinutes ==
        (if IsNewSession(prior + PackSessions(slots, setup, prior, duration)[..k], PackSessions(slots, setup, prior, duration)[k].startDate)
         then setup else 0)
    decreases |slots|
  {
    if |slots| > 0 && duration > 0 {
      var r := PackSessions(slots, setup, prior, duration);
      match PackOne(slots[0], setup, prior, duration)
      case None =>
        PackSetupRule(slots[1..], setup, prior, duration);
        assert r == PackSessions(slots[1..], setup, prior, duration);
      case Some(s) =>
        var prior' := prior + [s];
        var rest := PackSessions(slots[1..], setup, prior', duration - s.durationTimeMinutes);
        PackSetupRule(slots[1..], setup, prior', duration - s.durationTimeMinutes);
        assert r == [s] + rest;
        forall k | 0 <= k < |r|
          ensures r[k].setupTimeMinutes == (if IsNewSession(prior + r[..k], r[k].startDate) then setup else 0)
        {
          if k == 0 {
            assert prior + r[..0] == prior;
          } else {
            assert r[k] == rest[k - 1];
            assert prior + r[..k] == prior' + rest[..k - 1];
          }
        }
    }
  }

  /** Work is conserved: the packed work never exceeds what was asked, and
      the packing stops as soon as the asked work is placed (every session
      but the last leaves work to place). */
  lemma {:induction false} PackConservesWork(slots: seq<Interval>, setup: int, prior: seq<Session>, duration: int)
    ensures duration <= 0 ==> PackSessions(slots, setup, prior, duration) == []
    ensures duration > 0 ==> SumWork(PackSessions(slots, setup, prior, duration)) <= duration
    ensures var r := PackSessions(slots, setup, prior, duration);
      |r| > 0 ==> SumWork(r[..|r| - 1]) < duration
    decreases |slots|
  {
    if |slots| > 0 && duration > 0 {
      match PackOne(slots[0], setup, prior, duration)
      case None =>
        PackConservesWork(slots[1..], setup, prior, duration);
      case Some(s) =>
        var w := s.durationTimeMinutes;
        var rest := PackSessions(slots[1..], setup, prior + [s], duration - w);
        PackConservesWork(slots[1..], setup, prior + [s], duration - w);
        var r := [s] + rest;
        assert PackSessions(slots, setup, prior, duration) == r;
        SumWorkAppend([s], rest);
        assert SumWork([s]) == w by {
          assert [s][..0] == [];
        }
        if |rest| > 0 {
          assert r[..|r| - 1] == [s] + rest[..|rest| - 1];
          SumWorkAppend([s], rest[..|rest| - 1]);
        } else {
          assert r[..|r| - 1] == [];
        }
    }
  }

  /** Each session starts no later than it ends, and ends no later than
      the next one starts. */
  predicate ChainedSessions(ss: seq<Session>) {
    && (forall k :: 0 <= k < |ss| ==> ss[k].startDate <= ss[k].endDate)
    && (forall k :: 0 < k < |ss| ==> ss[k - 1].endDate <= ss[k].startDate)
  }

  /** Appending a session that starts after the last one ends, and ends no
      earlier than it starts, keeps the sessions chained. */
  lemma ChainedAppend(ss: seq<Session>, s: Session)
    requires ChainedSessions(ss) && s.startDate <= s.endDate
    requires |ss| > 0 ==> ss[|ss| - 1].endDate <= s.startDate
    ensures ChainedSessions(ss + [s])
  {
    var all := ss + [s];
    forall k | 0 <= k < |all| ensures all[k].startDate <= all[k].endDate {
      if k < |ss| {
        assert all[k] == ss[k];
      }
    }
    forall k | 0 < k < |all| ensures all[k - 1].endDate <= all[k].startDate {
      if k < |ss| {
        assert all[k - 1] == ss[k - 1] && all[k] == ss[k];
      }
    }
  }

  /** With a non-negative setup, slots in increasing disjoint order and
      earlier sessions ending before every slot, all sessions, earlier and
      new, follow one another without overlap. */
  lemma {:induction false} PackChained(slots: seq<Interval>, setup: int, prior: seq<Session>, duration: int)
    requires setup >= 0
    requires forall i, j :: 0 <= i < j < |slots| ==> slots[i].end <= slots[j].start
    requires ChainedSessions(prior)
    requires |prior| > 0 ==> forall j :: 0 <= j < |slots| ==> prior[|prior| - 1].endDate <= slots[j].start
    ensures ChainedSessions(prior + PackSessions(slots, setup, prior, duration))
    decreases |slots|
  {
    if |slots| > 0 && duration > 0 {
      match PackOne(slots[0], setup, prior, duration)
      case None =>
        assert forall j :: 0 <= j < |slots[1..]| ==> slots[1..][j] == slots[j + 1];
        PackChained(slots[1..], setup, prior, duration);
        assert PackSessions(slots, setup, prior, duration) == PackSessions(slots[1..], setup, prior, duration);
      case Some(s) =>
        var prior' := prior + [s];
        var d' := duration - s.durationTimeMinutes;
        ChainedAppend(prior, s);
        assert forall j :: 0 <= j < |slots[1..]| ==> s.endDate <= slots[1..][j].start by {
          forall j | 0 <= j < |slots[1..]| ensures s.endDate <= slots[1..][j].start {
            assert slots[1..][j] == slots[j + 1];
          }
        }
        PackChained(slots[1..], setup, prior', d');
        assert PackSessions(slots, setup, prior, duration) == [s] + PackSessions(slots[1..], setup, prior', d');
        AppendAssoc(prior, [s], PackSessions(slots[1..], setup, prior', d'));
    } else {
      assert prior + PackSessions(slots, setup, prior, duration) == prior;
    }
  }

  /** No session of `placed` overlaps interval `c`. */
  predicate ClearOf(placed: seq<Session>, c: Interval) {
    forall k :: 0 <= k < |placed| ==> Disjoint(SessionInterval(placed[k]), c)
  }

  /** Sessions packed into slots that avoid the conflicts avoid them too. */
  lemma PackAvoidsConflicts(slots: seq<Interval>, setup: int, prior: seq<Session>, duration: int, conflicts: seq<Interval>)
    requires forall k, i :: 0 <= k < |slots| && 0 <= i < |conflicts| ==> Disjoint(slots[k], conflicts[i])
    ensures forall i :: 0 <= i < |conflicts| ==> ClearOf(PackSessions(slots, setup, prior, duration), conflicts[i])
  {
    PackShape(slots, setup, prior, duration);
    var r := PackSessions(slots, setup, prior, duration);
    forall i | 0 <= i < |conflicts| ensures ClearOf(r, conflicts[i]) {
      forall k | 0 <= k < |r| ensures Disjoint(SessionInterval(r[k]), conflicts[i]) {
        assert InSomeSlot(slots, r[k]);
        var j :| 0 <= j < |slots| && slots[j].start == r[k].startDate && r[k].endDate <= slots[j].end;
        assert Disjoint(slots[j], conflicts[i]);
      }
    }
  }

  // ---------------------------------------------------------------------
  // One pass of the placement loop (addWorkOrder, lines 201-234), for a
  // given shift interval and its conflicts.

  datatype Step = Step(cursor: int, remaining: int, placed: seq<Session>)

  /** Where a pass starts packing: at the shift start if the shift lies
      ahead of the cursor, then past the first conflict holding that time. */
  function PassStart(shift: Interval, conflicts: seq<Interval>, cursor: int): (r: int)
    ensures r >= Max(shift.start, cursor)
    ensures r == Max(shift.start, cursor) <==> !InConflict(conflicts, Max(shift.start, cursor))
  {
    var atShift := if shift.start > cursor then shift.start else cursor;
    match ActiveConflict(conflicts, atShift)
    case Some(c) => c.end
    case None => atShift
  }

  /** The cursor moves to the shift start if the shift lies ahead, then past
      the first conflict holding it; the free slots from there are packed;
      if work remains the cursor moves to the shift end. */
  function ShiftStep(shift: Interval, conflicts: seq<Interval>, cursor: int, remaining: int, setup: int, prior: seq<Session>): (r: Step)
    ensures remaining > 0 ==> 0 <= r.remaining == remaining - SumWork(r.placed)
    ensures r.remaining > 0 ==> r.cursor == shift.end
  {
    var pastConflict := PassStart(shift, conflicts, cursor);
    var placed := PackSessions(Slots(shift, conflicts, pastConflict), setup, prior, remaining);
    PackConservesWork(Slots(shift, conflicts, pastConflict), setup, prior, remaining);
    var left := remaining - SumWork(placed);
    var time := if |placed| == 0 then pastConflict else placed[|placed| - 1].endDate;
    Step(if left > 0 then shift.end else time, left, placed)
  }

  /** A pass over a shift interval that is not empty and holds the cursor
      or lies ahead of it moves the cursor strictly forward when work is
      left, places no more work than remains, and
      keeps the shape and setup rule of all sessions placed so far. */
  lemma ShiftStepAdvances(shift: Interval, conflicts: seq<Interval>, cursor: int, remaining: int, setup: int, prior: seq<Session>, lo: int)
    requires shift.start < shift.end
    requires (shift.start <= cursor < shift.end) || shift.start >= cursor
    requires remaining > 0 && lo <= cursor
    requires AllShaped(prior, setup, lo) && SetupRule(prior, setup)
    ensures var st := ShiftStep(shift, conflicts, cursor, remaining, setup, prior);
      && (st.remaining > 0 ==> st.cursor > cursor)
      && 0 <= st.remaining == remaining - SumWork(st.placed)
      && SumWork(prior + st.placed) == SumWork(prior) + SumWork(st.placed)
      && AllShaped(prior + st.placed, setup, lo)
      && SetupRule(prior + st.placed, setup)
  {
    var pastConflict := PassStart(shift, conflicts, cursor);
    var slots := Slots(shift, conflicts, pastConflict);
    var placed := PackSessions(slots, setup, prior, remaining);
    SlotsAfterCursor(shift, conflicts, pastConflict);
    PackShape(slots, setup, prior, remaining);
    PackConservesWork(slots, setup, prior, remaining);
    PackExtends(slots, setup, prior, remaining, lo);
    SumWorkAppend(prior, placed);
  }

  /** The sessions a pass places avoid every maintenance window that
      overlaps the shift and every event listed for the shift's days. */
  predicate KeepsClear(placed: seq<Session>, ws: seq<MaintenanceWindow>, shift: Interval, events: seq<ScheduledEvent>) {
    && (forall w :: w in ws && OverlapsShift(w, shift) ==> ClearOf(placed, WindowInterval(w)))
    && (forall e :: e in events ==> ClearOf(placed, EventInterval(e)))
  }

  /** A window that overlaps the shift is one of its conflicts. */
  lemma WindowIsConflict(ws: seq<MaintenanceWindow>, events: seq<ScheduledEvent>, shift: Interval, w: MaintenanceWindow)
    requires w in ws && OverlapsShift(w, shift)
    ensures WindowInterval(w) in Conflicts(ws, events, shift)
  {
    var mw := OverlappingWindows(ws, shift);
    var i :| 0 <= i < |mw| && mw[i] == w;
    var all := WindowIntervals(mw) + EventIntervals(events);
    assert all[i] == WindowInterval(w);
    assert WindowInterval(w) in multiset(all);
  }

  /** An event listed for the shift's days is one of its conflicts. */
  lemma EventIsConflict(ws: seq<MaintenanceWindow>, events: seq<ScheduledEvent>, shift: Interval, e: ScheduledEvent)
    requires e in events
    ensures EventInterval(e) in Conflicts(ws, events, shift)
  {
    var wi := WindowIntervals(OverlappingWindows(ws, shift));
    var i :| 0 <= i < |events| && events[i] == e;
    var all := wi + EventIntervals(events);
    assert all[|wi| + i] == EventInterval(e);
    assert EventInterval(e) in multiset(all);
  }

  /** Sessions placed by a pass avoid the conflicts of the shift: the
      overlapping maintenance windows and the events already listed for its
      days. */
  lemma ShiftStepAvoidsConflicts(ws: seq<MaintenanceWindow>, events: seq<ScheduledEvent>, shift: Interval,
                                 cursor: int, remaining: int, setup: int, prior: seq<Session>)
    ensures KeepsClear(ShiftStep(shift, Conflicts(ws, events, shift), cursor, remaining, setup, prior).placed, ws, shift, events)
  {
    var conflicts := Conflicts(ws, events, shift);
    var pastConflict := PassStart(shift, conflicts, cursor);
    var slots := Slots(shift, conflicts, pastConflict);
    var placed := PackSessions(slots, setup, prior, remaining);
    SlotsFromAvoidConflicts(conflicts, shift.start, pastConflict, shift.end);
    assert forall k, i :: 0 <= k < |slots| && 0 <= i < |conflicts| ==> Disjoint(slots[k], conflicts[i]);
    PackAvoidsConflicts(slots, setup, prior, remaining, conflicts);
    assert forall c :: c in conflicts ==> ClearOf(placed, c) by {
      forall c | c in conflicts ensures ClearOf(placed, c) {
        var i :| 0 <= i < |conflicts| && conflicts[i] == c;
      }
    }
    forall w | w in ws && OverlapsShift(w, shift) ensures ClearOf(placed, WindowInterval(w)) {
      WindowIsConflict(ws, events, shift, w);
    }
    forall e | e in events ensures ClearOf(placed, EventInterval(e)) {
      EventIsConflict(ws, events, shift, e);
    }
  }

  // ---------------------------------------------------------------------
  // The per-day event index

  type DayIndex = map<int, seq<ScheduledEvent>>
  type EventIndex = map<string, DayIndex>

  /** The events listed for (work center, day); a missing key reads as an
      empty list, as getScheduledEvents makes it. */
  function Lookup(index: EventIndex, wcId: string, day: int): seq<ScheduledEvent> {
    if wcId in index && day in index[wcId] then index[wcId][day] else []
  }

  /** A lookup reads empty exactly when nothing or an empty list is stored
      for (work center, day); otherwise it reads the stored list. */
  lemma LookupReadsStored(index: EventIndex, wcId: string, day: int)
    ensures Lookup(index, wcId, day) == [] <==> wcId !in index || day !in index[wcId] || index[wcId][day] == []
    ensures Lookup(index, wcId, day) != [] ==> Lookup(index, wcId, day) == index[wcId][day]
  {
  }

  /** The index after reading (wcId, day): a known work center without a
      list for that day gets an empty one, which reads as before. */
  function Touch(index: EventIndex, wcId: string, day: int): (r: EventIndex)
    ensures r.Keys == index.Keys
    ensures forall w, d :: Lookup(r, w, d) == Lookup(index, w, d)
  {
    if wcId in index && day !in index[wcId] then index[wcId := index[wcId][day := []]] else index
  }

  /** The index after reading (wcId, d) for each of `days` in turn. */
  function TouchDays(index: EventIndex, wcId: string, days: seq<int>): (r: EventIndex)
    ensures r.Keys == index.Keys
    ensures forall w, d :: Lookup(r, w, d) == Lookup(index, w, d)
    decreases |days|
  {
    if |days| == 0 then index
    else Touch(TouchDays(index, wcId, days[..|days| - 1]), wcId, days[|days| - 1])
  }

  /** The events of `evs` that start on UTC day `day`, in order. */
  function OnDay(evs: seq<ScheduledEvent>, day: int): (r: seq<ScheduledEvent>)
    ensures |r| <= |evs|
    ensures forall k :: 0 <= k < |r| ==> DayKey(r[k].startDate) == day
  {
    if |evs| == 0 then []
    else OnDay(evs[..|evs| - 1], day) + (if DayKey(evs[|evs| - 1].startDate) == day then [evs[|evs| - 1]] else [])
  }

  lemma {:induction false} OnDayAppend(a: seq<ScheduledEvent>, b: seq<ScheduledEvent>, day: int)
    ensures OnDay(a + b, day) == OnDay(a, day) + OnDay(b, day)
    decreases |b|
  {
    if |b| > 0 {
      assert (a + b)[..|a + b| - 1] == a + b[..|b| - 1];
      OnDayAppend(a, b[..|b| - 1], day);
    } else {
      assert a + b == a;
    }
  }

  /** An event is listed for a day exactly when it starts on that day. */
  lemma {:induction false} OnDayMembers(evs: seq<ScheduledEvent>, day: int)
    ensures forall e :: e in OnDay(evs, day) <==> e in evs && DayKey(e.startDate) == day
    decreases |evs|
  {
    if |evs| > 0 {
      OnDayMembers(evs[..|evs| - 1], day);
      assert evs == evs[..|evs| - 1] + [evs[|evs| - 1]];
    }
  }

  /** The event committed for a session of work order `woId`: same start,
      end, setup and work. */
  function EventFor(woId: string, wo: WorkOrderData, s: Session): (e: ScheduledEvent)
    ensures e.startDate == s.startDate && e.endDate == s.endDate
    ensures e.setupTimeMinutes == s.setupTimeMinutes && e.durationTimeMinutes == s.durationTimeMinutes
    ensures e.workOrderId == woId && e.workCenterId == wo.workCenterId
  {
    ScheduledEvent(woId, wo.workCenterId, wo.manufacturingOrderId, wo.isMaintenance,
                   s.setupTimeMinutes, s.durationTimeMinutes, s.startDate, s.endDate)
  }

  function EventsFor(woId: string, wo: WorkOrderData, ss: seq<Session>): (r: seq<ScheduledEvent>)
    ensures |r| == |ss| && forall i :: 0 <= i < |ss| ==> r[i] == EventFor(woId, wo, ss[i])
  {
    seq(|ss|, i requires 0 <= i < |ss| => EventFor(woId, wo, ss[i]))
  }

  lemma EventsForAppend(woId: string, wo: WorkOrderData, a: seq<Session>, b: seq<Session>)
    ensures EventsFor(woId, wo, a + b) == EventsFor(woId, wo, a) + EventsFor(woId, wo, b)
  {
  }

  /** The list of (w, d) after committing `evs` for work center `wcId`:
      the events of `evs` that start on day `d` are appended, in order, when
      `w` is that work center and it has an index; otherwise the list is as
      it was. */
  ghost predicate CommittedAt(before: EventIndex, after: EventIndex, wcId: string, evs: seq<ScheduledEvent>, w: string, d: int) {
    Lookup(after, w, d) == Lookup(before, w, d) + (if w == wcId && wcId in before then OnDay(evs, d) else [])
  }

  /** The index after committing `evs` for work center `wcId`: each event is
      appended to the list of the day it starts on; nothing else changes. */
  ghost predicate Committed(before: EventIndex, after: EventIndex, wcId: string, evs: seq<ScheduledEvent>) {
    && after.Keys == before.Keys
    && forall w, d :: CommittedAt(before, after, wcId, evs, w, d)
  }

  /** Committing nothing leaves every list as it was. */
  lemma CommittedNothing(before: EventIndex, after: EventIndex, wcId: string)
    requires after.Keys == before.Keys
    requires forall w, d :: Lookup(after, w, d) == Lookup(before, w, d)
    ensures Committed(before, after, wcId, [])
  {
    forall w, d ensures CommittedAt(before, after, wcId, [], w, d) {
    }
  }

  /** Two commits in a row are one commit of both event lists. */
  lemma CommittedTrans(a: EventIndex, b: EventIndex, c: EventIndex, wcId: string, e1: seq<ScheduledEvent>, e2: seq<ScheduledEvent>)
    requires Committed(a, b, wcId, e1) && Committed(b, c, wcId, e2)
    ensures Committed(a, c, wcId, e1 + e2)
  {
    assert (wcId in b) == (wcId in a);
    forall w, d ensures CommittedAt(a, c, wcId, e1 + e2, w, d) {
      CommittedAtTrans(a, b, c, wcId, e1, e2, w, d);
    }
  }

  lemma CommittedAtTrans(a: EventIndex, b: EventIndex, c: EventIndex, wcId: string, e1: seq<ScheduledEvent>, e2: seq<ScheduledEvent>,
                         w: string, d: int)
    requires (wcId in b) == (wcId in a)
    requires CommittedAt(a, b, wcId, e1, w, d) && CommittedAt(b, c, wcId, e2, w, d)
    ensures CommittedAt(a, c, wcId, e1 + e2, w, d)
  {
    if w == wcId && wcId in a {
      OnDayAppend(e1, e2, d);
      assert Lookup(c, w, d) == Lookup(a, w, d) + OnDay(e1, d) + OnDay(e2, d);
    }
  }

  /** The index with `e` appended to the list of (wcId, day); a work center
      without an index is left alone, as `wcSchedule?.set` does. */
  function Push(index: EventIndex, wcId: string, day: int, e: ScheduledEvent): (r: EventIndex)
    ensures r.Keys == index.Keys
  {
    if wcId in index then index[wcId := index[wcId][day := Lookup(index, wcId, day) + [e]]] else index
  }

  /** Pushing an event under the day key of its start commits exactly it. */
  lemma PushCommits(index: EventIndex, wcId: string, e: ScheduledEvent)
    ensures Committed(index, Push(index, wcId, DayKey(e.startDate), e), wcId, [e])
  {
    var after := Push(index, wcId, DayKey(e.startDate), e);
    forall w, d ensures CommittedAt(index, after, wcId, [e], w, d) {
      assert [e][..0] == [];
      assert OnDay([e], d) == (if DayKey(e.startDate) == d then [e] else []);
    }
  }

  /** The index after pushing each event of `evs` in turn under the day of
      its start. */
  function Record(index: EventIndex, wcId: string, evs: seq<ScheduledEvent>): (r: EventIndex)
    ensures r.Keys == index.Keys
    decreases |evs|
  {
    if |evs| == 0 then index
    else
      var e := evs[|evs| - 1];
      Push(Record(index, wcId, evs[..|evs| - 1]), wcId, DayKey(e.startDate), e)
  }

  /** Recording events one by one commits all of them, in order. */
  lemma {:induction false} RecordCommits(index: EventIndex, wcId: string, evs: seq<ScheduledEvent>)
    ensures Committed(index, Record(index, wcId, evs), wcId, evs)
    decreases |evs|
  {
    if |evs| == 0 {
      CommittedNothing(index, index, wcId);
    } else {
      var init := evs[..|evs| - 1];
      var e := evs[|evs| - 1];
      RecordCommits(index, wcId, init);
      PushCommits(Record(index, wcId, init), wcId, e);
      CommittedTrans(index, Record(index, wcId, init), Record(index, wcId, evs), wcId, init, [e]);
      assert init + [e] == evs;
    }
  }

  /** Recording the events of one more session is one more push. */
  lemma RecordSession(index: EventIndex, wcId: string, woId: string, wo: WorkOrderData, placed: seq<Session>, session: Session)
    ensures Record(index, wcId, EventsFor(woId, wo, placed + [session])) ==
      Push(Record(index, wcId, EventsFor(woId, wo, placed)), wcId, DayKey(session.startDate), EventFor(woId, wo, session))
  {
    var evs := EventsFor(woId, wo, placed + [session]);
    assert evs[..|evs| - 1] == EventsFor(woId, wo, placed);
  }

  /** Every listed event starts on the day it is listed under. */
  ghost predicate IndexedByDay(index: EventIndex) {
    forall w, d, e :: e in Lookup(index, w, d) ==> DayKey(e.startDate) == d
  }

  /** Commits keep every event under the day of its start. */
  lemma CommittedIndexedByDay(before: EventIndex, after: EventIndex, wcId: string, evs: seq<ScheduledEvent>)
    requires IndexedByDay(before) && Committed(before, after, wcId, evs)
    ensures IndexedByDay(after)
  {
    forall w, d, e | e in Lookup(after, w, d) ensures DayKey(e.startDate) == d {
      assert CommittedAt(before, after, wcId, evs, w, d);
      OnDayMembers(evs, d);
    }
  }

  /** Reads that install empty lists, then recording `evs`: a commit of
      `evs` that keeps every event under the day of its start. */
  lemma RecordedCommits(before: EventIndex, mid: EventIndex, after: EventIndex, wcId: string, evs: seq<ScheduledEvent>)
    requires mid.Keys == before.Keys && forall w, d :: Lookup(mid, w, d) == Lookup(before, w, d)
    requires after == Record(mid, wcId, evs)
    ensures Committed(before, after, wcId, evs)
    ensures IndexedByDay(before) ==> IndexedByDay(after)
  {
    CommittedNothing(before, mid, wcId);
    RecordCommits(mid, wcId, evs);
    CommittedTrans(before, mid, after, wcId, [], evs);
    assert [] + evs == evs;
    if IndexedByDay(before) {
      CommittedIndexedByDay(before, after, wcId, evs);
    }
  }

  /** Reading the lists of some days, then recording `evs`: a commit of
      `evs` that keeps every event under the day of its start. */
  lemma TouchedRecordCommits(index: EventIndex, wcId: string, days: seq<int>, evs: seq<ScheduledEvent>)
    ensures Committed(index, Record(TouchDays(index, wcId, days), wcId, evs), wcId, evs)
    ensures IndexedByDay(index) ==> IndexedByDay(Record(TouchDays(index, wcId, days), wcId, evs))
  {
    RecordedCommits(index, TouchDays(index, wcId, days), Record(TouchDays(index, wcId, days), wcId, evs), wcId, evs);
  }

  /** The events listed for `wcId` under each of `days`, in order. */
  function EventsOnDays(index: EventIndex, wcId: string, days: seq<int>): (r: seq<ScheduledEvent>)
    ensures forall e :: e in r <==> exists i :: 0 <= i < |days| && e in Lookup(index, wcId, days[i])
  {
    if |days| == 0 then []
    else
      var r := EventsOnDays(index, wcId, days[..|days| - 1]) + Lookup(index, wcId, days[|days| - 1]);
      assert forall i :: 0 <= i < |days| - 1 ==> days[..|days| - 1][i] == days[i];
      assert forall e :: e in r <==> exists i :: 0 <= i < |days| && e in Lookup(index, wcId, days[i]) by {
        forall e | e in r ensures exists i :: 0 <= i < |days| && e in Lookup(index, wcId, days[i]) {
          if e !in Lookup(index, wcId, days[|days| - 1]) {
            var i :| 0 <= i < |days| - 1 && e in Lookup(index, wcId, days[..|days| - 1][i]);
          }
        }
      }
      r
  }

  // ---------------------------------------------------------------------
  // The sessions of a work order as a whole

  /** Every session has the shape of a session and starts no earlier than `lo`. */
  predicate AllShaped(ss: seq<Session>, setup: int, lo: int) {
    forall k :: 0 <= k < |ss| ==> SessionShape(ss[k], setup) && lo <= ss[k].startDate
  }

  /** Every session is charged the setup exactly when it opens a new session
      after the ones before it. */
  predicate SetupRule(ss: seq<Session>, setup: int) {
    forall k :: 0 <= k < |ss| ==> ss[k].setupTimeMinutes == (if IsNewSession(ss[..k], ss[k].startDate) then setup else 0)
  }

  /** Packing into slots that start no earlier than `lo` keeps both. */
  lemma PackExtends(slots: seq<Interval>, setup: int, prior: seq<Session>, duration: int, lo: int)
    requires forall j :: 0 <= j < |slots| ==> lo <= slots[j].start
    requires AllShaped(prior, setup, lo) && SetupRule(prior, setup)
    ensures AllShaped(prior + PackSessions(slots, setup, prior, duration), setup, lo)
    ensures SetupRule(prior + PackSessions(slots, setup, prior, duration), setup)
  {
    var placed := PackSessions(slots, setup, prior, duration);
    var all := prior + placed;
    PackShape(slots, setup, prior, duration);
    PackSetupRule(slots, setup, prior, duration);
    forall k | 0 <= k < |all|
      ensures SessionShape(all[k], setup) && lo <= all[k].startDate
      ensures all[k].setupTimeMinutes == (if IsNewSession(all[..k], all[k].startDate) then setup else 0)
    {
      if k < |prior| {
        assert all[..k] == prior[..k];
      } else {
        var m := k - |prior|;
        assert all[k] == placed[m];
        assert all[..k] == prior + placed[..m];
        assert InSomeSlot(slots, placed[m]);
        var j :| 0 <= j < |slots| && slots[j].start == placed[m].startDate && placed[m].endDate <= slots[j].end;
      }
    }
  }

  /** Sessions that each do some work add up to positive work. */
  lemma {:induction false} SumWorkPositive(ss: seq<Session>, setup: int, lo: int)
    requires AllShaped(ss, setup, lo) && |ss| > 0
    ensures SumWork(ss) > 0
    decreases |ss|
  {
    if |ss| > 1 {
      SumWorkPositive(ss[..|ss| - 1], setup, lo);
    } else {
      assert ss[..0] == [];
    }
  }

  // ---------------------------------------------------------------------
  // A shift interval of no length stalls the placement loop

  /** With one shift of no length (Thursday 08:00 to 08:00) and a start at
      1970-01-01T08:00Z, the next shift interval is that empty interval, a
      pass over it places nothing and puts the cursor back where it was, so
      the next pass finds the same interval again: the loop of addWorkOrder
      never ends. */
  lemma EmptyShiftStalls(setup: int, remaining: int)
    requires remaining > 0
    ensures NextShift([Shift(4, 8, 8)], 480, DEFAULT_LOOKAHEAD_DAYS) == Ok(Interval(480, 480))
    ensures ShiftStep(Interval(480, 480), [], 480, remaining, setup, []) == Step(480, remaining, [])
  {
    assert DayKey(480) == 0;
    assert FindShift([Shift(4, 8, 8)], Weekday(0)) == Some(Shift(4, 8, 8));
    assert ShiftIntervalOn([Shift(4, 8, 8)], 0) == Some(Interval(480, 480));
    assert Qualifies([Shift(4, 8, 8)], 480, 0);
    assert Slots(Interval(480, 480), [], 480) == [];
  }
}
