/** Calendar helpers (src/utils/date.ts), in UTC, on integer minutes. */
module Calendar {
  import opened Types

  const MINUTES_PER_HOUR: int := 60
  const MINUTES_PER_DAY: int := 1440
  /** Default search horizon of getNextShiftInterval, in days. */
  const DEFAULT_LOOKAHEAD_DAYS: int := 365

  datatype CalendarError = NoShiftFound

  /** The first minute of day number `day`. */
  function DayStart(day: int): int {
    day * 1440
  }

  /** `hours` hours, in minutes. */
  function Hours(hours: int): int {
    hours * 60
  }

  /** getDayKey: the number of the UTC calendar day that holds `t`
      (the start of that day, in whole days since the epoch). */
  function DayKey(t: int): (k: int)
    ensures DayStart(k) <= t < DayStart(k + 1)
  {
    t / 1440
  }

  /** The key of `t` is the one day whose span holds `t`: all instants of a
      UTC day share its key, and no instant outside it has that key. */
  lemma DayKeyExactly(t: int, k: int)
    ensures DayKey(t) == k <==> DayStart(k) <= t < DayStart(k + 1)
  {
  }

  /** The first minute of a day has that day's key, and the next day
      starts a day's minutes later. */
  lemma DayStartKey(day: int)
    ensures DayKey(DayStart(day)) == day
    ensures DayStart(day) + MINUTES_PER_DAY == DayStart(day + 1)
  {
  }

  lemma DayKeyMonotone(t1: int, t2: int)
    requires t1 <= t2
    ensures DayKey(t1) <= DayKey(t2)
  {
  }

  /** Day of the week of a day number, Sunday = 0; day 0 (1970-01-01) was a
      Thursday. Stands for the ISO weekday of a UTC date taken modulo 7. */
  function Weekday(day: int): (w: int)
    ensures 0 <= w < 7
    ensures day == 0 ==> w == 4
  {
    (day + 4) % 7
  }

  /** Day numbers a week apart fall on the same weekday. */
  lemma WeekdayPeriodic(day: int)
    ensures Weekday(day + 7) == Weekday(day)
  {
  }

  /** The UTC hour of the day of `t`. */
  function HourOf(t: int): (h: int)
    ensures 0 <= h < 24
    ensures DayStart(DayKey(t)) + Hours(h) <= t < DayStart(DayKey(t)) + Hours(h + 1)
  {
    (t % 1440) / 60
  }

  /** Shift `i` is the first shift in the list configured for `dayOfWeek`. */
  predicate IsFirstShiftFor(shifts: seq<Shift>, i: int, dayOfWeek: int) {
    && 0 <= i < |shifts|
    && shifts[i].dayOfWeek == dayOfWeek
    && forall j :: 0 <= j < i ==> shifts[j].dayOfWeek != dayOfWeek
  }

  lemma FirstShiftUnique(shifts: seq<Shift>, i: int, j: int, dayOfWeek: int)
    requires IsFirstShiftFor(shifts, i, dayOfWeek) && IsFirstShiftFor(shifts, j, dayOfWeek)
    ensures i == j
  {
  }

  /** The first shift, in configuration order, set for weekday `dayOfWeek`,
      if any. */
  function FindShift(shifts: seq<Shift>, dayOfWeek: int): (r: Option<Shift>)
    ensures r.Some? ==> r.value in shifts && r.value.dayOfWeek == dayOfWeek
  {
    if |shifts| == 0 then None
    else if shifts[0].dayOfWeek == dayOfWeek then Some(shifts[0])
    else FindShift(shifts[1..], dayOfWeek)
  }

  /** Nothing is found exactly when no shift is configured for the day;
      otherwise the shift found is the first one configured for it. */
  lemma {:induction false} FindShiftSpec(shifts: seq<Shift>, dayOfWeek: int)
    ensures FindShift(shifts, dayOfWeek).None? <==> forall i :: 0 <= i < |shifts| ==> shifts[i].dayOfWeek != dayOfWeek
    ensures FindShift(shifts, dayOfWeek).Some? ==>
      exists i :: IsFirstShiftFor(shifts, i, dayOfWeek) && shifts[i] == FindShift(shifts, dayOfWeek).value
    decreases |shifts|
  {
    if |shifts| > 0 && shifts[0].dayOfWeek == dayOfWeek {
      assert IsFirstShiftFor(shifts, 0, dayOfWeek);
    } else if |shifts| > 0 {
      var r := FindShift(shifts[1..], dayOfWeek);
      FindShiftSpec(shifts[1..], dayOfWeek);
      assert forall i :: 1 <= i < |shifts| ==> shifts[i] == shifts[1..][i - 1];
      if r.Some? {
        var i :| IsFirstShiftFor(shifts[1..], i, dayOfWeek) && shifts[1..][i] == r.value;
        assert IsFirstShiftFor(shifts, i + 1, dayOfWeek);
      }
    }
  }

  /** The shift FindShift picks is the first one configured for the day. */
  lemma FindShiftIsFirst(shifts: seq<Shift>, dayOfWeek: int, i: int)
    requires IsFirstShiftFor(shifts, i, dayOfWeek)
    ensures FindShift(shifts, dayOfWeek) == Some(shifts[i])
  {
    var r := FindShift(shifts, dayOfWeek);
    FindShiftSpec(shifts, dayOfWeek);
    assert r.Some?;
    var i' :| IsFirstShiftFor(shifts, i', dayOfWeek) && shifts[i'] == r.value;
    FirstShiftUnique(shifts, i, i', dayOfWeek);
  }

  /** isDateInShift: compares hours of the day only, ignoring the date. */
  function IsDateInShift(shift: Interval, date: int): (r: bool)
    ensures r <==> HourOf(shift.start) <= HourOf(date) < HourOf(shift.end)
  {
    HourOf(date) >= HourOf(shift.start) && HourOf(date) < HourOf(shift.end)
  }

  /** Moving the date by whole days does not change isDateInShift. */
  lemma {:induction false} DateInShiftIgnoresDay(shift: Interval, date: int, days: int)
    ensures IsDateInShift(shift, date + DayStart(days)) == IsDateInShift(shift, date)
  {
    var d := date + DayStart(days);
    assert DayKey(d) == DayKey(date) + days by {
      DayKeyExactly(d, DayKey(date) + days);
    }
    assert HourOf(d) == HourOf(date);
  }

  /** isDuringShift: a shift is configured for the weekday of `date` and the
      hour of `date` lies in [startHour, endHour). */
  function IsDuringShift(wc: WorkCenter, date: int): (r: bool)
    ensures r <==> exists i :: && IsFirstShiftFor(wc.shifts, i, Weekday(DayKey(date)))
                               && wc.shifts[i].startHour <= HourOf(date) < wc.shifts[i].endHour
  {
    var dayOfWeek := Weekday(DayKey(date));
    var shift := FindShift(wc.shifts, dayOfWeek);
    FindShiftSpec(wc.shifts, dayOfWeek);
    assert forall i :: IsFirstShiftFor(wc.shifts, i, dayOfWeek) ==> shift == Some(wc.shifts[i]) by {
      forall i | IsFirstShiftFor(wc.shifts, i, dayOfWeek) ensures shift == Some(wc.shifts[i]) {
        FindShiftIsFirst(wc.shifts, dayOfWeek, i);
      }
    }
    match shift
    case None => false
    case Some(s) => HourOf(date) >= s.startHour && HourOf(date) < s.endHour
  }

  /** The absolute interval of the shift configured for day number `day`. */
  function ShiftIntervalOn(shifts: seq<Shift>, day: int): Option<Interval> {
    match FindShift(shifts, Weekday(day))
    case None => None
    case Some(s) =>
      Some(Interval(DayStart(day) + Hours(s.startHour), DayStart(day) + Hours(s.endHour)))
  }

  /** A day has a shift interval exactly when some shift is configured for
      its weekday, and then it is the first such shift placed on that day. */
  lemma ShiftIntervalOnSpec(shifts: seq<Shift>, day: int)
    ensures ShiftIntervalOn(shifts, day).None? <==> forall i :: 0 <= i < |shifts| ==> shifts[i].dayOfWeek != Weekday(day)
    ensures ShiftIntervalOn(shifts, day).Some? ==>
      exists i :: && IsFirstShiftFor(shifts, i, Weekday(day))
                  && ShiftIntervalOn(shifts, day).value ==
                     Interval(DayStart(day) + Hours(shifts[i].startHour), DayStart(day) + Hours(shifts[i].endHour))
  {
    FindShiftSpec(shifts, Weekday(day));
  }

  /** Day `day` has a shift that holds `date` or starts at or after it. */
  predicate Qualifies(shifts: seq<Shift>, date: int, day: int) {
    match ShiftIntervalOn(shifts, day)
    case None => false
    case Some(iv) => (iv.start <= date && date < iv.end) || iv.start >= date
  }

  /** A day qualifies exactly when a shift is configured for its weekday and
      the first such shift, placed on that day, has not ended by `date` or
      does not start before it. */
  lemma QualifiesExactly(shifts: seq<Shift>, date: int, day: int)
    ensures Qualifies(shifts, date, day) <==>
      exists i :: && IsFirstShiftFor(shifts, i, Weekday(day))
                  && (date < DayStart(day) + Hours(shifts[i].endHour) || date <= DayStart(day) + Hours(shifts[i].startHour))
  {
    var r := ShiftIntervalOn(shifts, day);
    ShiftIntervalOnSpec(shifts, day);
    if r.Some? {
      var i :| IsFirstShiftFor(shifts, i, Weekday(day))
               && r.value == Interval(DayStart(day) + Hours(shifts[i].startHour), DayStart(day) + Hours(shifts[i].endHour));
      forall j | IsFirstShiftFor(shifts, j, Weekday(day)) ensures j == i {
        FirstShiftUnique(shifts, i, j, Weekday(day));
      }
    }
  }

  /** The first qualifying shift among `days` days starting at day `day`. */
  function NextShiftFrom(shifts: seq<Shift>, date: int, day: int, days: int): (r: Result<Interval, CalendarError>)
    ensures r.Ok? ==> (r.value.start <= date < r.value.end) || r.value.start >= date
    decreases days
  {
    if days <= 0 then Err(NoShiftFound)
    else if Qualifies(shifts, date, day) then Ok(ShiftIntervalOn(shifts, day).value)
    else NextShiftFrom(shifts, date, day + 1, days - 1)
  }

  /** The interval getNextShiftInterval returns for `date`. */
  function NextShift(shifts: seq<Shift>, date: int, maxDaysLookahead: int): (r: Result<Interval, CalendarError>)
    ensures r.Ok? ==> (r.value.start <= date < r.value.end) || r.value.start >= date
  {
    NextShiftFrom(shifts, date, DayKey(date), maxDaysLookahead)
  }

  /** A found interval is the shift of the earliest qualifying day of the
      scan; nothing is found exactly when no scanned day qualifies. */
  lemma {:induction false} NextShiftFromSpec(shifts: seq<Shift>, date: int, day: int, days: int)
    ensures var r := NextShiftFrom(shifts, date, day, days);
      r.Ok? ==> exists d :: && day <= d < day + days
                            && Qualifies(shifts, date, d)
                            && ShiftIntervalOn(shifts, d) == Some(r.value)
                            && forall e :: day <= e < d ==> !Qualifies(shifts, date, e)
    ensures NextShiftFrom(shifts, date, day, days).Err? <==>
      forall d :: day <= d < day + days ==> !Qualifies(shifts, date, d)
    decreases days
  {
    if days > 0 && !Qualifies(shifts, date, day) {
      NextShiftFromSpec(shifts, date, day + 1, days - 1);
      if forall d :: day + 1 <= d < day + days ==> !Qualifies(shifts, date, d) {
        forall d | day <= d < day + days ensures !Qualifies(shifts, date, d) {
          if d > day {}
        }
      }
      var r := NextShiftFrom(shifts, date, day, days);
      if r.Ok? {
        var d :| && day + 1 <= d < day + days
                 && Qualifies(shifts, date, d)
                 && ShiftIntervalOn(shifts, d) == Some(r.value)
                 && forall e :: day + 1 <= e < d ==> !Qualifies(shifts, date, e);
        assert forall e :: day <= e < d ==> !Qualifies(shifts, date, e) by {
          forall e | day <= e < d ensures !Qualifies(shifts, date, e) {
            if e > day {}
          }
        }
      }
    } else if days > 0 {
      assert Qualifies(shifts, date, day);
    }
  }

  /** getNextShiftInterval: scans at most `maxDaysLookahead` UTC days,
      starting with the day of `date`, for the first day whose shift holds
      `date` or starts at or after it. */
  method GetNextShiftInterval(wc: WorkCenter, date: int, maxDaysLookahead: int) returns (r: Result<Interval, CalendarError>)
    ensures r == NextShift(wc.shifts, date, maxDaysLookahead)
    ensures r.Ok? ==> (r.value.start <= date < r.value.end) || r.value.start >= date
    ensures r.Ok? ==> exists d :: && DayKey(date) <= d < DayKey(date) + maxDaysLookahead
                                  && ShiftIntervalOn(wc.shifts, d) == Some(r.value)
                                  && forall e :: DayKey(date) <= e < d ==> !Qualifies(wc.shifts, date, e)
    ensures r.Err? <==> forall d :: DayKey(date) <= d < DayKey(date) + maxDaysLookahead ==> !Qualifies(wc.shifts, date, d)
  {
    NextShiftFromSpec(wc.shifts, date, DayKey(date), maxDaysLookahead);
    var current := DayStart(DayKey(date));
    ghost var day := DayKey(date);
    var i := 0;
    while i < maxDaysLookahead
      invariant 0 <= i && (i <= maxDaysLookahead || i == 0)
      invariant day == DayKey(date) + i && current == DayStart(day)
      invariant NextShift(wc.shifts, date, maxDaysLookahead) == NextShiftFrom(wc.shifts, date, day, maxDaysLookahead - i)
    {
      DayStartKey(day);
      var dayOfWeek := Weekday(current / 1440);
      var shift := FindShift(wc.shifts, dayOfWeek);
      if shift.Some? {
        var shiftStart := current + Hours(shift.value.startHour);
        var shiftEnd := current + Hours(shift.value.endHour);
        assert ShiftIntervalOn(wc.shifts, day) == Some(Interval(shiftStart, shiftEnd));
        if date >= shiftStart && date < shiftEnd {
          return Ok(Interval(shiftStart, shiftEnd));
        }
        if shiftStart >= date {
          return Ok(Interval(shiftStart, shiftEnd));
        }
      }
      current := current + MINUTES_PER_DAY;
      day := day + 1;
      i := i + 1;
    }
    return Err(NoShiftFound);
  }
}
