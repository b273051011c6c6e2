/** Stateless guard checks (src/reflow/validator.ts). Each check either
    passes or fails with a coded ValidationError; the thrown exception of
    the source is the `Fail` value here. */
module Validation {
  import opened Types
  import opened Intervals
  import Calendar

  /** The stable failure codes raised by the validator. */
  datatype ErrorCode =
    | WcNotFound | NoShifts | InvalidDuration | InvalidSetup | InvalidStart | SelfRef
    | MaintReschedule | DepUnsatisfied
    | Incomplete | NoSessions | HorizonExceeded | SessionOverlap
  {
    /** The code string the source attaches to the error. */
    function Name(): string {
      match this
      case WcNotFound => "WC_NOT_FOUND"
      case NoShifts => "NO_SHIFTS"
      case InvalidDuration => "INVALID_DURATION"
      case InvalidSetup => "INVALID_SETUP"
      case InvalidStart => "INVALID_START"
      case SelfRef => "SELF_REF"
      case MaintReschedule => "MAINT_RESCHEDULE"
      case DepUnsatisfied => "DEP_UNSATISFIED"
      case Incomplete => "INCOMPLETE"
      case NoSessions => "NO_SESSIONS"
      case HorizonExceeded => "HORIZON_EXCEEDED"
      case SessionOverlap => "SESSION_OVERLAP"
    }
  }

  /** A ValidationError carries the code it was constructed with. */
  datatype ValidationError = ValidationError(code: ErrorCode)

  datatype Check = Pass | Fail(error: ValidationError)

  /** Distinct codes have distinct code strings, so a caller can tell every
      failure apart by its code. */
  lemma CodeNamesDistinct(a: ErrorCode, b: ErrorCode)
    ensures a.Name() == b.Name() <==> a == b
  {
  }

  // ---------------------------------------------------------------------
  // preSchedule

  /** The order in which preSchedule runs its checks. */
  const PRE_CHECKS: seq<ErrorCode> := [WcNotFound, NoShifts, InvalidDuration, InvalidSetup, InvalidStart, SelfRef]

  /** Whether the pre-schedule check named by `code` passes for work order `id`. */
  predicate PreCheckPasses(code: ErrorCode, id: string, wo: WorkOrderData, workCenters: map<string, WorkCenter>) {
    match code
    case WcNotFound => wo.workCenterId in workCenters
    case NoShifts => wo.workCenterId in workCenters ==> |workCenters[wo.workCenterId].shifts| > 0
    case InvalidDuration => wo.durationMinutes > 0
    case InvalidSetup => wo.setupTimeMinutes >= 0
    case InvalidStart => wo.startValid
    case SelfRef => id !in wo.dependsOnWorkOrderIds
    case _ => true
  }

  /** preSchedule: the work center exists and has shifts, the duration is
      positive, the setup is not negative, the start is a valid instant and
      the work order does not depend on itself. */
  function PreSchedule(id: string, wo: WorkOrderData, workCenters: map<string, WorkCenter>): (r: Check)
    ensures r.Pass? <==> forall k :: 0 <= k < |PRE_CHECKS| ==> PreCheckPasses(PRE_CHECKS[k], id, wo, workCenters)
    ensures r.Fail? ==> exists k :: && 0 <= k < |PRE_CHECKS|
                                    && r.error.code == PRE_CHECKS[k]
                                    && !PreCheckPasses(PRE_CHECKS[k], id, wo, workCenters)
                                    && forall j :: 0 <= j < k ==> PreCheckPasses(PRE_CHECKS[j], id, wo, workCenters)
  {
    assert && PRE_CHECKS[0] == WcNotFound && PRE_CHECKS[1] == NoShifts && PRE_CHECKS[2] == InvalidDuration
           && PRE_CHECKS[3] == InvalidSetup && PRE_CHECKS[4] == InvalidStart && PRE_CHECKS[5] == SelfRef;
    if wo.workCenterId !in workCenters then Fail(ValidationError(WcNotFound))
    else if |workCenters[wo.workCenterId].shifts| == 0 then Fail(ValidationError(NoShifts))
    else if wo.durationMinutes <= 0 then Fail(ValidationError(InvalidDuration))
    else if wo.setupTimeMinutes < 0 then Fail(ValidationError(InvalidSetup))
    else if !wo.startValid then Fail(ValidationError(InvalidStart))
    else if id in wo.dependsOnWorkOrderIds then Fail(ValidationError(SelfRef))
    else Pass
  }

  // ---------------------------------------------------------------------
  // maintenanceNotReschedulable

  /** A fixed (maintenance) work order may not be moved. */
  function MaintenanceNotReschedulable(wo: WorkOrderData, needsReschedule: bool): (r: Check)
    ensures r.Fail? <==> wo.isMaintenance && needsReschedule
    ensures r.Fail? ==> r.error.code == MaintReschedule
  {
    if wo.isMaintenance && needsReschedule then Fail(ValidationError(MaintReschedule)) else Pass
  }

  // ---------------------------------------------------------------------
  // dependenciesSatisfied

  /** Dependency `dep` is already scheduled and ends after `startTime`. */
  predicate Blocks(dep: string, startTime: int, scheduled: map<string, WorkOrderData>) {
    dep in scheduled && scheduled[dep].endDate > startTime
  }

  /** The first dependency, in list order, that blocks `startTime`. */
  function FirstUnsatisfied(deps: seq<string>, startTime: int, scheduled: map<string, WorkOrderData>): (r: Option<string>)
    ensures r.None? <==> forall i :: 0 <= i < |deps| ==> !Blocks(deps[i], startTime, scheduled)
    ensures r.Some? ==> exists i :: && 0 <= i < |deps| && deps[i] == r.value && Blocks(deps[i], startTime, scheduled)
                                    && forall j :: 0 <= j < i ==> !Blocks(deps[j], startTime, scheduled)
  {
    if |deps| == 0 then None
    else if Blocks(deps[0], startTime, scheduled) then Some(deps[0])
    else
      var r := FirstUnsatisfied(deps[1..], startTime, scheduled);
      assert forall i :: 1 <= i < |deps| ==> deps[i] == deps[1..][i - 1];
      if r.Some? then
        var i :| && 0 <= i < |deps[1..]| && deps[1..][i] == r.value && Blocks(deps[1..][i], startTime, scheduled)
                 && forall j :: 0 <= j < i ==> !Blocks(deps[1..][j], startTime, scheduled);
        assert deps[i + 1] == r.value;
        r
      else r
  }

  /** dependenciesSatisfied: fails iff some dependency present in the map of
      scheduled work orders ends strictly after `startTime`; dependencies
      missing from the map are skipped and an end equal to `startTime` is
      allowed. */
  function DependenciesSatisfied(wo: WorkOrderData, startTime: int, scheduled: map<string, WorkOrderData>): (r: Check)
    ensures r.Fail? <==> exists i :: 0 <= i < |wo.dependsOnWorkOrderIds| && Blocks(wo.dependsOnWorkOrderIds[i], startTime, scheduled)
    ensures r.Fail? ==> r.error.code == DepUnsatisfied
  {
    match FirstUnsatisfied(wo.dependsOnWorkOrderIds, startTime, scheduled)
    case Some(_) => Fail(ValidationError(DepUnsatisfied))
    case None => Pass
  }

  // ---------------------------------------------------------------------
  // postSchedule

  /** The order in which postSchedule runs its checks. */
  const POST_CHECKS: seq<ErrorCode> := [Incomplete, NoSessions, HorizonExceeded]

  /** Whether the post-schedule check named by `code` passes. The elapsed time
      is compared in minutes against `maxDays` whole days. A start that does
      not parse makes the elapsed time undefined (NaN), and a comparison with
      it is false, so the horizon check then passes. */
  predicate PostCheckPasses(code: ErrorCode, wo: WorkOrderData, sessions: seq<Session>, remainingDuration: int, maxDays: int) {
    match code
    case Incomplete => remainingDuration <= 0
    case NoSessions => |sessions| > 0
    case HorizonExceeded =>
      |sessions| > 0 && wo.startValid ==> sessions[|sessions| - 1].endDate - wo.startDate <= Calendar.DayStart(maxDays)
    case _ => true
  }

  /** postSchedule: all work was placed, at least one session exists and the
      last session ends within `maxDays` days of the work order's start. */
  function PostSchedule(wo: WorkOrderData, sessions: seq<Session>, remainingDuration: int, maxDays: int): (r: Check)
    ensures r.Pass? <==> forall k :: 0 <= k < |POST_CHECKS| ==> PostCheckPasses(POST_CHECKS[k], wo, sessions, remainingDuration, maxDays)
    ensures r.Fail? ==> exists k :: && 0 <= k < |POST_CHECKS|
                                    && r.error.code == POST_CHECKS[k]
                                    && !PostCheckPasses(POST_CHECKS[k], wo, sessions, remainingDuration, maxDays)
                                    && forall j :: 0 <= j < k ==> PostCheckPasses(POST_CHECKS[j], wo, sessions, remainingDuration, maxDays)
  {
    assert POST_CHECKS[0] == Incomplete && POST_CHECKS[1] == NoSessions && POST_CHECKS[2] == HorizonExceeded;
    if remainingDuration > 0 then Fail(ValidationError(Incomplete))
    else if |sessions| == 0 then Fail(ValidationError(NoSessions))
    else if wo.startValid && sessions[|sessions| - 1].endDate - wo.startDate > Calendar.DayStart(maxDays) then Fail(ValidationError(HorizonExceeded))
    else Pass
  }

  /** With a start that does not parse, complete work and at least one
      session pass, however late the last session ends. */
  lemma UnparsedStartPassesHorizon(wo: WorkOrderData, sessions: seq<Session>, remainingDuration: int, maxDays: int)
    requires !wo.startValid && remainingDuration <= 0 && |sessions| > 0
    ensures PostSchedule(wo, sessions, remainingDuration, maxDays) == Pass
  {
    assert PostCheckPasses(POST_CHECKS[2], wo, sessions, remainingDuration, maxDays);
  }

  // ---------------------------------------------------------------------
  // sessionsNoOverlap

  function SessionIntervals(sessions: seq<Session>): (r: seq<Interval>)
    ensures |r| == |sessions|
    ensures forall i :: 0 <= i < |sessions| ==> r[i] == SessionInterval(sessions[i])
  {
    seq(|sessions|, i requires 0 <= i < |sessions| => SessionInterval(sessions[i]))
  }

  predicate WellFormed(s: seq<Interval>) {
    forall i :: 0 <= i < |s| ==> s[i].start <= s[i].end
  }

  /** Each interval ends no later than the next one starts. */
  predicate Chained(s: seq<Interval>) {
    forall i :: 0 < i < |s| ==> s[i - 1].end <= s[i].start
  }

  /** No two intervals of the list overlap, the earlier one ending first. */
  predicate PairwiseDisjoint(s: seq<Interval>) {
    forall i, j :: 0 <= i < j < |s| ==> s[i].end <= s[j].start
  }

  lemma {:induction false} ChainedIsPairwiseDisjoint(s: seq<Interval>, i: int, j: int)
    requires WellFormed(s) && Chained(s)
    requires 0 <= i < j < |s|
    ensures s[i].end <= s[j].start
    decreases j - i
  {
    if i + 1 < j {
      ChainedIsPairwiseDisjoint(s, i + 1, j);
    }
  }

  /** Some interval starts strictly before the one before it ends. */
  predicate StartsBeforePreviousEnds(s: seq<Interval>) {
    exists i :: 0 < i < |s| && s[i].start < s[i - 1].end
  }

  /** sessionsNoOverlap: sorts a copy of the sessions by start and fails iff
      some session starts strictly before its predecessor ends; sessions
      that only touch pass. For sessions with start <= end this is the same
      as: in start order, no two sessions overlap. */
  function SessionsNoOverlap(sessions: seq<Session>): (r: Check)
    ensures r.Fail? <==> StartsBeforePreviousEnds(SortByStart(SessionIntervals(sessions)))
    ensures r.Fail? ==> r.error.code == SessionOverlap
    ensures WellFormed(SessionIntervals(sessions)) ==> (r.Pass? <==> PairwiseDisjoint(SortByStart(SessionIntervals(sessions))))
  {
    var sorted := SortByStart(SessionIntervals(sessions));
    if StartsBeforePreviousEnds(sorted) then
      assert !PairwiseDisjoint(sorted) by {
        var i :| 0 < i < |sorted| && sorted[i].start < sorted[i - 1].end;
        assert !(sorted[i - 1].end <= sorted[i].start);
      }
      Fail(ValidationError(SessionOverlap))
    else
      assert WellFormed(SessionIntervals(sessions)) ==> PairwiseDisjoint(sorted) by {
        if WellFormed(SessionIntervals(sessions)) {
          SortedWellFormed(SessionIntervals(sessions));
          forall i, j | 0 <= i < j < |sorted| ensures sorted[i].end <= sorted[j].start {
            ChainedIsPairwiseDisjoint(sorted, i, j);
          }
        }
      }
      Pass
  }

  /** Sorting keeps every interval, so it keeps start <= end. */
  lemma SortedWellFormed(s: seq<Interval>)
    requires WellFormed(s)
    ensures WellFormed(SortByStart(s))
  {
    var sorted := SortByStart(s);
    forall k | 0 <= k < |sorted| ensures sorted[k].start <= sorted[k].end {
      assert sorted[k] in multiset(sorted);
      assert sorted[k] in multiset(s);
    }
  }

  /** Sessions laid out one after the other in time pass the overlap check,
      whatever their setup and work split. */
  lemma ChainedSessionsPass(sessions: seq<Session>)
    requires WellFormed(SessionIntervals(sessions)) && Chained(SessionIntervals(sessions))
    ensures SessionsNoOverlap(sessions) == Pass
  {
    var s := SessionIntervals(sessions);
    assert SortedByStart(s) by {
      forall i, j | 0 <= i < j < |s| ensures s[i].start <= s[j].start {
        ChainedIsPairwiseDisjoint(s, i, j);
      }
    }
    SortByStartOfSorted(s);
  }
}
