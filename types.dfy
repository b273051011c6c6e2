/** Data shapes of the reflow scheduler (src/reflow/types.ts).
    Every instant is an integer number of minutes since 1970-01-01T00:00Z;
    ISO-8601 strings are not modelled. */
module Types {

  datatype Option<+T> = None | Some(value: T)

  datatype Result<+T, +E> = Ok(value: T) | Err(error: E)

  /** A half-open span of time [start, end). Stands for the source's
      ShiftInterval, Conflict and TimeSlot, which are all start/end pairs. */
  datatype Interval = Interval(start: int, end: int)

  /** A recurring weekly shift: dayOfWeek 0..6 with Sunday = 0, hours 0..23. */
  datatype Shift = Shift(dayOfWeek: int, startHour: int, endHour: int)

  /** An absolute, non-recurring blocked period. */
  datatype MaintenanceWindow = MaintenanceWindow(startDate: int, endDate: int, reason: Option<string>)

  datatype WorkCenter = WorkCenter(
    docId: string,
    name: string,
    shifts: seq<Shift>,
    maintenanceWindows: seq<MaintenanceWindow>)

  /** One uninterrupted block of setup followed by work. */
  datatype Session = Session(
    setupTimeMinutes: int,
    durationTimeMinutes: int,
    startDate: int,
    endDate: int)

  /** An occupancy record committed to the per-day index of a work center. */
  datatype ScheduledEvent = ScheduledEvent(
    workOrderId: string,
    workCenterId: string,
    manufacturingOrderId: string,
    isMaintenance: bool,
    setupTimeMinutes: int,
    durationTimeMinutes: int,
    startDate: int,
    endDate: int)

  /** The `data` payload of a work-order document. `startValid` stands for
      "the start date string parses as an instant". */
  datatype WorkOrderData = WorkOrderData(
    workOrderNumber: string,
    manufacturingOrderId: string,
    workCenterId: string,
    durationMinutes: int,
    setupTimeMinutes: int,
    startDate: int,
    startValid: bool,
    endDate: int,
    sessions: seq<Session>,
    isMaintenance: bool,
    dependsOnWorkOrderIds: seq<string>)

  /** A work-order document; the scheduler overwrites fields of `data` in place. */
  class WorkOrder {
    const docId: string
    var data: WorkOrderData

    constructor (docId: string, data: WorkOrderData)
      ensures this.docId == docId && this.data == data
    {
      this.docId := docId;
      this.data := data;
    }
  }

  function SessionInterval(s: Session): Interval {
    Interval(s.startDate, s.endDate)
  }

  function EventInterval(e: ScheduledEvent): Interval {
    Interval(e.startDate, e.endDate)
  }

  function WindowInterval(w: MaintenanceWindow): Interval {
    Interval(w.startDate, w.endDate)
  }
}
