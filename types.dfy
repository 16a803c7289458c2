/** The value types of the calendar: event kinds, catalog entries and grid cells. */
module CalendarTypes {
  import opened Optional
  import opened Dates

  datatype EventType = Holiday | Commemorative | Special

  /**
   * One catalog entry. `date` is `yyyy-MM-dd` text; `description` and
   * `businessTip` are optional fields of the record.
   */
  datatype CalendarEvent = CalendarEvent(
    date: string,
    title: string,
    eventType: EventType,
    description: Option<string>,
    businessTip: Option<string>)

  /** One cell of the month grid. */
  datatype DayData = DayData(date: Date, isCurrentMonth: bool, isToday: bool, events: seq<CalendarEvent>)
}
