/**
 * The month grid of the calendar page: every day from the Sunday on or
 * before the first of the anchor month to the Saturday on or after its last
 * day, each flagged as inside or outside the anchor month and as today or
 * not, and carrying the catalog entries shown on it under the active type
 * filter. Also the choice of how each cell is drawn and the texts of the
 * day-detail view.
 */
module CalendarGrid {
  import opened Optional
  import opened Dates
  import opened CalendarTypes
  import opened Catalog
  import opened Filtering

  // ---------------------------------------------------------------------
  // The events of one cell

  /** Entries dated exactly `key`. */
  function OnDate(key: string): CalendarEvent -> bool {
    (e: CalendarEvent) => e.date == key
  }

  /** Entries of type `t`. */
  function OfType(t: EventType): CalendarEvent -> bool {
    (e: CalendarEvent) => e.eventType == t
  }

  /** Whether the active filter lets `e` through: anything passes when none is set. */
  predicate Admits(filter: Option<EventType>, e: CalendarEvent) {
    filter.None? || e.eventType == filter.value
  }

  /** The one-step reference for a cell's events: dated `key` and admitted by the filter. */
  function ShownOn(key: string, filter: Option<EventType>): CalendarEvent -> bool {
    (e: CalendarEvent) => e.date == key && Admits(filter, e)
  }

  /**
   * The events of the cell whose formatted date is `key`: first the entries
   * on that date, then, when a filter is active, only those of its type.
   */
  function DayEvents(catalog: seq<CalendarEvent>, key: string, filter: Option<EventType>): (r: seq<CalendarEvent>)
    ensures forall e | e in r :: e in catalog && e.date == key && Admits(filter, e)
    ensures forall e | e in catalog && e.date == key && Admits(filter, e) :: e in r
  {
    var onDay := Filter(catalog, OnDate(key));
    if filter.Some? then Filter(onDay, OfType(filter.value)) else onDay
  }

  /** The two filtering steps are the single filter "on this date and admitted". */
  lemma DayEventsOneStep(catalog: seq<CalendarEvent>, key: string, filter: Option<EventType>)
    ensures DayEvents(catalog, key, filter) == Filter(catalog, ShownOn(key, filter))
  {
    if filter.Some? {
      FilterTwice(catalog, OnDate(key), OfType(filter.value), ShownOn(key, filter));
    } else {
      FilterTwice(catalog, OnDate(key), (e: CalendarEvent) => true, ShownOn(key, filter));
      FilterAll(Filter(catalog, OnDate(key)), (e: CalendarEvent) => true);
    }
  }

  /**
   * A cell's events are exactly the catalog entries on its date that the
   * filter admits: in catalog order, each as often as the catalog lists it.
   */
  lemma DayEventsExact(catalog: seq<CalendarEvent>, key: string, filter: Option<EventType>)
    ensures IsSubsequence(DayEvents(catalog, key, filter), catalog)
    ensures forall e :: (multiset(DayEvents(catalog, key, filter))[e] ==
      if e.date == key && Admits(filter, e) then multiset(catalog)[e] else 0)
  {
    DayEventsOneStep(catalog, key, filter);
    FilterIsSubsequence(catalog, ShownOn(key, filter));
    forall e {
      FilterCount(catalog, ShownOn(key, filter), e);
    }
  }

  /**
   * Setting a filter only removes events from a cell: what remains keeps its
   * order and is every unfiltered event of that type.
   */
  lemma FilterNarrows(catalog: seq<CalendarEvent>, key: string, t: EventType)
    ensures IsSubsequence(DayEvents(catalog, key, Some(t)), DayEvents(catalog, key, None))
    ensures forall e | e in DayEvents(catalog, key, None) && e.eventType == t :: e in DayEvents(catalog, key, Some(t))
  {
    FilterIsSubsequence(DayEvents(catalog, key, None), OfType(t));
  }

  // ---------------------------------------------------------------------
  // The days of the grid

  /** The Sunday on or before the first of the anchor month. */
  function GridStart(anchor: Date): (r: Date)
    requires ValidDate(anchor)
    ensures ValidDate(r) && DayOfWeek(r) == 0
  {
    StartOfWeek(StartOfMonth(anchor))
  }

  /** The Saturday on or after the last day of the anchor month. */
  function GridEnd(anchor: Date): (r: Date)
    requires ValidDate(anchor)
    ensures ValidDate(r) && DayOfWeek(r) == 6
  {
    EndOfWeek(EndOfMonth(StartOfMonth(anchor)))
  }

  /** How many days of the previous month precede the first of the anchor month. */
  function Lead(anchor: Date): int
    requires ValidDate(anchor)
  {
    DayOfWeek(StartOfMonth(anchor))
  }

  /** Every day from GridStart to GridEnd, in order. */
  function GridDays(anchor: Date): (days: seq<Date>)
    requires ValidDate(anchor)
    ensures |days| == Ordinal(GridEnd(anchor)) - Ordinal(GridStart(anchor)) + 1
    ensures forall i | 0 <= i < |days| :: ValidDate(days[i]) && Ordinal(days[i]) == Ordinal(GridStart(anchor)) + i
  {
    assert Ordinal(EndOfMonth(StartOfMonth(anchor))) ==
      Ordinal(StartOfMonth(anchor)) + DaysInMonth(anchor.year, anchor.month) - 1;
    EachDayOfInterval(GridStart(anchor), GridEnd(anchor))
  }

  /** The grid's first day, the last day of the anchor month and the grid's last day, as ordinals. */
  lemma GridBounds(anchor: Date)
    requires ValidDate(anchor)
    ensures Ordinal(GridStart(anchor)) == Ordinal(StartOfMonth(anchor)) - Lead(anchor)
    ensures Ordinal(EndOfMonth(StartOfMonth(anchor))) == Ordinal(StartOfMonth(anchor)) + DaysInMonth(anchor.year, anchor.month) - 1
    ensures DayOfWeek(EndOfMonth(StartOfMonth(anchor))) == (Lead(anchor) + DaysInMonth(anchor.year, anchor.month) - 1) % 7
    ensures Ordinal(GridEnd(anchor)) == Ordinal(EndOfMonth(StartOfMonth(anchor))) + 6 - DayOfWeek(EndOfMonth(StartOfMonth(anchor)))
  {
    var ms := StartOfMonth(anchor);
    var dim := DaysInMonth(anchor.year, anchor.month);
    assert Ordinal(EndOfMonth(ms)) == Ordinal(ms) + dim - 1;
    WeekdayShift(ms, EndOfMonth(ms), dim - 1);
  }

  lemma DaysLength(anchor: Date)
    requires ValidDate(anchor)
    ensures |GridDays(anchor)| == 7 * ((Lead(anchor) + DaysInMonth(anchor.year, anchor.month) - 1) / 7 + 1)
    ensures var n := |GridDays(anchor)|; n == 28 || n == 35 || n == 42
    ensures Lead(anchor) + DaysInMonth(anchor.year, anchor.month) <= |GridDays(anchor)|
            <= Lead(anchor) + DaysInMonth(anchor.year, anchor.month) + 6
  {
    var ms := StartOfMonth(anchor);
    GridBounds(anchor);
    WholeWeeks(|GridDays(anchor)|, Ordinal(GridStart(anchor)), Ordinal(ms), Ordinal(EndOfMonth(ms)),
               Ordinal(GridEnd(anchor)), Lead(anchor), DaysInMonth(anchor.year, anchor.month), DayOfWeek(EndOfMonth(ms)));
  }

  /**
   * Arithmetic of the grid length: from `lead` days before the first of the
   * month to the Saturday after its last day is lead + days, rounded up to
   * whole weeks.
   */
  lemma WholeWeeks(len: int, start: int, first: int, last: int, end: int, lead: int, days: int, w: int)
    requires 0 <= lead < 7 && 28 <= days <= 31
    requires len == end - start + 1 && start == first - lead && last == first + days - 1
    requires w == (lead + days - 1) % 7 && end == last + 6 - w
    ensures len == 7 * ((lead + days - 1) / 7 + 1)
    ensures len == 28 || len == 35 || len == 42
    ensures lead + days <= len <= lead + days + 6
  {
    var n := lead + days - 1;
    assert n == 7 * (n / 7) + n % 7;
    assert 3 <= n / 7 <= 5;
  }

  lemma DayWeekday(anchor: Date, i: int)
    requires ValidDate(anchor) && 0 <= i < |GridDays(anchor)|
    ensures DayOfWeek(GridDays(anchor)[i]) == i % 7
  {
    WeekdayInRun(GridStart(anchor), GridDays(anchor)[i], i);
  }

  lemma DayPlace(anchor: Date, i: int)
    requires ValidDate(anchor) && 0 <= i < |GridDays(anchor)|
    ensures SameMonth(GridDays(anchor)[i], StartOfMonth(anchor)) <==>
      Lead(anchor) <= i < Lead(anchor) + DaysInMonth(anchor.year, anchor.month)
    ensures Lead(anchor) <= i < Lead(anchor) + DaysInMonth(anchor.year, anchor.month) ==>
      GridDays(anchor)[i] == Date(anchor.year, anchor.month, i - Lead(anchor) + 1)
    ensures i < Lead(anchor) ==> var (py, pm) := PrevMonthOf(anchor.year, anchor.month);
      GridDays(anchor)[i] == Date(py, pm, DaysInMonth(py, pm) - Lead(anchor) + i + 1)
    ensures Lead(anchor) + DaysInMonth(anchor.year, anchor.month) <= i ==> var (ny, nm) := NextMonthOf(anchor.year, anchor.month);
      GridDays(anchor)[i] == Date(ny, nm, i - Lead(anchor) - DaysInMonth(anchor.year, anchor.month) + 1)
  {
    GridBounds(anchor);
    DaysLength(anchor);
    PlaceAroundMonth(StartOfMonth(anchor), GridDays(anchor)[i], i - Lead(anchor));
  }

  lemma DaysDistinct(anchor: Date, i: int, j: int)
    requires ValidDate(anchor) && 0 <= i < |GridDays(anchor)| && 0 <= j < |GridDays(anchor)|
    requires GridDays(anchor)[i] == GridDays(anchor)[j]
    ensures i == j
  {
    SameOffset(Ordinal(GridDays(anchor)[i]), Ordinal(GridDays(anchor)[j]), Ordinal(GridStart(anchor)), i, j);
  }

  /** The grid runs from GridStart to GridEnd, so it opens on a Sunday and closes on a Saturday. */
  lemma DaysEnds(anchor: Date)
    requires ValidDate(anchor)
    ensures |GridDays(anchor)| > 0
    ensures GridDays(anchor)[0] == GridStart(anchor) && DayOfWeek(GridDays(anchor)[0]) == 0
    ensures GridDays(anchor)[|GridDays(anchor)| - 1] == GridEnd(anchor)
    ensures DayOfWeek(GridDays(anchor)[|GridDays(anchor)| - 1]) == 6
  {
    var days := GridDays(anchor);
    DaysLength(anchor);
    OrdinalInjective(days[0], GridStart(anchor));
    OrdinalInjective(days[|days| - 1], GridEnd(anchor));
  }

  lemma DaysCoverMonth(anchor: Date, day: int)
    requires ValidDate(anchor) && 1 <= day <= DaysInMonth(anchor.year, anchor.month)
    ensures Lead(anchor) + day - 1 < |GridDays(anchor)|
    ensures GridDays(anchor)[Lead(anchor) + day - 1] == Date(anchor.year, anchor.month, day)
  {
    var k := Lead(anchor) + day - 1;
    assert k < |GridDays(anchor)| by {
      DaysLength(anchor);
    }
    var x := GridDays(anchor)[k];
    assert Ordinal(x) == Ordinal(StartOfMonth(anchor)) + (day - 1) by {
      GridBounds(anchor);
    }
    PlaceAroundMonth(StartOfMonth(anchor), x, day - 1);
  }

  lemma DaysUnique(anchor: Date, k: int)
    requires ValidDate(anchor) && 0 <= k < |GridDays(anchor)|
    ensures forall i | 0 <= i < |GridDays(anchor)| && GridDays(anchor)[i] == GridDays(anchor)[k] :: i == k
  {
    var days := GridDays(anchor);
    forall i | 0 <= i < |days| && days[i] == days[k]
      ensures i == k
    {
      DaysDistinct(anchor, i, k);
    }
  }

  /** The grid of a January that starts on a Thursday: four days of December, then the month. */
  lemma JanuaryDay(anchor: Date, i: int)
    requires ValidDate(anchor) && anchor.month == 1 && Lead(anchor) == 4 && 0 <= i < |GridDays(anchor)|
    ensures i < 4 ==> GridDays(anchor)[i] == Date(anchor.year - 1, 12, 28 + i)
    ensures 4 <= i < 35 ==> GridDays(anchor)[i] == Date(anchor.year, 1, i - 3)
  {
    DayPlace(anchor, i);
  }

  lemma SameOffset(a: int, b: int, start: int, i: int, j: int)
    requires a == start + i && b == start + j && a == b
    ensures i == j
  {
  }

  lemma LastOfWeeks(w: int, n: int)
    requires w == (n - 1) % 7 && (n == 28 || n == 35 || n == 42)
    ensures w == 6
  {
  }

  // ---------------------------------------------------------------------
  // The cells

  function MakeCell(day: Date, monthStart: Date, filter: Option<EventType>, catalog: seq<CalendarEvent>, today: Date): (cell: DayData)
    requires ValidDate(day)
    ensures cell.date == day && (cell.isToday <==> day == today)
    ensures cell.isCurrentMonth <==> day.year == monthStart.year && day.month == monthStart.month
    ensures forall e | e in cell.events :: e in catalog && e.date == Format(day) && Admits(filter, e)
    ensures forall e | e in catalog && e.date == Format(day) && Admits(filter, e) :: e in cell.events
  {
    DayData(day, SameMonth(day, monthStart), day == today, DayEvents(catalog, Format(day), filter))
  }

  /**
   * The cells of the month holding `anchor`, one per grid day. `today`
   * stands for the clock reading the page takes.
   */
  function CalendarDays(anchor: Date, filter: Option<EventType>, catalog: seq<CalendarEvent>, today: Date): (cells: seq<DayData>)
    requires ValidDate(anchor)
    ensures |cells| == |GridDays(anchor)|
    ensures forall i | 0 <= i < |cells| :: cells[i].date == GridDays(anchor)[i]
    ensures forall i | 0 <= i < |cells| :: cells[i].isCurrentMonth == SameMonth(GridDays(anchor)[i], StartOfMonth(anchor))
  {
    var days := GridDays(anchor);
    seq(|days|, i requires 0 <= i < |days| => MakeCell(days[i], StartOfMonth(anchor), filter, catalog, today))
  }

  lemma CellAt(anchor: Date, filter: Option<EventType>, catalog: seq<CalendarEvent>, today: Date, i: int)
    requires ValidDate(anchor)
    requires 0 <= i < |CalendarDays(anchor, filter, catalog, today)|
    ensures CalendarDays(anchor, filter, catalog, today)[i] ==
      MakeCell(GridDays(anchor)[i], StartOfMonth(anchor), filter, catalog, today)
  {
  }

  /** The grid holds whole weeks: 4, 5 or 6 of them, covering the month with less than a week either side. */
  lemma GridSize(anchor: Date, filter: Option<EventType>, catalog: seq<CalendarEvent>, today: Date)
    requires ValidDate(anchor)
    ensures |CalendarDays(anchor, filter, catalog, today)| ==
      7 * ((Lead(anchor) + DaysInMonth(anchor.year, anchor.month) - 1) / 7 + 1)
    ensures var n := |CalendarDays(anchor, filter, catalog, today)|; n == 28 || n == 35 || n == 42
    ensures Lead(anchor) + DaysInMonth(anchor.year, anchor.month) <= |CalendarDays(anchor, filter, catalog, today)|
            <= Lead(anchor) + DaysInMonth(anchor.year, anchor.month) + 6
  {
    DaysLength(anchor);
  }

  /** Cell i falls on weekday i mod 7, so the cells line up with the weekday headings, Sunday first. */
  lemma GridWeekdays(anchor: Date, filter: Option<EventType>, catalog: seq<CalendarEvent>, today: Date)
    requires ValidDate(anchor)
    ensures var cells := CalendarDays(anchor, filter, catalog, today);
      forall i | 0 <= i < |cells| :: DayOfWeek(cells[i].date) == i % 7
  {
    var cells := CalendarDays(anchor, filter, catalog, today);
    forall i | 0 <= i < |cells|
      ensures DayOfWeek(cells[i].date) == i % 7
    {
      DayWeekday(anchor, i);
    }
  }

  /** The grid starts on a Sunday and ends on a Saturday. */
  lemma GridEnds(anchor: Date, filter: Option<EventType>, catalog: seq<CalendarEvent>, today: Date)
    requires ValidDate(anchor)
    ensures var cells := CalendarDays(anchor, filter, catalog, today);
      |cells| > 0 && DayOfWeek(cells[0].date) == 0 && DayOfWeek(cells[|cells| - 1].date) == 6
  {
    var cells := CalendarDays(anchor, filter, catalog, today);
    var days := GridDays(anchor);
    DaysEnds(anchor);
    assert cells[0].date == days[0];
    assert cells[|cells| - 1].date == days[|days| - 1];
  }

  /** Consecutive cells hold consecutive days, and no date appears twice. */
  lemma GridConsecutive(anchor: Date, filter: Option<EventType>, catalog: seq<CalendarEvent>, today: Date)
    requires ValidDate(anchor)
    ensures var cells := CalendarDays(anchor, filter, catalog, today);
      forall i | 0 <= i < |cells| - 1 :: cells[i + 1].date == NextDay(cells[i].date)
    ensures var cells := CalendarDays(anchor, filter, catalog, today);
      forall i, j | 0 <= i < |cells| && 0 <= j < |cells| && cells[i].date == cells[j].date :: i == j
  {
    var days := GridDays(anchor);
    forall i | 0 <= i < |days| - 1
      ensures days[i + 1] == NextDay(days[i])
    {
      OrdinalInjective(days[i + 1], NextDay(days[i]));
    }
    forall i, j | 0 <= i < |days| && 0 <= j < |days| && days[i] == days[j]
      ensures i == j
    {
      DaysDistinct(anchor, i, j);
    }
  }

  /**
   * Where cell i falls: the cells Lead .. Lead + days - 1 are the days of
   * the anchor month in order and the only ones flagged as in it; the Lead
   * cells before them are the last days of the previous month and the cells
   * after them the first days of the next.
   */
  lemma GridCell(anchor: Date, filter: Option<EventType>, catalog: seq<CalendarEvent>, today: Date, i: int)
    requires ValidDate(anchor)
    requires 0 <= i < |CalendarDays(anchor, filter, catalog, today)|
    ensures var cell := CalendarDays(anchor, filter, catalog, today)[i];
      cell.isCurrentMonth <==> Lead(anchor) <= i < Lead(anchor) + DaysInMonth(anchor.year, anchor.month)
    ensures var cell := CalendarDays(anchor, filter, catalog, today)[i];
      Lead(anchor) <= i < Lead(anchor) + DaysInMonth(anchor.year, anchor.month) ==>
        cell.date == Date(anchor.year, anchor.month, i - Lead(anchor) + 1)
    ensures var cell := CalendarDays(anchor, filter, catalog, today)[i];
      i < Lead(anchor) ==> var (py, pm) := PrevMonthOf(anchor.year, anchor.month);
        cell.date == Date(py, pm, DaysInMonth(py, pm) - Lead(anchor) + i + 1)
    ensures var cell := CalendarDays(anchor, filter, catalog, today)[i];
      Lead(anchor) + DaysInMonth(anchor.year, anchor.month) <= i ==> var (ny, nm) := NextMonthOf(anchor.year, anchor.month);
        cell.date == Date(ny, nm, i - Lead(anchor) - DaysInMonth(anchor.year, anchor.month) + 1)
  {
    CellAt(anchor, filter, catalog, today, i);
    DayPlace(anchor, i);
  }

  /** Every day of the anchor month has exactly one cell, and that cell is flagged as in the month. */
  lemma GridCoversMonth(anchor: Date, filter: Option<EventType>, catalog: seq<CalendarEvent>, today: Date, day: int)
    requires ValidDate(anchor) && 1 <= day <= DaysInMonth(anchor.year, anchor.month)
    ensures var cells := CalendarDays(anchor, filter, catalog, today);
      Lead(anchor) + day - 1 < |cells| &&
      cells[Lead(anchor) + day - 1].date == Date(anchor.year, anchor.month, day) &&
      cells[Lead(anchor) + day - 1].isCurrentMonth
    ensures var cells := CalendarDays(anchor, filter, catalog, today);
      forall i | 0 <= i < |cells| && cells[i].date == Date(anchor.year, anchor.month, day) :: i == Lead(anchor) + day - 1
  {
    DaysCoverMonth(anchor, day);
    DaysUnique(anchor, Lead(anchor) + day - 1);
  }

  /** The flags and events of every cell, whatever the anchor. */
  lemma GridCellContents(anchor: Date, filter: Option<EventType>, catalog: seq<CalendarEvent>, today: Date, i: int)
    requires ValidDate(anchor)
    requires 0 <= i < |CalendarDays(anchor, filter, catalog, today)|
    ensures var cell := CalendarDays(anchor, filter, catalog, today)[i];
      (cell.isToday <==> cell.date == today) &&
      IsSubsequence(cell.events, catalog) &&
      forall e :: (multiset(cell.events)[e] ==
        if e.date == Format(cell.date) && Admits(filter, e) then multiset(catalog)[e] else 0)
  {
    CellAt(anchor, filter, catalog, today, i);
    DayEventsExact(catalog, Format(GridDays(anchor)[i]), filter);
  }

  /** A month that starts on a Sunday and has 28 days fills its grid exactly: four weeks, no padding. */
  lemma FourWeekMonth(anchor: Date, filter: Option<EventType>, catalog: seq<CalendarEvent>, today: Date)
    requires ValidDate(anchor) && Lead(anchor) == 0 && DaysInMonth(anchor.year, anchor.month) == 28
    ensures var cells := CalendarDays(anchor, filter, catalog, today);
      |cells| == 28 &&
      forall i | 0 <= i < 28 :: cells[i].isCurrentMonth && cells[i].date == Date(anchor.year, anchor.month, i + 1)
  {
    DaysLength(anchor);
    forall i | 0 <= i < 28
      ensures CalendarDays(anchor, filter, catalog, today)[i].isCurrentMonth
      ensures CalendarDays(anchor, filter, catalog, today)[i].date == Date(anchor.year, anchor.month, i + 1)
    {
      GridCell(anchor, filter, catalog, today, i);
    }
  }

  /** February 2026 starts on a Sunday and has 28 days, so its grid is exactly its four weeks. */
  lemma February2026(anchor: Date, filter: Option<EventType>, catalog: seq<CalendarEvent>, today: Date)
    requires anchor == Date(2026, 2, 1)
    ensures var cells := CalendarDays(anchor, filter, catalog, today);
      |cells| == 28 && cells[0].date == Date(2026, 2, 1) && cells[27].date == Date(2026, 2, 28) &&
      forall i | 0 <= i < 28 :: cells[i].isCurrentMonth
  {
    assert Lead(anchor) == 0 by {
      KnownWeekdays();
    }
    FourWeekMonth(anchor, filter, catalog, today);
  }

  /**
   * A January that starts on a Thursday has a 35-cell grid: Sunday 28
   * December of the year before, then the 31 days of January, ending on a
   * Saturday.
   */
  lemma ThursdayJanuary(anchor: Date, filter: Option<EventType>, catalog: seq<CalendarEvent>, today: Date)
    requires ValidDate(anchor) && anchor.month == 1 && Lead(anchor) == 4
    ensures var cells := CalendarDays(anchor, filter, catalog, today);
      |cells| == 35 && cells[0].date == Date(anchor.year - 1, 12, 28) && !cells[0].isCurrentMonth &&
      cells[4].date == Date(anchor.year, 1, 1) && cells[34].date == Date(anchor.year, 1, 31)
  {
    DaysLength(anchor);
    JanuaryDay(anchor, 0);
    JanuaryDay(anchor, 4);
    JanuaryDay(anchor, 34);
  }

  /** January 2026, the month the page opens on, starts on a Thursday. */
  lemma January2026(anchor: Date, filter: Option<EventType>, catalog: seq<CalendarEvent>, today: Date)
    requires anchor == Date(2026, 1, 1)
    ensures var cells := CalendarDays(anchor, filter, catalog, today);
      |cells| == 35 && cells[0].date == Date(2025, 12, 28) && !cells[0].isCurrentMonth &&
      cells[4].date == Date(2026, 1, 1) && cells[34].date == Date(2026, 1, 31)
  {
    assert Lead(anchor) == 4 by {
      KnownWeekdays();
    }
    ThursdayJanuary(anchor, filter, catalog, today);
  }
}
