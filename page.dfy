/**
 * The calendar page's state: the month on show, the active type filter,
 * the open day details and the element that had focus when they opened.
 * Handlers change this state one step at a time; the grid is recomputed
 * from it.
 */
module Page {
  import opened Optional
  import opened Dates
  import opened CalendarTypes
  import opened Catalog
  import opened CalendarGrid
  import opened CalendarView

  /** A focusable element of the document; the details' close button is the one the page names. */
  datatype Element = CloseButton | Control(id: nat)

  /** The filter after pressing the button for `t`: pressing the active type clears it. */
  function Toggle(prev: Option<EventType>, t: EventType): (r: Option<EventType>)
    ensures r == None <==> prev == Some(t)
    ensures r != None ==> r == Some(t)
  {
    if prev == Some(t) then None else Some(t)
  }

  /** Pressing the same type twice restores the filter when it was off or that type, and clears it otherwise. */
  lemma ToggleTwice(prev: Option<EventType>, t: EventType)
    ensures Toggle(Toggle(prev, t), t) == prev <==> prev == None || prev == Some(t)
    ensures prev != None && prev != Some(t) ==> Toggle(Toggle(prev, t), t) == None
  {
  }

  /** The month quick navigation opens for button i (0 for January): the first of that month of 2026. */
  function QuickNavTarget(i: int): (d: Date)
    requires 0 <= i < |MONTHS|
    ensures ValidDate(d) && d.day == 1 && d.year == 2026 && d.month == i + 1
  {
    Date(2026, i + 1, 1)
  }

  /** Next month then previous month lands back on the same first-of-month anchor, and so does the reverse. */
  lemma MonthNavigationRoundTrip(d: Date)
    requires ValidDate(d) && d.day == 1
    ensures AddMonths(AddMonths(d, 1), -1) == d
    ensures AddMonths(AddMonths(d, -1), 1) == d
    ensures AddMonths(d, 1).day == 1 && AddMonths(d, -1).day == 1
  {
    AddMonthsRoundTrip(d, 1);
    AddMonthsRoundTrip(d, -1);
  }

  class CalendarPage {
    /** The month anchor; the grid shows the month holding it. */
    var currentDate: Date
    var activeFilter: Option<EventType>
    /** The events whose details are open; None when the details are closed. */
    var selected: Option<seq<CalendarEvent>>
    /** The element focused when the details last opened. */
    var previousFocus: Option<Element>
    /** The element that has focus. */
    var focus: Element

    /** The anchor is the first of a valid month, and open details always list some event. */
    predicate Valid()
      reads this
    {
      ValidDate(currentDate) && currentDate.day == 1 &&
      (selected.Some? ==> |selected.value| > 0)
    }

    /** The page opens on January 2026, unfiltered, with the details closed. */
    constructor (initialFocus: Element)
      ensures Valid()
      ensures currentDate == Date(2026, 1, 1)
      ensures activeFilter == None && selected == None && previousFocus == None
      ensures focus == initialFocus
    {
      currentDate := Date(2026, 1, 1);
      activeFilter := None;
      selected := None;
      previousFocus := None;
      focus := initialFocus;
    }

    /** The cells on show; `today` stands for the clock reading. */
    function Days(today: Date): (cells: seq<DayData>)
      reads this
      requires Valid()
      ensures |cells| == 28 || |cells| == 35 || |cells| == 42
    {
      GridSize(currentDate, activeFilter, EVENTS_2026, today);
      CalendarDays(currentDate, activeFilter, EVENTS_2026, today)
    }

    method NextMonth()
      requires Valid()
      modifies this
      ensures Valid()
      ensures currentDate == AddMonths(old(currentDate), 1)
      ensures currentDate.year * 12 + currentDate.month == old(currentDate.year * 12 + currentDate.month) + 1
      ensures activeFilter == old(activeFilter) && selected == old(selected)
      ensures previousFocus == old(previousFocus) && focus == old(focus)
    {
      AddMonthsRoundTrip(currentDate, 1);
      currentDate := AddMonths(currentDate, 1);
    }

    method PrevMonth()
      requires Valid()
      modifies this
      ensures Valid()
      ensures currentDate == AddMonths(old(currentDate), -1)
      ensures currentDate.year * 12 + currentDate.month == old(currentDate.year * 12 + currentDate.month) - 1
      ensures activeFilter == old(activeFilter) && selected == old(selected)
      ensures previousFocus == old(previousFocus) && focus == old(focus)
    {
      AddMonthsRoundTrip(currentDate, -1);
      currentDate := AddMonths(currentDate, -1);
    }

    /** Next followed by previous shows the same month again and changes nothing else. */
    method NextThenPrev()
      requires Valid()
      modifies this
      ensures Valid()
      ensures currentDate == old(currentDate) && activeFilter == old(activeFilter) && selected == old(selected)
      ensures previousFocus == old(previousFocus) && focus == old(focus)
    {
      MonthNavigationRoundTrip(currentDate);
      NextMonth();
      PrevMonth();
    }

    /** Quick navigation: button i jumps to that month of 2026, whatever year is on show. */
    method GoToMonth(i: int)
      requires Valid() && 0 <= i < |MONTHS|
      modifies this
      ensures Valid()
      ensures currentDate == QuickNavTarget(i) && IsQuickNavCurrent(i)
      ensures activeFilter == old(activeFilter) && selected == old(selected)
      ensures previousFocus == old(previousFocus) && focus == old(focus)
    {
      currentDate := QuickNavTarget(i);
    }

    /**
     * Whether quick-navigation button i is marked as the current month. Only
     * the month is compared, so the mark also shows while another year's
     * month of that name is on show.
     */
    predicate IsQuickNavCurrent(i: int): (r: bool)
      reads this
      ensures Valid() ==> (r <==> 0 <= i < |MONTHS| && QuickNavTarget(i).month == currentDate.month)
    {
      currentDate.month == i + 1
    }

    method ToggleFilter(t: EventType)
      requires Valid()
      modifies this
      ensures Valid()
      ensures activeFilter == Toggle(old(activeFilter), t)
      ensures currentDate == old(currentDate) && selected == old(selected)
      ensures previousFocus == old(previousFocus) && focus == old(focus)
    {
      activeFilter := Toggle(activeFilter, t);
    }

    /** The "clear filter" button. */
    method ClearFilter()
      requires Valid()
      modifies this
      ensures Valid()
      ensures activeFilter == None
      ensures currentDate == old(currentDate) && selected == old(selected)
      ensures previousFocus == old(previousFocus) && focus == old(focus)
    {
      activeFilter := None;
    }

    /**
     * A click on a day with events remembers the focused element, opens the
     * details of exactly those events and moves focus to their close button;
     * a day without events changes nothing.
     */
    method HandleDayClick(events: seq<CalendarEvent>)
      requires Valid()
      modifies this
      ensures Valid()
      ensures |events| == 0 ==> selected == old(selected) && previousFocus == old(previousFocus) && focus == old(focus)
      ensures |events| > 0 ==> selected == Some(events) && previousFocus == Some(old(focus)) && focus == CloseButton
      ensures currentDate == old(currentDate) && activeFilter == old(activeFilter)
    {
      if |events| > 0 {
        previousFocus := Some(focus);
        selected := Some(events);
        focus := CloseButton;
      }
    }

    /** Closing the details returns focus to the element that opened them, if one was recorded. */
    method CloseModal()
      requires Valid()
      modifies this
      ensures Valid()
      ensures selected == None
      ensures focus == if old(previousFocus).Some? then old(previousFocus).value else old(focus)
      ensures previousFocus == old(previousFocus)
      ensures currentDate == old(currentDate) && activeFilter == old(activeFilter)
    {
      selected := None;
      if previousFocus.Some? {
        focus := previousFocus.value;
      }
    }

    /** Escape closes open details and is ignored otherwise, as is any other key. */
    method HandleKeyDown(key: string)
      requires Valid()
      modifies this
      ensures Valid()
      ensures key == "Escape" && old(selected).Some? ==>
        selected == None && focus == (if old(previousFocus).Some? then old(previousFocus).value else old(focus))
      ensures !(key == "Escape" && old(selected).Some?) ==> selected == old(selected) && focus == old(focus)
      ensures previousFocus == old(previousFocus)
      ensures currentDate == old(currentDate) && activeFilter == old(activeFilter)
    {
      if key == "Escape" && selected.Some? {
        CloseModal();
      }
    }

    /**
     * A click on cell i of the grid: only a card reacts, opening the details
     * of the events shown on that day under the active filter.
     */
    method ClickCell(today: Date, i: int)
      requires Valid() && 0 <= i < |Days(today)|
      modifies this
      ensures Valid()
      ensures var cell := old(Days(today))[i];
        RenderCell(cell).Card? ==>
          selected == Some(DayEvents(EVENTS_2026, Format(cell.date), old(activeFilter))) && focus == CloseButton
      ensures var cell := old(Days(today))[i];
        RenderCell(cell).Card? ==> previousFocus == Some(old(focus))
      ensures var cell := old(Days(today))[i];
        !RenderCell(cell).Card? ==> selected == old(selected) && focus == old(focus) && previousFocus == old(previousFocus)
      ensures currentDate == old(currentDate) && activeFilter == old(activeFilter)
    {
      var cells := Days(today);
      GridViews(currentDate, activeFilter, EVENTS_2026, today, i);
      var v := RenderCell(cells[i]);
      if v.Card? {
        HandleDayClick(v.opens);
      }
    }
  }
}
