/**
 * How the page draws the grid and the day details. A cell outside the
 * month is a faded day number; an in-month day without entries is a plain,
 * non-interactive card; an in-month day with entries is a clickable card
 * coloured by its first entry that opens the details of all of them. The
 * details fall back to fixed texts when an entry has no description or tip.
 */
module CalendarView {
  import opened Optional
  import opened Dates
  import opened CalendarTypes
  import opened Catalog
  import opened CalendarGrid
  import opened CatalogOnGrid

  // ---------------------------------------------------------------------
  // Cells

  /** What a grid cell shows; `opens` is the list a click on the card hands to the page. */
  datatype CellView =
    | Faded(day: int)
    | Plain(day: int)
    | Card(day: int, style: EventType, titles: seq<string>, opens: seq<CalendarEvent>)

  /** The titles of `events`, in order. */
  function Titles(events: seq<CalendarEvent>): (r: seq<string>)
    ensures |r| == |events|
    ensures forall i | 0 <= i < |events| :: r[i] == events[i].title
  {
    seq(|events|, i requires 0 <= i < |events| => events[i].title)
  }

  /**
   * The view of one cell. Out-of-month cells are faded even when entries
   * fall on them; a card takes its colour from its first entry.
   */
  function RenderCell(cell: DayData): (v: CellView)
    ensures v.day == cell.date.day
    ensures v.Faded? <==> !cell.isCurrentMonth
    ensures v.Card? <==> cell.isCurrentMonth && |cell.events| > 0
    ensures v.Card? ==> v.style == cell.events[0].eventType && v.titles == Titles(cell.events) && v.opens == cell.events
  {
    if !cell.isCurrentMonth then Faded(cell.date.day)
    else if |cell.events| > 0 then Card(cell.date.day, cell.events[0].eventType, Titles(cell.events), cell.events)
    else Plain(cell.date.day)
  }

  /**
   * On the grid, the cells that are not faded are exactly the month's days,
   * numbered 1, 2, ... in order; a card opens the entries shown on its date,
   * and there is at least one.
   */
  lemma GridViews(anchor: Date, filter: Option<EventType>, catalog: seq<CalendarEvent>, today: Date, i: int)
    requires ValidDate(anchor)
    requires 0 <= i < |CalendarDays(anchor, filter, catalog, today)|
    ensures var v := RenderCell(CalendarDays(anchor, filter, catalog, today)[i]);
      !v.Faded? <==> Lead(anchor) <= i < Lead(anchor) + DaysInMonth(anchor.year, anchor.month)
    ensures var v := RenderCell(CalendarDays(anchor, filter, catalog, today)[i]);
      !v.Faded? ==> v.day == i - Lead(anchor) + 1
    ensures var cell := CalendarDays(anchor, filter, catalog, today)[i];
      var v := RenderCell(cell);
      v.Card? ==> |v.opens| > 0 && v.opens == DayEvents(catalog, Format(cell.date), filter)
  {
    GridCell(anchor, filter, catalog, today, i);
    CellAt(anchor, filter, catalog, today, i);
  }

  /** On the 2026 catalog, every card except the one for 4 October 2026 carries a single title. */
  lemma SingleTitleCards(anchor: Date, filter: Option<EventType>, today: Date, i: int)
    requires ValidDate(anchor) && 0 <= i < |CalendarDays(anchor, filter, EVENTS_2026, today)|
    requires var d := CalendarDays(anchor, filter, EVENTS_2026, today)[i].date;
      d != Date(2026, 10, 4) && 1 <= d.year <= 9999
    ensures var v := RenderCell(CalendarDays(anchor, filter, EVENTS_2026, today)[i]);
      v.Card? ==> |v.titles| == 1
  {
    CellAtMostOne(anchor, filter, today, i);
  }

  // ---------------------------------------------------------------------
  // Day details

  const NO_DESCRIPTION: string := "Sem descrição disponível."
  const NO_TIP: string := "Planeje uma promoção temática para este dia."

  /** JavaScript `value || fallback` on an optional string: an absent or empty value falls back. */
  function OrElse(s: Option<string>, fallback: string): (r: string)
    ensures s.Some? && s.value != "" ==> r == s.value
    ensures s.None? || s.value == "" ==> r == fallback
  {
    if s.Some? && s.value != "" then s.value else fallback
  }

  /** The "about this date" text of the details. */
  function DescriptionText(e: CalendarEvent): (r: string)
    ensures r != ""
    ensures e.description.Some? && e.description.value != "" ==> r == e.description.value
    ensures r == NO_DESCRIPTION || e.description == Some(r)
  {
    OrElse(e.description, NO_DESCRIPTION)
  }

  /** The "tip for retailers" text of the details. */
  function TipText(e: CalendarEvent): (r: string)
    ensures r != ""
    ensures e.businessTip.Some? && e.businessTip.value != "" ==> r == e.businessTip.value
    ensures r == NO_TIP || e.businessTip == Some(r)
  {
    OrElse(e.businessTip, NO_TIP)
  }

  /** In a catalog whose entries all carry both texts, the details show each entry's own texts. */
  lemma DescribedTexts(s: seq<CalendarEvent>, e: CalendarEvent)
    requires Described(s) && e in s
    ensures e.description.Some? && DescriptionText(e) == e.description.value
    ensures e.businessTip.Some? && TipText(e) == e.businessTip.value
  {
    var i :| 0 <= i < |s| && s[i] == e;
  }

  /** The details never fall back to the fixed texts for a 2026 catalog entry. */
  lemma CatalogNeverFallsBack(e: CalendarEvent)
    requires e in EVENTS_2026
    ensures e.description.Some? && DescriptionText(e) == e.description.value
    ensures e.businessTip.Some? && TipText(e) == e.businessTip.value
  {
    CatalogWellFormed();
    DescribedTexts(EVENTS_2026, e);
  }

  // ---------------------------------------------------------------------
  // Headers

  /** The header over a column: the row of seven weekday names starts on Sunday. */
  function ColumnHeader(column: int): (h: string)
    requires 0 <= column < 7
    ensures column == 0 ==> h == "Dom"
    ensures column == 6 ==> h == "Sab"
  {
    WEEKDAYS[column]
  }

  /** Every cell sits under the header naming its own weekday. */
  lemma HeadersMatchCells(anchor: Date, filter: Option<EventType>, catalog: seq<CalendarEvent>, today: Date, i: int)
    requires ValidDate(anchor)
    requires 0 <= i < |CalendarDays(anchor, filter, catalog, today)|
    ensures ColumnHeader(i % 7) == WEEKDAYS[DayOfWeek(CalendarDays(anchor, filter, catalog, today)[i].date)]
  {
    GridWeekdays(anchor, filter, catalog, today);
  }
}
