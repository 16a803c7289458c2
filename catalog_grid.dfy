/**
 * What the 2026 catalog puts on the grid. The page looks entries up by the
 * `yyyy-MM-dd` text of a cell's date; because every catalog text is the
 * canonical format of the date it names, that lookup is a lookup by date,
 * every day but 4 October 2026 carries at most one entry, and that day
 * carries two.
 */
module CatalogOnGrid {
  import opened Optional
  import opened Dates
  import opened CalendarTypes
  import opened Catalog
  import opened Filtering
  import opened CalendarGrid

  // ---------------------------------------------------------------------
  // Lookup by text is lookup by date

  /** A text that is the canonical format of the date it names matches exactly that date's format. */
  lemma TextMatchesDate(t: string, d: Date)
    requires ParseIsoDate(t).Some? && Format(ParseIsoDate(t).value) == t
    requires ValidDate(d) && 1 <= d.year <= 9999
    ensures t == Format(d) <==> ParseIsoDate(t) == Some(d)
  {
    ParseFormat(d);
  }

  /**
   * In a catalog whose every text is the canonical format of a 2026 date, the
   * entries shown on a date of years 1..9999 are exactly the entries naming
   * that date that the filter admits.
   */
  lemma ByDate(s: seq<CalendarEvent>, d: Date, filter: Option<EventType>)
    requires DatedWithin(DateTexts(s), 1, 12)
    requires ValidDate(d) && 1 <= d.year <= 9999
    ensures forall e :: e in DayEvents(s, Format(d), filter) <==>
      e in s && ParseIsoDate(e.date) == Some(d) && Admits(filter, e)
  {
    var ds := DateTexts(s);
    forall e | e in s
      ensures e.date == Format(d) <==> ParseIsoDate(e.date) == Some(d)
    {
      var i :| 0 <= i < |s| && s[i] == e;
      assert InMonths(ds[i], 1, 12);
      TextMatchesDate(e.date, d);
    }
  }

  /** The 2026 catalog entries shown on a date of years 1..9999 are those naming it that the filter admits. */
  lemma EventsByDate(d: Date, filter: Option<EventType>)
    requires ValidDate(d) && 1 <= d.year <= 9999
    ensures forall e :: e in DayEvents(EVENTS_2026, Format(d), filter) <==>
      e in EVENTS_2026 && ParseIsoDate(e.date) == Some(d) && Admits(filter, e)
  {
    CatalogWellFormed();
    ByDate(EVENTS_2026, d, filter);
  }

  // ---------------------------------------------------------------------
  // At most one entry a day, except 4 October

  /** When no two entries dated `key` exist, filtering by `key` keeps at most one. */
  lemma {:induction false} AtMostOneOn(s: seq<CalendarEvent>, key: string)
    requires forall i, j | 0 <= i < j < |s| && s[i].date == s[j].date :: s[i].date != key
    ensures |Filter(s, OnDate(key))| <= 1
    decreases |s|
  {
    if |s| > 0 {
      if s[0].date == key {
        forall j | 0 <= j < |s[1..]|
          ensures !OnDate(key)(s[1..][j])
        {
          assert s[1..][j] == s[j + 1];
        }
        FilterNone(s[1..], OnDate(key));
      } else {
        assert Filter(s, OnDate(key)) == Filter(s[1..], OnDate(key));
        forall i, j | 0 <= i < j < |s[1..]| && s[1..][i].date == s[1..][j].date
          ensures s[1..][i].date != key
        {
          assert s[1..][i] == s[i + 1] && s[1..][j] == s[j + 1];
        }
        AtMostOneOn(s[1..], key);
      }
    }
  }

  /** Where only 4 October 2026 repeats, any other date text shows at most one entry, filtered or not. */
  lemma AtMostOneUnlessShared(s: seq<CalendarEvent>, key: string, filter: Option<EventType>)
    requires SharedOnlyOnOctober4(DateTexts(s))
    requires ParseIsoDate(key) != Some(Date(2026, 10, 4))
    ensures |DayEvents(s, key, filter)| <= 1
  {
    var ds := DateTexts(s);
    forall i, j | 0 <= i < j < |s| && s[i].date == s[j].date
      ensures s[i].date != key
    {
      assert ds[i] == ds[j];
    }
    AtMostOneOn(s, key);
  }

  /** Any date text other than 4 October 2026 shows at most one catalog entry, filtered or not. */
  lemma CatalogAtMostOne(key: string, filter: Option<EventType>)
    requires ParseIsoDate(key) != Some(Date(2026, 10, 4))
    ensures |DayEvents(EVENTS_2026, key, filter)| <= 1
  {
    CatalogWellFormed();
    AtMostOneUnlessShared(EVENTS_2026, key, filter);
  }

  /** Every cell of any grid, except one dated 4 October 2026, shows at most one catalog entry. */
  lemma CellAtMostOne(anchor: Date, filter: Option<EventType>, today: Date, i: int)
    requires ValidDate(anchor) && 0 <= i < |CalendarDays(anchor, filter, EVENTS_2026, today)|
    requires var d := CalendarDays(anchor, filter, EVENTS_2026, today)[i].date;
      d != Date(2026, 10, 4) && 1 <= d.year <= 9999
    ensures |CalendarDays(anchor, filter, EVENTS_2026, today)[i].events| <= 1
  {
    var d := GridDays(anchor)[i];
    CellAt(anchor, filter, EVENTS_2026, today, i);
    ParseFormat(d);
    CatalogAtMostOne(Format(d), filter);
  }

  // ---------------------------------------------------------------------
  // 4 October 2026

  /** A block none of whose date texts is `key` contributes nothing to the day `key`. */
  lemma NoneOn(s: seq<CalendarEvent>, key: string)
    requires key !in DateTexts(s)
    ensures Filter(s, OnDate(key)) == []
  {
    var ds := DateTexts(s);
    forall i | 0 <= i < |s|
      ensures !OnDate(key)(s[i])
    {
      assert ds[i] in ds;
    }
    FilterNone(s, OnDate(key));
  }

  /** A sequence whose first two elements match and no other does filters to those two. */
  lemma FirstTwoOnly(s: seq<CalendarEvent>, p: CalendarEvent -> bool)
    requires |s| >= 2 && p(s[0]) && p(s[1])
    requires forall i | 2 <= i < |s| :: !p(s[i])
    ensures Filter(s, p) == [s[0], s[1]]
  {
    forall i | 0 <= i < |s[2..]|
      ensures !p(s[2..][i])
    {
      assert s[2..][i] == s[i + 2];
    }
    FilterNone(s[2..], p);
    assert s[1..][1..] == s[2..];
  }

  /** Neither part holding the date text `key`, neither does their join. */
  lemma NotInJoin(a: seq<CalendarEvent>, b: seq<CalendarEvent>, key: string)
    requires key !in DateTexts(a) && key !in DateTexts(b)
    ensures key !in DateTexts(a + b)
  {
    DateTextsJoin(a, b);
  }

  /** A block whose first two date texts, and no other, are `key` shows those two entries on `key`. */
  lemma FirstTwoOnDate(s: seq<CalendarEvent>, key: string)
    requires |s| >= 2 && DateTexts(s)[0] == key && DateTexts(s)[1] == key
    requires key !in DateTexts(s)[2..]
    ensures Filter(s, OnDate(key)) == [s[0], s[1]]
  {
    var ds := DateTexts(s);
    forall i | 2 <= i < |s|
      ensures !OnDate(key)(s[i])
    {
      assert ds[i] == ds[2..][i - 2];
    }
    FirstTwoOnly(s, OnDate(key));
  }

  /**
   * Twelve month blocks with the catalog's date texts, joined in order: the
   * day "2026-10-04" shows the first two entries of the October block.
   */
  lemma TenthBlockOnly(jan: seq<CalendarEvent>, feb: seq<CalendarEvent>, mar: seq<CalendarEvent>, apr: seq<CalendarEvent>, may: seq<CalendarEvent>, jun: seq<CalendarEvent>, jul: seq<CalendarEvent>, aug: seq<CalendarEvent>, sep: seq<CalendarEvent>, oct: seq<CalendarEvent>, nov: seq<CalendarEvent>, dec: seq<CalendarEvent>)
    requires DateTexts(jan) == ["2026-01-01", "2026-01-06", "2026-01-20", "2026-01-24", "2026-01-25", "2026-01-26", "2026-01-30"]
    requires DateTexts(feb) == ["2026-02-14", "2026-02-16", "2026-02-17", "2026-02-18"]
    requires DateTexts(mar) == ["2026-03-08", "2026-03-15", "2026-03-20"]
    requires DateTexts(apr) == ["2026-04-01", "2026-04-03", "2026-04-05", "2026-04-21", "2026-04-22", "2026-04-28"]
    requires DateTexts(may) == ["2026-05-01", "2026-05-10", "2026-05-25"]
    requires DateTexts(jun) == ["2026-06-04", "2026-06-11", "2026-06-12", "2026-06-21", "2026-06-24"]
    requires DateTexts(jul) == ["2026-07-09", "2026-07-13", "2026-07-19", "2026-07-20", "2026-07-26"]
    requires DateTexts(aug) == ["2026-08-09", "2026-08-15", "2026-08-22"]
    requires DateTexts(sep) == ["2026-09-07", "2026-09-15", "2026-09-21", "2026-09-22"]
    requires DateTexts(oct) == ["2026-10-04", "2026-10-04", "2026-10-12", "2026-10-15", "2026-10-25", "2026-10-31"]
    requires DateTexts(nov) == ["2026-11-02", "2026-11-15", "2026-11-20", "2026-11-27"]
    requires DateTexts(dec) == ["2026-12-21", "2026-12-24", "2026-12-25", "2026-12-31"]
    ensures Filter(jan + feb + mar + apr + may + jun + jul + aug + sep + oct + nov + dec, OnDate("2026-10-04")) == [oct[0], oct[1]]
  {
    var key := "2026-10-04";
    var p := OnDate(key);
    var before := jan + feb + mar + apr + may + jun + jul + aug + sep;
    assert key !in DateTexts(jan) && key !in DateTexts(feb) && key !in DateTexts(mar);
    assert key !in DateTexts(apr) && key !in DateTexts(may) && key !in DateTexts(jun);
    assert key !in DateTexts(jul) && key !in DateTexts(aug) && key !in DateTexts(sep);
    NotInJoin(jan, feb, key);
    NotInJoin(jan + feb, mar, key);
    NotInJoin(jan + feb + mar, apr, key);
    NotInJoin(jan + feb + mar + apr, may, key);
    NotInJoin(jan + feb + mar + apr + may, jun, key);
    NotInJoin(jan + feb + mar + apr + may + jun, jul, key);
    NotInJoin(jan + feb + mar + apr + may + jun + jul, aug, key);
    NotInJoin(jan + feb + mar + apr + may + jun + jul + aug, sep, key);
    assert key !in DateTexts(nov) && key !in DateTexts(dec);
    FirstTwoOnDate(oct, key);
    NoneOn(before, key);
    NoneOn(nov, key);
    NoneOn(dec, key);
    FilterConcat(before, oct, p);
    assert Filter(before + oct, p) == [oct[0], oct[1]];
    FilterConcat(before + oct, nov, p);
    assert Filter(before + oct + nov, p) == [oct[0], oct[1]];
    FilterConcat(before + oct + nov, dec, p);
  }

  /** The grid's key for 4 October 2026 is the text the catalog uses for that day. */
  lemma October4Text(d: Date)
    requires d == Date(2026, 10, 4)
    ensures Format(d) == "2026-10-04"
  {
    assert ParseIsoDate("2026-10-04") == Some(d);
    FormatParse("2026-10-04");
  }

  /** Filtering two entries by type keeps those of that type, in order. */
  lemma PairByType(a: CalendarEvent, b: CalendarEvent, t: EventType)
    ensures Filter([a, b], OfType(t)) ==
      (if a.eventType == t then [a] else []) + (if b.eventType == t then [b] else [])
  {
    assert [a, b][1..] == [b] && [b][1..] == [];
  }

  /** The first two October entries are the election (a holiday) and Animal Day (commemorative). */
  lemma OctoberTypes()
    ensures OUTUBRO[0].eventType == Holiday && OUTUBRO[1].eventType == Commemorative
  {
  }

  /**
   * 4 October 2026 shows two entries, the first-round election (a holiday)
   * and then Animal Day (commemorative), in catalog order.
   */
  lemma October4(key: string)
    requires key == "2026-10-04"
    ensures DayEvents(EVENTS_2026, key, None) == [OUTUBRO[0], OUTUBRO[1]]
  {
    JanuaryEntries();
    FebruaryEntries();
    MarchEntries();
    AprilEntries();
    MayEntries();
    JuneEntries();
    JulyEntries();
    AugustEntries();
    SeptemberEntries();
    OctoberEntries();
    NovemberEntries();
    DecemberEntries();
    TenthBlockOnly(JANEIRO, FEVEREIRO, MARCO, ABRIL, MAIO, JUNHO, JULHO, AGOSTO, SETEMBRO, OUTUBRO, NOVEMBRO, DEZEMBRO);
  }

  /** Under a type filter, 4 October shows only the entry of that type. */
  lemma October4Filtered(key: string)
    requires key == "2026-10-04"
    ensures DayEvents(EVENTS_2026, key, Some(Holiday)) == [OUTUBRO[0]]
    ensures DayEvents(EVENTS_2026, key, Some(Commemorative)) == [OUTUBRO[1]]
    ensures DayEvents(EVENTS_2026, key, Some(Special)) == []
  {
    October4(key);
    OctoberTypes();
    PairByType(OUTUBRO[0], OUTUBRO[1], Holiday);
    PairByType(OUTUBRO[0], OUTUBRO[1], Commemorative);
    PairByType(OUTUBRO[0], OUTUBRO[1], Special);
  }

  /** On any grid, the cell dated 4 October 2026 shows the election and then Animal Day. */
  lemma CellOnOctober4(anchor: Date, today: Date, i: int)
    requires ValidDate(anchor) && 0 <= i < |CalendarDays(anchor, None, EVENTS_2026, today)|
    requires CalendarDays(anchor, None, EVENTS_2026, today)[i].date == Date(2026, 10, 4)
    ensures CalendarDays(anchor, None, EVENTS_2026, today)[i].events == [OUTUBRO[0], OUTUBRO[1]]
  {
    var d := GridDays(anchor)[i];
    CellAt(anchor, None, EVENTS_2026, today, i);
    October4Text(d);
    October4(Format(d));
  }
}
