# Content calendar and client forms, modelled in Dafny

This project models the logic at the heart of a retail content calendar, a
React application. It covers the month grid of commemorative dates, the
filter and the details view, the page state, the static 2026 catalog of
dates, and the two forms that add and edit the clients the calendar is
shared with.

- **Dates** (`dates.dfy`). The proleptic Gregorian arithmetic the grid
  borrows from date-fns, written out over unbounded years:
  - leap years and month lengths;
  - a day number for every date, successor day and day of the week;
  - start and end of month and of week (weeks start on Sunday);
  - every day of an interval;
  - adding months with the day clamped to the target month;
  - the zero-padded `yyyy-MM-dd` format, with a reference reader proving
    that format and reader are inverse on years 1..9999.
- **Filtering** (`filter.dfy`). Array filtering over sequences: what is
  kept, its order, its multiplicity, and how filtering composes.
- **Catalog** (`catalog.dfy`). The weekday headings, month names and the
  54 catalog entries as constants. It proves that every entry's date text
  is a valid, canonical 2026 date, in date order; that only 4 October 2026
  repeats; and that every entry carries a description and a tip.
- **Grid** (`grid.dfy`, `catalog_grid.dfy`, `view.dfy`).
  - The cells of a month: whole weeks from the Sunday on or before the
    first to the Saturday on or after the last day.
  - Each cell is flagged as in the month and as today. It carries the
    catalog entries whose date text equals its formatted date, narrowed to
    the active type.
  - How each cell is drawn and what the details view shows.
- **Page** (`page.dfy`). A class holding the page state: the month anchor,
  the filter, the open details, and the element that had focus. It has a
  method per handler.
- **Clients** (`clients.dfy`, `slug.dfy`, `add_client.dfy`, `edit_client.dfy`).
  - The client rows and the backend outcomes the forms see.
  - The slug generator (`slug.dfy`, `slug_words.dfy`). It is proved equal
    to a reference definition: cut the lower-cased, accent-free name at
    whitespace and '-', keep each piece's word characters, drop empty
    pieces and join the rest with single hyphens.
  - The add form and the edit form as classes. Each submit handler is a
    method proved against a function that states the whole decision.

The clock reading, the backend's answers and the browser's preview URLs
are parameters. The backend calls themselves, file naming, and all styling
are outside the model.

## Model

| member | source | states |
|---|---|---|
| Dates.DaysInMonth | CalendarPage.tsx:96-99 | months have 28 to 31 days; February has 29 exactly in leap years; the other months have at least 30 |
| Dates.YearLength | CalendarPage.tsx:102 | a year has 366 days exactly when it is a leap year, otherwise 365 |
| Dates.OrdinalInjective | CalendarPage.tsx:102 | no two valid dates share a day number |
| Dates.NextDay | CalendarPage.tsx:102 | the successor of a valid date is valid and one day number later |
| Dates.DayOfWeek | CalendarPage.tsx:98-99 | the weekday is in 0..6, with 0 for Sunday |
| Dates.NextDayOfWeek | CalendarPage.tsx:98-99 | the weekday advances cyclically by one from each day to the next |
| Dates.KnownWeekdays | CalendarPage.tsx:45 | 1 January 2026 is a Thursday, 1 February 2026 a Sunday, 1 January 2000 a Saturday |
| Dates.StartOfMonth | CalendarPage.tsx:96 | the first day of the same month |
| Dates.EndOfMonth | CalendarPage.tsx:97 | a day of the same month whose successor is a first of month |
| Dates.StartOfWeek | CalendarPage.tsx:98 | the Sunday on or before the date, moved back by exactly its weekday |
| Dates.EndOfWeek | CalendarPage.tsx:99 | the Saturday on or after the date, moved forward by exactly 6 minus its weekday |
| Dates.SameMonth | CalendarPage.tsx:115 | for valid dates, the second is in the first one's month exactly when its day number lies within that month |
| Dates.WeekdayInRun | CalendarPage.tsx:98-102 | in a run of days that starts on a Sunday, the day at place i falls on weekday i mod 7 |
| Dates.EachDayOfInterval | CalendarPage.tsx:102 | one date per day from start to end inclusive, each one day after the previous |
| Dates.EachDayConsecutive | CalendarPage.tsx:102 | consecutive entries of an interval are successive days |
| Dates.AddMonths | CalendarPage.tsx:54-55 | the month index moves by n; the day is clamped to the target month's length; the result is valid |
| Dates.AddMonthsRoundTrip | CalendarPage.tsx:54-55 | from a first of month, moving n months and back restores the date, and the result is a first of month |
| Dates.PlaceAroundMonth | CalendarPage.tsx:117 | a date within four weeks of a first of month is in that month exactly when its offset is below the month length; otherwise it is the matching day of the previous or next month |
| Dates.NatToDigits | CalendarPage.tsx:105 | decimal digits, the first of them not '0' unless the number is 0, with the digit count of each magnitude |
| Dates.DigitsDenote | CalendarPage.tsx:105 | the digits written for a number denote that number |
| Dates.PadStart | CalendarPage.tsx:105 | left-pads with zeros to the width and keeps the text as the suffix |
| Dates.EraYear | CalendarPage.tsx:105 | the printed year of the era is at least 1 |
| Dates.Format | CalendarPage.tsx:105 | the text has at least ten characters and ends in "-MM-dd": a hyphen, the month's two digits, a hyphen, the day's two digits |
| Dates.ParseFormat | CalendarPage.tsx:105 | formatting a date of years 1..9999 gives ten characters that read back as the same date |
| Dates.FormatParse | CalendarPage.tsx:105 | text that reads as a date is exactly that date's format |
| Dates.FormatInjective | CalendarPage.tsx:105-108 | on years 1..9999 distinct dates format differently, so matching by text is matching by date |
| Filtering.Filter | CalendarPage.tsx:108 | keeps exactly the matching elements and never lengthens the sequence |
| Filtering.FilterIsSubsequence | CalendarPage.tsx:108-113 | filtering only drops elements; it never adds or reorders any |
| Filtering.FilterCount | CalendarPage.tsx:108-113 | each matching element is kept as often as it occurs, and no other element is kept |
| Filtering.FilterConcat | CalendarPage.tsx:108 | filtering a concatenation filters each part |
| Filtering.FilterTwice | CalendarPage.tsx:108-113 | filtering by p then by q equals filtering once by both |
| CalendarGrid.DayEvents | CalendarPage.tsx:107-113 | a cell's events are exactly the catalog entries with its date text that the filter admits |
| CalendarGrid.DayEventsOneStep | CalendarPage.tsx:107-113 | the two filtering steps equal one filter on "this date and admitted" |
| CalendarGrid.DayEventsExact | CalendarPage.tsx:105-113 | a cell's events keep catalog order, and each is present as often as the catalog lists it |
| CalendarGrid.FilterNarrows | CalendarPage.tsx:111-113 | a type filter only removes events, keeps their order, and keeps every unfiltered event of that type |
| CalendarGrid.GridStart | CalendarPage.tsx:96-98 | the grid's first day is a Sunday |
| CalendarGrid.GridEnd | CalendarPage.tsx:97-99 | the grid's last day is a Saturday |
| CalendarGrid.DaysLength | CalendarPage.tsx:96-102 | the grid holds the lead days plus the month, rounded up to whole weeks: 28, 35 or 42 days |
| CalendarGrid.GridDays | CalendarPage.tsx:102 | one date per day from the grid's first to its last day, each one day number after the previous |
| CalendarGrid.DayPlace | CalendarPage.tsx:102-117 | the days at places Lead..Lead+length-1 are the month's days in order; the ones before are the end of the previous month and the ones after the start of the next |
| CalendarGrid.CalendarDays | CalendarPage.tsx:95-122 | one cell per grid day, in order, flagged as in the month exactly when it shares the anchor's month |
| CalendarGrid.MakeCell | CalendarPage.tsx:105-120 | the cell is the day, is in the month exactly when it shares the month's year and month, is today exactly on `today`, and lists exactly the catalog entries with the day's date text that the filter admits |
| CalendarGrid.GridSize | CalendarPage.tsx:96-102 | 28, 35 or 42 cells: the month with less than a week of padding either side |
| CalendarGrid.GridWeekdays | CalendarPage.tsx:98-102 | cell i falls on weekday i mod 7 |
| CalendarGrid.GridEnds | CalendarPage.tsx:98-99 | the first cell is a Sunday and the last a Saturday |
| CalendarGrid.GridConsecutive | CalendarPage.tsx:102 | consecutive cells hold successive days, and no date appears twice |
| CalendarGrid.GridCell | CalendarPage.tsx:102-117 | a cell is in the month exactly at places Lead..Lead+length-1, where it holds day i-Lead+1; padding cells hold the adjacent months' days |
| CalendarGrid.GridCoversMonth | CalendarPage.tsx:102-117 | every day of the month has exactly one cell, and that cell is flagged as in the month |
| CalendarGrid.GridCellContents | CalendarPage.tsx:105-119 | a cell is today exactly when its date is the given today; its events are in catalog order with catalog multiplicity, limited to its formatted date and the filter |
| CalendarGrid.FourWeekMonth | CalendarPage.tsx:96-102 | a 28-day month that starts on a Sunday fills exactly four weeks, all of them in the month |
| CalendarGrid.February2026 | CalendarPage.tsx:96-102 | February 2026 has a 28-cell grid from the 1st to the 28th, all in the month |
| CalendarGrid.ThursdayJanuary | CalendarPage.tsx:96-102 | a January starting on a Thursday has 35 cells, from 28 December of the previous year to 31 January |
| CalendarGrid.January2026 | CalendarPage.tsx:45-102 | the opening month's grid runs from 28 December 2025 to 31 January 2026 |
| Catalog.TableShapes | constants.ts:3-8 | seven headings starting with Sunday ("Dom"), and twelve months from January to December |
| Catalog.CatalogWellFormed | constants.ts:11-413 | every date text is a valid, zero-padded 2026 date; the texts are in date order; only 4 October 2026 repeats; every entry has a non-empty description and tip |
| Catalog.MonthWellDated | constants.ts:12-412 | texts naming increasing days of one month, repeating only 4 October, are well dated |
| Catalog.JoinMonths | constants.ts:12-412 | appending a later month's well-dated texts keeps the whole well dated |
| CatalogOnGrid.TextMatchesDate | CalendarPage.tsx:105-108 | a canonical date text equals a date's format exactly when it names that date |
| CatalogOnGrid.ByDate | CalendarPage.tsx:105-113 | in a well-dated catalog, a date's cell shows exactly the entries naming that date that the filter admits |
| CatalogOnGrid.EventsByDate | CalendarPage.tsx:105-113 | the 2026 catalog's entries shown on a date are exactly those naming it that the filter admits |
| CatalogOnGrid.AtMostOneUnlessShared | CalendarPage.tsx:105-113 | where only 4 October repeats, any other date text shows at most one entry, filtered or not |
| CatalogOnGrid.CatalogAtMostOne | constants.ts:11-413 | any date text other than 4 October 2026 shows at most one catalog entry |
| CatalogOnGrid.CellAtMostOne | CalendarPage.tsx:104-121 | every cell of any grid, except one dated 4 October 2026, shows at most one catalog entry |
| CatalogOnGrid.October4 | constants.ts:311-324 | 4 October 2026 shows the election (a holiday) and then Animal Day (commemorative) |
| CatalogOnGrid.October4Filtered | CalendarPage.tsx:111-113 | under a type filter, 4 October shows only the entry of that type; under "special", none |
| CatalogOnGrid.CellOnOctober4 | CalendarPage.tsx:104-121 | on any unfiltered grid, the cell dated 4 October 2026 lists the election and then Animal Day |
| CalendarView.Titles | CalendarPage.tsx:235-240 | a card lists its events' titles, one per event, in order |
| CalendarView.RenderCell | CalendarPage.tsx:187-267 | out-of-month cells are faded whatever they hold; in-month cells with events are cards styled by the first event that open all of them; the rest are plain |
| CalendarView.GridViews | CalendarPage.tsx:187-267 | the unfaded cells are the month's days 1, 2, ... in order; a card opens a non-empty list, exactly the filtered entries of its date |
| CalendarView.SingleTitleCards | CalendarPage.tsx:235-240 | on the 2026 catalog every card except the one for 4 October 2026 has a single title |
| CalendarView.OrElse | CalendarPage.tsx:448-458 | an absent or empty text falls back; any other is shown as is |
| CalendarView.DescriptionText | CalendarPage.tsx:448 | never empty: the entry's own description when it has a non-empty one, otherwise the fixed fallback |
| CalendarView.TipText | CalendarPage.tsx:458 | never empty: the entry's own tip when it has a non-empty one, otherwise the fixed fallback |
| CalendarView.DescribedTexts | CalendarPage.tsx:448-458 | when every entry has both texts, the details show each entry's own texts |
| CalendarView.CatalogNeverFallsBack | CalendarPage.tsx:448-458 | the details never show a fallback text for a 2026 catalog entry |
| CalendarView.ColumnHeader | CalendarPage.tsx:178-182 | the heading row starts on Sunday ("Dom") and ends on Saturday ("Sab") |
| CalendarView.HeadersMatchCells | CalendarPage.tsx:178-187 | every cell sits under the heading of its own weekday |
| Page.Toggle | CalendarPage.tsx:72-74 | the filter is cleared exactly when the pressed type was active; otherwise it becomes that type |
| Page.ToggleTwice | CalendarPage.tsx:72-74 | pressing a type twice restores the filter when it was off or that type, and clears it otherwise |
| Page.QuickNavTarget | CalendarPage.tsx:365-368 | button i opens the first of month i+1 of 2026 |
| Page.MonthNavigationRoundTrip | CalendarPage.tsx:54-55 | from a first of month, next then previous (or the reverse) returns to it, and each step lands on a first of month |
| Page.CalendarPage.constructor | CalendarPage.tsx:45-52 | the page opens on 1 January 2026, unfiltered, with the details closed |
| Page.CalendarPage.Days | CalendarPage.tsx:95-122 | the cells on show are the grid of the anchor month: 28, 35 or 42 |
| Page.CalendarPage.NextMonth | CalendarPage.tsx:54 | the anchor moves one month forward and stays a first of month; nothing else changes |
| Page.CalendarPage.PrevMonth | CalendarPage.tsx:55 | the anchor moves one month back and stays a first of month; nothing else changes |
| Page.CalendarPage.NextThenPrev | CalendarPage.tsx:54-55 | next followed by previous leaves the whole state as it was |
| Page.CalendarPage.GoToMonth | CalendarPage.tsx:365-368 | quick navigation sets the anchor to the first of that month of 2026, whatever year was on show, and marks that button as current |
| Page.CalendarPage.IsQuickNavCurrent | CalendarPage.tsx:370-373 | on a valid page, button i is marked exactly when it is one of the twelve buttons and its target month is the month on show, whatever the year |
| Page.CalendarPage.ToggleFilter | CalendarPage.tsx:72-74 | the filter becomes Toggle of the old one; nothing else changes |
| Page.CalendarPage.ClearFilter | CalendarPage.tsx:302-304 | the filter is cleared; nothing else changes |
| Page.CalendarPage.HandleDayClick | CalendarPage.tsx:57-92 | an empty day changes nothing; otherwise the details open on exactly those events, the focused element is remembered, and focus moves to the close button |
| Page.CalendarPage.CloseModal | CalendarPage.tsx:64-70 | the details close and focus returns to the remembered element when there is one |
| Page.CalendarPage.HandleKeyDown | CalendarPage.tsx:77-85 | Escape closes open details as CloseModal does; any other key, or Escape with the details closed, changes nothing |
| Page.CalendarPage.ClickCell | CalendarPage.tsx:222-231 | clicking a card remembers the focused element, opens the details on the entries of that day under the active filter and focuses their close button; clicking any other cell changes nothing |
| Slug.LowerChar | AddClientForm.tsx:54 | the result has no ASCII or Latin-1 upper-case letter; a character that has none of these is unchanged |
| Slug.Lower | AddClientForm.tsx:54 | lower-cases each character in place and keeps the length |
| Slug.Decompose | AddClientForm.tsx:55 | a character decomposes into one or two characters: a base and at most one combining mark; characters outside Latin-1's letter block are unchanged |
| Slug.Nfd | AddClientForm.tsx:55 | decomposition at most doubles the length |
| Slug.StripMarks | AddClientForm.tsx:56 | no combining mark in U+0300..U+036F is left |
| Slug.SpacesToHyphens | AddClientForm.tsx:57 | no whitespace is left |
| Slug.SpacesToHyphensKeeps | AddClientForm.tsx:57 | the characters that are neither whitespace nor hyphens are kept, in order |
| Slug.KeepWordChars | AddClientForm.tsx:58 | only word characters and hyphens are left, and the word characters are exactly those of the input, in order |
| Slug.CollapseHyphens | AddClientForm.tsx:59 | the result has no two adjacent hyphens, keeps the first character, and brings in no new character |
| Slug.CollapseKeepsText | AddClientForm.tsx:59 | collapsing removes hyphens only: every other character is kept, in order |
| Slug.TrimStart | AddClientForm.tsx:60 | the input is a run of hyphens followed by the result, and the result does not start with a hyphen |
| Slug.TrimEnd | AddClientForm.tsx:61 | the input is the result followed by a run of hyphens, and the result does not end with a hyphen |
| Slug.GenerateSlug | AddClientForm.tsx:51-62 | apart from its hyphens, the slug is exactly the word characters of the lower-cased name with accents removed, in order |
| Slug.LateStepsKeepText | AddClientForm.tsx:57-61 | the whitespace, character, hyphen and trimming steps keep exactly the word characters of their input, in order |
| Slug.GeneratedIsSlug | AddClientForm.tsx:51-62 | every slug uses only lower-case ASCII letters, digits, '_' and '-'; has no two adjacent hyphens; and has no hyphen at either end |
| Slug.SlicesKeepSlugChars | AddClientForm.tsx:60-61 | trimming both ends keeps single hyphens single, brings in no new character, and leaves no hyphen at either end |
| Slug.LateStepsKeep | AddClientForm.tsx:57-61 | a slug passes the whitespace, character, hyphen and trimming steps unchanged |
| Slug.SlugFixed | AddClientForm.tsx:51-62 | a slug is its own slug |
| Slug.SlugIdempotent | AddClientForm.tsx:51-62 | slugifying a slug gives it back |
| Slug.HyphenatedWords | AddClientForm.tsx:57 | each whitespace run around and between two words becomes exactly one hyphen |
| Slug.WordsJoined | AddClientForm.tsx:57-61 | two slugs separated by whitespace, with optional whitespace around, give the two joined by exactly one hyphen |
| Slug.SpacesExample | AddClientForm.tsx:57-61 | "  multiple   spaces  " gives "multiple-spaces" |
| Slug.StripMarksOfNfd | AddClientForm.tsx:55-56 | decomposing and then removing U+0300..U+036F leaves each character's base letter |
| Slug.AccentsExample | AddClientForm.tsx:54-56 | "Açaí" gives "acai": lower-case first, then the accents come off |
| Slug.SpacedWords | AddClientForm.tsx:57 | three space-free words separated by single spaces become the words joined by hyphens |
| Slug.SaoPauloExample | AddClientForm.tsx:51-62 | "São Paulo ação!" gives "sao-paulo-acao" |
| Slug.LeadingExample | AddClientForm.tsx:51-62 | "---leading" gives "leading" |
| SlugWords.ReferenceSplit | AddClientForm.tsx:57-61 | the reference slug of text cut at any whitespace character or '-' is the two sides' reference slugs joined by one hyphen, an empty side dropping out |
| SlugWords.SpacesToHyphensReference | AddClientForm.tsx:57 | turning whitespace runs into hyphens keeps the reference slug |
| SlugWords.KeepWordCharsReference | AddClientForm.tsx:58 | on text without whitespace, dropping the characters that are neither word characters nor '-' keeps the reference slug |
| SlugWords.CollapseConcat | AddClientForm.tsx:59 | text that does not end with '-' collapses independently of what follows it |
| SlugWords.CollapseRun | AddClientForm.tsx:59 | a maximal run of hyphens becomes exactly one '-' in its place, the text on each side collapsing on its own |
| SlugWords.CollapseTrimReference | AddClientForm.tsx:59-61 | collapsing and trimming text of word characters and hyphens gives its reference slug: its hyphen-free pieces, empty ones dropped, joined by single hyphens |
| SlugWords.LateStepsReference | AddClientForm.tsx:57-61 | the whitespace, character, hyphen and trimming steps together compute the reference slug of their input |
| SlugWords.SlugIsReference | AddClientForm.tsx:51-62 | the slug of any name is the reference slug of the name lower-cased with accents removed: cut at whitespace and '-', each piece cut down to its word characters, empty pieces dropped, the rest joined by single hyphens |
| SlugWords.SlugOfSpaced | AddClientForm.tsx:51-62 | two names separated by whitespace give the two slugs joined by one hyphen, or the non-empty one alone |
| Clients.ErrorText | AddClientForm.tsx:89 | a caught error shows its own message, or the form's fixed text when the message is empty |
| Clients.UploadedLogo | AddClientForm.tsx:42-48 | a successful upload yields its public URL; a failed one yields its error |
| Clients.ApplyChanges | EditClientForm.tsx:67-70 | the update sets name, business type and logo, and keeps the id and the slug |
| AddClient.NewLogo | AddClientForm.tsx:33-49 | without a picked file the logo reference is empty; with one it is the upload's outcome |
| AddClient.InsertErrorText | AddClientForm.tsx:75-89 | code 23505 shows the duplicate-slug message; other errors show their own message, or the fixed text when it is empty |
| AddClient.NewRow | AddClientForm.tsx:64-73 | the inserted row carries the typed fields, the logo reference and the slug generated from the name |
| AddClient.AddSubmission | AddClientForm.tsx:27-93 | the insert is issued unless a picked file fails to upload; the row has the typed fields and the generated slug, and an empty logo without a file; the submit succeeds exactly when the insert is written; it shows the matching error otherwise |
| AddClient.InsertedSlugStable | AddClientForm.tsx:64-73 | a slug stored by the add form is a slug, and slugifying it again gives it back |
| AddClient.AddClientForm.constructor | AddClientForm.tsx:7-12 | the form opens empty, not loading, without error |
| AddClient.AddClientForm.HandleFileChange | AddClientForm.tsx:14-20 | a picked file becomes the logo and its preview URL the preview; an empty pick changes nothing |
| AddClient.AddClientForm.RemoveLogo | AddClientForm.tsx:22-25 | the logo and its preview are dropped; nothing else changes |
| AddClient.AddClientForm.HandleSubmit | AddClientForm.tsx:27-93 | the submit's result is AddSubmission of the entries; the error shown is the result's; loading ends false; on success the entries are cleared, and on failure they are kept |
| EditClient.InitialPreview | EditClientForm.tsx:24 | the form opens showing the stored logo, or none when the stored reference is empty |
| EditClient.EditLogo | EditClientForm.tsx:47-65 | a picked file makes the logo the upload's outcome (its public URL, or the upload error); only a picked file can fail; without one the written logo is either the stored one or empty, and it is empty exactly when the preview was removed or the stored one is empty |
| EditClient.EditSubmission | EditClientForm.tsx:41-81 | the update is issued unless a picked file fails to upload; it writes the typed fields and the uploaded, kept or cleared logo; the submit succeeds exactly when the update is written; it shows the matching error otherwise |
| EditClient.UntouchedEditKeepsRow | EditClientForm.tsx:21-70 | submitting the form as it opened writes the client's own fields, so the stored row is unchanged |
| EditClient.EditedRow | EditClientForm.tsx:47-70 | after a successful edit the row keeps its id and its old slug, even on rename, and holds the typed fields and the resolved logo |
| EditClient.EditClientForm.constructor | EditClientForm.tsx:21-26 | the form opens on the client's name, business type and stored logo, with no file picked |
| EditClient.EditClientForm.PendingLogo | EditClientForm.tsx:47-65 | with a picked file the logo written is the upload's outcome; without one it is exactly the logo on show, or empty when none is shown |
| EditClient.EditClientForm.HandleFileChange | EditClientForm.tsx:28-34 | a picked file becomes the logo and its preview URL the preview; an empty pick changes nothing |
| EditClient.EditClientForm.RemoveLogo | EditClientForm.tsx:36-39 | the logo and its preview are dropped, so any submit now clears the stored logo |
| EditClient.EditClientForm.HandleSubmit | EditClientForm.tsx:41-81 | the submit's result is EditSubmission of the entries; the error shown is the result's; loading ends false; the entries are kept |

## Left out

- Backend calls. The storage upload, the public-URL lookup, the row insert and the row update are parameters holding their outcomes. Auth, logout, routing and the dashboard page are not part of this model.
- Upload file names. They are built from the clock and a random number, which the model does not need.
- Browser preview URLs. These come from `URL.createObjectURL`; the form methods take them as a parameter.
- The clock. `isToday` compares with a `today` parameter, not the current time. Time zones are not modelled: dates are calendar dates.
- Presentation:
  - the month title and day labels in the Brazilian Portuguese locale;
  - colour classes and tooltips;
  - aria labels;
  - the sidebar toggle;
  - the text shown while loading.
- DOM focus. It is a `focus` field, and the close button is a named element. The effect that focuses the close button is folded into `HandleDayClick`.
- Slug.Lower: covers only ASCII and Latin-1 (U+00C0..U+00DE). JavaScript's full Unicode lower-casing is not modelled.
- Slug.Decompose: covers only the precomposed Latin-1 letters. Other characters are left whole, unlike the full Unicode NFD.
- Characters are Unicode scalar values, not UTF-16 code units. Surrogate pairs are not modelled.
- The browser's `required` check on the name and business-type inputs is not modelled. A submit is modelled whatever the fields hold.
- The onChange setters of the text inputs only assign the typed text; they are not modelled as methods.
- The add form's `loading` flag and its disabled submit button are not modelled as a guard against concurrent submits. `loading` is true only during a submit, and the methods expose only the state after it.
- The console logging of errors is not modelled.
- The quick-navigation mark (`IsQuickNavCurrent`) shows on button i whenever month i + 1 is on show, in any year. This follows the code, which compares only the month.
- Dates.ParseFormat: the round trip is proved for years 1..9999. The format of other years has a different width.
