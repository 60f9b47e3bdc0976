# FundsBook reconciliation, modelled in Dafny

FundsBook keeps an Excel workbook of Chinese mutual funds up to date. It reads
the workbook to find what is missing, fetches prices and rankings from
eastmoney.com, and writes the fetched values back. This project models the
core of that cycle as pure functions over an immutable sheet model, and proves
what each step does. It has four parts:

- **The workbook manager** (`WorkbookManager`, modules `FundsSheet`,
  `RankingSheet`, `TopSheet`). It covers:
  - the header map of the funds sheet and the missing-price scan;
  - the fill-in of fetched prices;
  - the ranking-id filter and the ranking value rule;
  - both branches of `write_rankings`, including the ordered fill of a top-50
    sheet;
  - the 52-row shift of `copy_top_range`;
  - the column and row search of `buy_funds`, with `_create_new_funds_column`;
  - `date_by_adding_business_days` (module `Calendar`).
- **The job controller** (module `Controller`). It is a sequential state
  machine. Its inputs are the cancel-flag value observed at each poll, the
  pause jitter and page content of each load, the fund-name lookup, and the
  date the clock reads before the top jobs. Its
  output is a trace of events: totals announced, progress ticks, fetches,
  writes, the data export and the workbook close.
- **The record builders of the scraper** (module `WebScraper`). These are
  `_get_page`'s pause and result classification, and the records that
  `parse_funding_page`, `parse_ranking_page` and `parse_top` build from page
  fragments that are already located.
- **The launcher updater** (module `LauncherUpdater`). This covers the
  release-tag split and the update flags of `check`, the guards of
  `download`, and the decision table of `install_update`.

Shared modules hold the rest:

- `Sheets`: the openpyxl sheet model.
  - A sheet is a finite map from (row, column) to a cell.
  - A cell is `Empty | Str | Num | Date | Formula`.
  - A formula is a `Formula` cell or a string starting with `=`.
  - `max_row` and `max_column` are computed from the stored cells.
  - `move_range` and the template copy are modelled cell by cell, each with
    the translator rule of its own path.
- `PyText`: the Python string operations the code relies on. These are
  `strip`, `find`, `split`, `join`, slicing and a decimal `float()`.
- `Wrappers`: `Option`.

The model assumes the workbook is loaded. As written, the `load_workbook`
line of `WorkbookManager.__init__` (workbook_manager.py:30) is commented out,
so `self.wb` is never set; see "## Left out".

Where the code and its design notes disagree, the model follows the code:

- The missing-price scan includes the first filled row at or below row 9 in
  the list of missing dates. It does not start at the first empty row.
- The ranking-id filter keeps a column-D cell holding the empty string. Only
  None and formulas are dropped.
- In `write_rankings`, a value ending in `%` whose prefix is not a number
  raises `ValueError`. Nothing inside the loop catches it, so the whole call
  returns False, keeping the cells already written.
- `copy_top_range` shifts again each time it runs, so it is not idempotent.
- `_create_new_funds_column` copies the template through the formula
  translator, which is stricter than a cell copy. None and 0 come out as "",
  and a non-zero number or a date raises `TypeError` part way through the
  copy. `buy_funds` then returns False and keeps the cells already copied.
- Fetch failures never stop a scrape loop: return values are ignored.
- When the flag is down at the end, `start` returns False without exporting
  and without closing the workbook, so nothing is saved.
- After a top-50 job, `start` resets the scraper's data. The exported data is
  therefore empty whenever top jobs ran.
- On 29 February, `start` with the top jobs raises `ValueError` after the
  read jobs: the start of the top jobs' date range is today a year earlier,
  and `replace` has no 29 February to move to. No top job runs, nothing is
  exported and the workbook is not closed.
- Nothing else resets the scraper's data: it lives as long as the driver
  session, so a run without top jobs starts from, and exports, whatever
  earlier runs left in it.
- In `install_update`, both PROD branches that spawn the updater call
  `self.close()`. The class has no such method, so those branches raise
  instead of returning "Done".
- `check` sets the app-update flag before it parses the launcher version. A
  later failure leaves that flag set while `check` returns False.

## Model

| member | source | states |
|---|---|---|
| `Calendar.AddBusinessDays` | app/src/workers/workbook_manager.py:38-47 | for a positive count the result is a weekday after the start, exactly that many weekdays lie in (start, result], and no earlier day has that many; a non-positive count returns the start |
| `Calendar.WeekdayNext` | app/src/workers/workbook_manager.py:42-44 | stepping one day advances `weekday()` by one, from Sunday (6) back to Monday (0) |
| `Calendar.FormatYmd` | app/src/workers/workbook_manager.py:185 | `strftime("%Y-%m-%d")` of a valid date is ten characters with dashes at 4 and 7, whose digit fields read back as the year, month and day |
| `Calendar.FormatYmdInjective` | app/src/workers/workbook_manager.py:694-697 | two valid dates that print the same are the same date, so matching a printed date finds exactly that date |
| `Calendar.YearBefore` | app/src/workers/controller.py:420-421 | `today.replace(year=today.year - 1)` gives a real date with the same month and day one year earlier, and raises only when that date does not exist |
| `Calendar.YearBeforeRaises` | app/src/workers/controller.py:420-421 | on a real date the step back raises iff the date is 29 February or in year 1 |
| `Sheets.Translate` | app/src/workers/workbook_manager.py:507 | `move_range(..., translate=True)` translates exactly the cells typed as formulas (a formula, or a string longer than "=" that starts with "=") into formulas, and moves every other value unchanged |
| `Sheets.TranslateValue` | app/src/workers/workbook_manager.py:736-739 | `Translator(value).translate_formula()` raises exactly on a non-zero number or a date; None, 0 and "=" come out as ""; a formula or any other text comes out as `move_range` would move it (translated when formula-typed, else as is); the result is always text or a formula |
| `Sheets.TranslateValueAgrees` | app/src/workers/workbook_manager.py:736-739 | the template copy gives the same value as `move_range` iff the value is a formula or text other than "="; it differs on None, numbers, dates and "=" |
| `Sheets.Set` | app/src/workers/workbook_manager.py:224-226 | the assigned cell reads back the new value and every other cell reads as before |
| `Sheets.MaxRow` | app/src/workers/workbook_manager.py:319 | `max_row` is at least 1, bounds the row of every stored cell, and is attained unless it is 1 |
| `Sheets.MaxCol` | app/src/workers/workbook_manager.py:130 | `max_column` is at least 1, bounds the column of every stored cell, and is attained unless it is 1 |
| `Sheets.SetDimensions` | app/src/workers/workbook_manager.py:491-509 | storing a cell grows `max_row`/`max_column` to cover it and changes them in no other way, so the cleared cells widen the sheet before the title copy reads `max_column` |
| `Sheets.ApplyWritesOverlay` | app/src/workers/workbook_manager.py:217-231 | a sequence of cell assignments equals overlaying, for each assigned position, the last value assigned there |
| `Sheets.ApplyWritesGet` | app/src/workers/workbook_manager.py:224-230 | after a batch a cell holds its last assigned value if it was assigned, else its old value |
| `Sheets.ApplyWritesIdempotent` | app/src/workers/workbook_manager.py:217-231 | replaying a batch of assignments on its own result changes nothing |
| `Sheets.MoveRangeAt` | app/src/workers/workbook_manager.py:507 | `move_range`: destination cells hold the translated source values, source cells outside the destination are deleted, all others are kept |
| `PyText.StripCharsSpec` | app/src/workers/web_scraper.py:207 | `strip` cuts a run of stripped characters from each end and nothing else, and leaves neither end on a stripped character |
| `PyText.StripCharsIdempotent` | launcher/src/updater.py:43 | stripping the same characters twice equals stripping once |
| `PyText.Find` | app/src/workers/web_scraper.py:280-282 | `find` returns -1 exactly when the text does not occur, else the first index where it occurs |
| `PyText.Split` | launcher/src/updater.py:42 | `split` yields at least one piece; exactly one (the whole string) when the separator is absent; the first piece is the text before the first separator |
| `PyText.JoinSplit` | launcher/src/updater.py:42 | joining the pieces of a split with the same separator gives back the original string |
| `PyText.SplitPiecesAvoidSeparator` | launcher/src/updater.py:42 | no piece of a split contains the separator |
| `PyText.PySlice` | app/src/workers/web_scraper.py:281 | a Python slice with in-range bounds, or a negative end counted from the back, is the corresponding subsequence |
| `PyText.ParseFloatOfStripped` | app/src/workers/workbook_manager.py:436-439 | `float(v.strip())` and `float(v)` accept the same strings and give the same number |
| `PyText.ParseFloatRejects` | app/src/workers/workbook_manager.py:224-230 | text whose first non-blank character is not a sign, digit or point makes `float` raise |
| `FundsSheet.AssignKeys` | app/src/workers/workbook_manager.py:132 | a dict assignment keeps an existing key in its place and appends a new key last |
| `FundsSheet.AssignLookup` | app/src/workers/workbook_manager.py:132 | after the assignment the key maps to the new column, every other key to what it mapped to |
| `FundsSheet.HeaderMapSpec` | app/src/workers/workbook_manager.py:129-132 | the header map holds each row-1 value other than None once, mapped to the column of its last occurrence, with keys in order of first occurrence |
| `FundsSheet.FirstFilled` | app/src/workers/workbook_manager.py:167-171 | the downward walk stops at the first row at or below 9 whose price is neither None nor "", and when none exists no row there is filled |
| `FundsSheet.DatesUpFromSome` | app/src/workers/workbook_manager.py:174-188 | a successful upward walk lists every row it passes from the start row up, each holding a date printed `%Y-%m-%d`, and stops at an empty column-A cell at row 1 or below |
| `FundsSheet.DatesUpFromNone` | app/src/workers/workbook_manager.py:176-188 | a failed upward walk reaches row 0 or a column-A value that is neither None nor a date |
| `FundsSheet.ScanColumnsSpec` | app/src/workers/workbook_manager.py:153-196 | a successful scan has one entry per non-template header entry, in dict order, with its column and the walk from its first filled row; the scan hangs only on a column with no filled row at or below 9 |
| `FundsSheet.ReadFundsSpec` | app/src/workers/workbook_manager.py:129-196 | `read_funds` never lists "000000", and lists each other id at the column the header map gives it |
| `FundsSheet.ReadFundsHangs` | app/src/workers/workbook_manager.py:161-171 | the scan hangs only when some non-template id in row 1 has nothing filled at or below row 9 |
| `FundsSheet.ReadFundsWellFormed` | app/src/workers/workbook_manager.py:153-196 | the scan's funds sit in distinct columns and never list a row twice, so no two (row, date) pairs share a cell |
| `FundsSheet.PriceOf` | app/src/workers/workbook_manager.py:224-226 | the price lookup succeeds iff the id is a string key of the data and the date is listed under it |
| `FundsSheet.PriceCell` | app/src/workers/workbook_manager.py:223-230 | a price is stored as a number iff `float` accepts it, and otherwise as the text itself |
| `FundsSheet.FillWritesSpec` | app/src/workers/workbook_manager.py:217-231 | one assignment per (row, date) pair with a fetched price, at exactly those pairs' cells; misses assign nothing |
| `FundsSheet.WriteFunds` | app/src/workers/workbook_manager.py:198-249 | the count is the number of pairs with a fetched price; cells of other pairs are unchanged; with distinct cells each hit holds its converted price |
| `FundsSheet.WriteFundsIdempotent` | app/src/workers/workbook_manager.py:217-231 | writing the same data a second time leaves the sheet as the first write did |
| `FundsSheet.WriteFundsAfterRead` | app/src/workers/workbook_manager.py:217-231 | after `read_funds`, every fetched price lands in its own cell |
| `FundsSheet.FindColumn` | app/src/workers/workbook_manager.py:675-690 | the column search finds column 1 or the first column before `max_column` holding the id, and creates a column iff none of those holds it |
| `FundsSheet.FindColumnAt` | app/src/workers/workbook_manager.py:675-690 | conversely, the first column holding the id (column 1 or before the last) is the one found |
| `FundsSheet.CopyTemplateOk` | app/src/workers/workbook_manager.py:733-739 | the template copy runs to the end iff no template cell (every row, the last eight columns) holds a non-zero number or a date |
| `FundsSheet.CopyTemplateInside` | app/src/workers/workbook_manager.py:733-739 | each cell of the new block that the loop reaches before it raises holds the translator's value for the template cell eight columns left; the block cells from the raise on are untouched |
| `FundsSheet.CopyTemplateOutside` | app/src/workers/workbook_manager.py:733-739 | the copy assigns nothing outside the eight columns after `max_column` and rows 1..`max_row` |
| `FundsSheet.NewFundsColumn` | app/src/workers/workbook_manager.py:728-758 | creating a column succeeds iff the sheet has at least eight columns and the copy loop meets no value the translator rejects, and the fund column is then `max_column - 4`; with fewer than eight columns the sheet is unchanged; a rejected value leaves the partial copy |
| `FundsSheet.NewFundsColumnSpec` | app/src/workers/workbook_manager.py:728-758 | on a template the translator accepts: the id lands in row 1 of the new column; the link lands in row 3 of the column before it; each block cell holds the translator's value for the template cell eight columns left, so only text or a formula; every other cell is kept |
| `FundsSheet.NewFundsColumnRaises` | app/src/workers/workbook_manager.py:728-758 | on a template with a non-zero number or a date, creation fails: block cells copied before the first such value in row-major order hold their translation, and every other cell, the id and the link cells included, is kept |
| `FundsSheet.FindDateRowFrom` | app/src/workers/workbook_manager.py:692-708 | the date search returns the first row from 9 whose column-K date prints as the date, provided it is the first row tried or lies before `max_row`; a miss means no such row; an error means a non-date value came first |
| `FundsSheet.FindDateRowAt` | app/src/workers/workbook_manager.py:692-708 | conversely, the first matching row with no raising row before it is the one found |
| `FundsSheet.Purchase` | app/src/workers/workbook_manager.py:692-720 | the purchase succeeds iff the date is found, the amount parses and the column is at least D; it then writes the amount three columns left of the fund, and 1.0 below a new fund's cell, and nothing else; on failure the sheet is unchanged |
| `FundsSheet.PurchaseFound` | app/src/workers/workbook_manager.py:711-713 | on a found date, a purchase is exactly those one or two cell assignments |
| `FundsSheet.BuyFunds` | app/src/workers/workbook_manager.py:667-726 | `buy_funds` purchases into the found column, or into a newly created column; it fails with the sheet unchanged when a column is needed but the sheet is too narrow, and with the partial copy when the template copy raises |
| `FundsSheet.BuyExistingFund` | app/src/workers/workbook_manager.py:667-726 | with the id already present, a listed date and a numeric amount, exactly one cell changes: the amount, three columns left of the id |
| `FundsSheet.BuyNewFund` | app/src/workers/workbook_manager.py:667-726 | with the id absent and a template the translator accepts, the new column gets the id in row 1, the amount three columns left of it, and 1.0 below the fund's cell |
| `FundsSheet.BuyNewFundRaises` | app/src/workers/workbook_manager.py:667-726 | with the id absent and a non-zero number or a date in the template, `buy_funds` returns False whatever the date and amount, and every cell up to `max_column` is unchanged, so no amount and no id is written |
| `RankingSheet.RankingIdsFrom` | app/src/workers/workbook_manager.py:264-268 | each listed id is a kept column-D cell (not None, not a formula) of its row, rows strictly increasing |
| `RankingSheet.RankingIdsComplete` | app/src/workers/workbook_manager.py:264-268 | every kept column-D row in range is listed |
| `RankingSheet.ReadRankings` | app/src/workers/workbook_manager.py:262-268 | `read_rankings` lists kept column-D cells of rows 1..`max_row`, top to bottom; an empty string is kept |
| `RankingSheet.ReadRankingsComplete` | app/src/workers/workbook_manager.py:264-268 | every row whose column-D value is kept is listed |
| `RankingSheet.RankingValueSkips` | app/src/workers/workbook_manager.py:322-331 | a cell is skipped iff the id has no ranking record or the record has no value at that index |
| `RankingSheet.RankingValueAborts` | app/src/workers/workbook_manager.py:333-359 | the call aborts only on a value after the first that ends in `%` and whose prefix `float` rejects; value 0 is always written as the raw text |
| `RankingSheet.RankingValueReadsBack` | app/src/workers/workbook_manager.py:340-371 | a written number y comes from a value after the first: `x%` with `float(x)` = 100·y, or a plain value that `float` reads as y; written text is the value itself, either value 0 or one neither ending in `%` nor a number; an empty cell is never written |
| `RankingSheet.RankingValuePercentExample` | app/src/workers/workbook_manager.py:333-371 | "12.34%" is written as 0.1234 after value 0 and as the text at value 0; a missing index or id skips the cell |
| `RankingSheet.RankingValueDashExample` | app/src/workers/workbook_manager.py:360-371 | "--" is not a number and is written as the text |
| `RankingSheet.RankingValueMalformedExample` | app/src/workers/workbook_manager.py:340-359 | "N/A%" makes `float` raise and aborts the call |
| `RankingSheet.TopRankingValueSame` | app/src/workers/workbook_manager.py:421-446 | the top branch's conversion with `.strip()` gives the same outcome as the in-place branch's |
| `RankingSheet.WriteRowFrame` | app/src/workers/workbook_manager.py:322-388 | writing one row changes only its value columns, and column E when value 0 is written |
| `RankingSheet.WriteRowOk` | app/src/workers/workbook_manager.py:354-359 | a row completes iff none of its values aborts |
| `RankingSheet.WriteRowValues` | app/src/workers/workbook_manager.py:322-371 | a completed row holds, in each value column, the value written or what was there |
| `RankingSheet.WriteRowLink` | app/src/workers/workbook_manager.py:333-338 | a completed in-place row holds the fund link in column E iff value 0 was written |
| `RankingSheet.WriteRowCount` | app/src/workers/workbook_manager.py:373 | a completed row adds the number of values written to the count |
| `RankingSheet.RowKeepsIds` | app/src/workers/workbook_manager.py:318-388 | writing a row leaves column D and every other row unchanged |
| `RankingSheet.InPlaceFrame` | app/src/workers/workbook_manager.py:318-388 | the in-place branch changes only columns E..Q of rows with a kept id |
| `RankingSheet.InPlaceOk` | app/src/workers/workbook_manager.py:318-388 | the in-place branch completes iff no kept row has a value that aborts |
| `RankingSheet.InPlaceValues` | app/src/workers/workbook_manager.py:318-388 | on completion each kept row holds its converted values in F..Q, and the link in E iff value 0 was written |
| `RankingSheet.InPlaceCount` | app/src/workers/workbook_manager.py:318-388 | on completion the count is the number of values written over all kept rows |
| `TopSheet.ClearTopAt` | app/src/workers/workbook_manager.py:491-504 | clearing sets column A and columns R..AA of rows 2..51 to "" and keeps every other cell |
| `TopSheet.ShiftDownAt` | app/src/workers/workbook_manager.py:507 | after the move each cell of A..AB from row 54 holds the translated value from 52 rows above, and rows 2..53 of those columns are empty |
| `TopSheet.ShiftDownKeeps` | app/src/workers/workbook_manager.py:507 | the move keeps row 1 and every column right of AB |
| `TopSheet.CopyTitleAt` | app/src/workers/workbook_manager.py:509-512 | row 53 gets the title row's values in columns 1..`max_column`-4; nothing else changes |
| `TopSheet.HeadAt` | app/src/workers/workbook_manager.py:528-545 | the fresh block gets the lookup formulas in A, B and R..AB and the rank in C; D..G keep their values |
| `TopSheet.CopyTopAt` | app/src/workers/workbook_manager.py:478-665 | `copy_top_range`, cell by cell, against the sheet it started from |
| `TopSheet.CopyTopKeepsTitle` | app/src/workers/workbook_manager.py:507 | the title row is never moved or written |
| `TopSheet.CopyTopPushesDown` | app/src/workers/workbook_manager.py:491-507 | old content of A..AB from row 2 reappears 52 rows down, translated; cleared cells arrive as "" |
| `TopSheet.CopyTopFreshBlock` | app/src/workers/workbook_manager.py:528-545 | rows 2..51 become rank r-1 in C, lookup formulas in A, B, R..AB, and empty D..Q |
| `TopSheet.CopyTopKeepsRight` | app/src/workers/workbook_manager.py:507-512 | columns right of AB are kept, except title cells copied into row 53 |
| `TopSheet.CopyTopTitleRow` | app/src/workers/workbook_manager.py:509-512 | row 53 holds the old title row up to `max_column`-4 |
| `TopSheet.CopyTopRows` | app/src/workers/workbook_manager.py:507 | the sheet grows to 53 rows beyond the larger of its old length and row 51 |
| `TopSheet.CopyTopNotIdempotent` | app/src/workers/workbook_manager.py:478-665 | running the shift twice never gives the same sheet as running it once |
| `TopSheet.TopOutcomesSame` | app/src/workers/workbook_manager.py:421-446 | the top branch converts every value exactly as the in-place branch does |
| `TopSheet.TargetRowsSpec` | app/src/workers/workbook_manager.py:404-409 | the rows the top branch fills are, in increasing order, the rows whose column-D value is not a formula, and every row skipped before the last holds one |
| `TopSheet.TopFillOk` | app/src/workers/workbook_manager.py:404-467 | the top branch completes iff no entry's values abort, then the list is used up; otherwise a proper tail of the list remains |
| `TopSheet.TopFillFrame` | app/src/workers/workbook_manager.py:404-465 | the top branch changes only columns D..Q of its target rows |
| `TopSheet.TopFillRows` | app/src/workers/workbook_manager.py:404-465 | on completion the k-th target row holds the k-th entry's id, its link, and its converted values |
| `TopSheet.TopFillCount` | app/src/workers/workbook_manager.py:404-465 | on completion the count is the number of values written for all entries |
| `TopSheet.WriteTopTargets` | app/src/workers/workbook_manager.py:390-409 | after the shift, with at most fifty entries, the target rows are rows 2, 3, … in list order; row 1 is never one |
| `TopSheet.WriteTopFilled` | app/src/workers/workbook_manager.py:390-467 | on success entry k fills row k+2 |
| `TopSheet.WriteTopFrame` | app/src/workers/workbook_manager.py:390-467 | apart from columns D..Q of the filled rows, the sheet is what the shift left, so earlier rankings survive below row 53 |
| `TopSheet.WriteRankings` | app/src/workers/workbook_manager.py:285-476 | `write_rankings` raises iff the sheet is missing; otherwise it changes only that sheet |
| `TopSheet.WriteRankingsInPlace` | app/src/workers/workbook_manager.py:318-388 | with an empty id list: success iff no kept row aborts, count = values written, only E..Q of kept rows change |
| `TopSheet.WriteRankingsTop` | app/src/workers/workbook_manager.py:390-467 | with a non-empty list: success iff no entry aborts, and then the list is emptied and the count is every value written |
| `WebScraper.Pause` | app/src/workers/web_scraper.py:122-128 | the pause is `request_pause`, or within 5 of it when random pauses are on |
| `WebScraper.PauseReachable` | app/src/workers/web_scraper.py:122-128 | every pause within 5 of `request_pause` can occur |
| `WebScraper.GetPage` | app/src/workers/web_scraper.py:118-157 | a negative pause raises; otherwise the page load reports success on a load or a timeout and failure on any other error |
| `WebScraper.PriceTableSpec` | app/src/workers/web_scraper.py:198-209 | the price table parses iff every row has two cells; its keys are exactly the listed dates, each mapped to the stripped price of its last row |
| `WebScraper.ParseFundingPage` | app/src/workers/web_scraper.py:159-229 | succeeds iff the page loads and the table parses; `funds[id]` is set to the whole table only on success, and failure touches no data |
| `WebScraper.DateFieldBetween` | app/src/workers/web_scraper.py:280-282 | with both brackets present in order, the date is the text between them |
| `WebScraper.DateFieldNoBrackets` | app/src/workers/web_scraper.py:280-282 | with neither bracket present, `find` gives -1 twice and the slice is the whole line minus its last character |
| `WebScraper.Inner` | app/src/workers/web_scraper.py:294-301 | the lists read are all but the first and the last |
| `WebScraper.LabelValuesSpec` | app/src/workers/web_scraper.py:277-290 | the label part of the record holds the date, the price and the stripped change in that order, as far as they exist |
| `WebScraper.ExtractRankingSpec` | app/src/workers/web_scraper.py:277-301 | the record is the prefix of the expected entries up to the first missing one; it completes iff all exist, with length 3 + (#lists - 2) |
| `WebScraper.ParseRankingPage` | app/src/workers/web_scraper.py:231-326 | after a load `ranking[id]` is reset and holds the extracted prefix, with success iff the record completes; a failed load touches nothing |
| `WebScraper.AppendRowsSpec` | app/src/workers/web_scraper.py:357-369 | the top list keeps what it held and gains the rows' entries in row order, stopping at the first bad row |
| `WebScraper.ParseTop` | app/src/workers/web_scraper.py:328-386 | `parse_top` appends to the existing list without clearing it, keeps rows appended before a failure, and touches nothing on a failed load |
| `Controller.ManagerReadFunds` | app/src/workers/workbook_manager.py:79-151 | `read_funds` stores the scan's funds iff the sheet exists and the scan succeeds, leaves the manager unchanged otherwise, and hangs iff the scan hangs |
| `Controller.ManagerReadRankings` | app/src/workers/workbook_manager.py:262-283 | `read_rankings` succeeds iff the sheet exists and then stores the filtered ids; on failure the manager is unchanged |
| `Controller.ManagerWriteFunds` | app/src/workers/workbook_manager.py:213-249 | `write_funds` succeeds iff the sheet exists and a scan result is stored, and then replaces only the funds sheet |
| `Controller.FetchOne` | app/src/workers/controller.py:39-44 | one fetch consumes one load, records the target, and raises iff its pause is negative; the manager and the top list are untouched |
| `Controller.ScrapeFromSpec` | app/src/workers/controller.py:39-49 | a scrape loop fetches the targets in order up to and including the first poll that sees the flag down, and ticks once per fetch before it |
| `Controller.ScrapeMeasures` | app/src/workers/controller.py:39-49 | a scrape loop ticks at most once per target, and announces, writes and saves nothing |
| `Controller.ScrapeIgnoresPages` | app/src/workers/controller.py:39-49 | what the pages return never changes the loop's control flow, trace or polls |
| `Controller.RunJob` | app/src/workers/controller.py:246-368 | with the flag down at entry, a job only polls: no read, fetch or write |
| `Controller.JobReadNone` | app/src/workers/controller.py:9-27 | a read that leaves `missing_funds` or `ranking_ids` None makes `len()` raise and ends the job by exception |
| `Controller.LoopFetches` | app/src/workers/controller.py:52-84 | the fetch phase of a job fetches its targets in order, up to the first poll that sees the flag down |
| `Controller.JobFetches` | app/src/workers/controller.py:246-368 | each job announces its full target count before fetching, and fetches its targets in scan or list order |
| `Controller.LoopWrites` | app/src/workers/controller.py:269-270 | a job writes exactly once iff the poll after its fetches sees the flag up |
| `Controller.JobWriteInput` | app/src/workers/controller.py:355-365 | the write a job performs receives the data as it stood after the fetches, and for a top job a copy of the fetched list in order |
| `Controller.JobProgress` | app/src/workers/controller.py:246-368 | a job never saves, and ticks no more than it announces |
| `Controller.TopLoop` | app/src/workers/controller.py:423-441 | after the categories, unless a job raised or hung, the scraper data and both manager lists are reset, also when a job returned early on the flag |
| `Controller.TopLoopOrder` | app/src/workers/controller.py:411-441 | with the flag up, the top jobs fetch their lists in category order |
| `Controller.TopCategoryHashes` | app/src/workers/controller.py:411-418 | the categories are thh, tgp, tzs, tzq, tqdii in that order |
| `Controller.Finish` | app/src/workers/controller.py:444-457 | with the flag down, `start` returns False and saves nothing; otherwise it exports iff asked, closes, and returns True |
| `Controller.StartCancelled` | app/src/workers/controller.py:444-451 | `start` returns True iff the last poll sees the flag up, and a False return never exports or closes |
| `Controller.StartSaved` | app/src/workers/controller.py:453-457 | a True return ends with the close, preceded by the export iff asked; with top jobs the export is empty |
| `Controller.StartProgress` | app/src/workers/controller.py:376-457 | over a whole run the progress ticks never exceed the announced totals |
| `Controller.StartTopOrder` | app/src/workers/controller.py:376-457 | with the flag up throughout, a successful run fetches the five top lists in the fixed order, or none without top jobs |
| `Controller.StartExportsHeldData` | app/src/workers/controller.py:453-457 | with no jobs and the flag up, `start` exports the scraper's data exactly as it held it before the run, then closes |
| `Controller.Jobs` | app/src/workers/controller.py:389-442 | with the top jobs on and the read jobs past, a date with no year-earlier counterpart ends the jobs by exception before any category, with the run left as the read jobs left it |
| `Controller.StartLeapDay` | app/src/workers/controller.py:407-442 | on 29 February with the top jobs on, once the read jobs are past, `start` raises: no top list is fetched and nothing is exported or saved |
| `LauncherUpdater.Newer` | launcher/src/updater.py:44-49 | a comparison is defined iff both versions parse, and then holds iff the first is greater |
| `LauncherUpdater.SplitTag` | launcher/src/updater.py:42-43 | a tag without "+" fails; otherwise the app version is the text before the first "+" stripped of 'v' |
| `LauncherUpdater.SplitTagOfRelease` | launcher/src/updater.py:42-43 | a tag `app+build--launcher…` splits into the 'v'-stripped app version and the launcher version |
| `LauncherUpdater.Init` | launcher/src/updater.py:14-22 | a fresh updater has neither update flag set and no repository version or URL |
| `LauncherUpdater.Check` | launcher/src/updater.py:28-56 | `check` succeeds iff both files read, the status is 200, the tag and URL exist, the tag splits and both versions parse; then each flag holds iff the repository version is greater than the local one |
| `LauncherUpdater.CheckKeepsAppFlag` | launcher/src/updater.py:42-49 | a launcher version that does not parse fails `check` after the app flag is already set |
| `LauncherUpdater.Download` | launcher/src/updater.py:58-82 | the zip is written iff there is an app update, PROD is set and the status is 200; success also needs the file update; otherwise nothing is written |
| `LauncherUpdater.InstallUpdate` | launcher/src/updater.py:128-195 | the branch is launcher-only, app-only, both or none by the two flags; the updater is spawned iff there is a launcher update; a PROD run with a launcher update raises |
| `LauncherUpdater.FailedCheckInstallsNothing` | launcher/src/updater.py:37-56 | after a failed request, installing takes no branch, does nothing and returns "Done" |

## Left out

- Qt GUI, thread pool and signals. The controller's progress signals become events in a trace, and the cancel flag becomes an input read once per poll.
- Selenium, `requests` and BeautifulSoup. Page loads, pause jitter, located page fragments and the fund-name lookup (`_get_name_from_id`) are inputs of the model.
- Styles, fills, fonts, number formats and column widths: they carry no values.
- The literal text of generated formulas. A formula is kept symbolic (`Hyperlink`, `TopLookup`, `Translated`).
- openpyxl's formula tokenizer. A translated formula is the symbolic `Translated`, and formula text the tokenizer would reject is assumed not to occur.
- Loading the workbook. The model assumes the `load_workbook` line of `WorkbookManager.__init__` (workbook_manager.py:30) is active. As written it is commented out, so `self.wb` is never set and every sheet access raises `AttributeError`: `read_funds`, `write_funds`, `read_rankings`, `copy_top_range` and `buy_funds` catch it and return False, the controller's wrappers then raise on `len(None)`, and `write_rankings` and `close` raise directly.
- Floating point. `float()` is a decimal parser into exact reals, and `/ 100` is exact division.
- The workbook save, the JSON export, the updater's zip extraction, file renames and `subprocess` calls. The model records that they happen, not what they do.
- `update_files` internals. The model takes its outcome as an input.
- The legacy non-thread jobs `start_funds_job`, `start_rankings_job` and `start_top_job` (controller.py:126-239). They are not reachable from the thread worker.
- The top job's URL and the printed dates of its range: only the category hash is kept, and of the range's start only whether computing it raises.
- `str(id)` on non-string ids. Fetched data is keyed by the cell value itself, so two ids whose `str()` forms coincide are not modelled.
- openpyxl's creation of an empty cell at each position read. Three reads go past the current bounds: the header loop reads row 1 at `max_column + 1` (workbook_manager.py:130-131), the scan walks below `max_row` (workbook_manager.py:168-171), and the date search of `buy_funds` reads rows 9 and 10 even when `max_row` is smaller (workbook_manager.py:693-701). None changes the result of its own call: the header loop's range is fixed before it starts, the scan never consults `max_row`, and reading row r of column K makes `max_row` at least r, so the test `row >= max_row` holds iff r is at least the old `max_row`, as modelled. The larger bounds a later call in the same session would see are not modelled.
- `PyText.ParseFloat`: accepts plain decimals only. Exponents, `inf`/`nan` and underscores, which Python's `float` also accepts, are rejected.
- `Controller.ManagerReadFunds`: a scan that never terminates is the `ScanHangs` outcome, not a real non-terminating loop.
- `FundsSheet.WriteFunds`: states each hit's cell value only when no two (row, date) pairs share a cell. `FundsSheet.ReadFundsWellFormed` proves this holds for every scan result.
- `TopSheet.WriteTopFilled`: states the row layout for at most fifty entries, which is what the fresh block of 2..51 holds. Longer lists continue into the moved rows, as `TopSheet.TopFillRows` states in general.
