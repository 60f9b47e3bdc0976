/**
 * The record-building half of `EastMoneyFundScraper`: the pause and result
 * classification of `_get_page`, and the records `parse_funding_page`,
 * `parse_ranking_page` and `parse_top` build from a page. The browser and
 * the HTML tree are gone: a page is given by the texts the code locates in
 * it, and a missing element is `None`.
 */
module WebScraper {
  import opened Wrappers
  import opened PyText
  import opened Sheets
  import FundsSheet
  import RankingSheet

  // ---------------------------------------------------------------- page loads

  /** The scraper settings that shape a page load. */
  datatype Config = Config(requestPause: int, randomPauses: bool)

  /** `random.randint(-5, 5)` draws from [-5, 5], both ends included. */
  const JitterBound := 5

  /** A draw of the pause jitter. */
  type Jitter = j: int | -JitterBound <= j <= JitterBound

  /** The pause taken before every load: `request_pause`, moved by the draw when random pauses are on. */
  function Pause(cfg: Config, jitter: Jitter): (p: int)
    ensures cfg.randomPauses ==> cfg.requestPause - JitterBound <= p <= cfg.requestPause + JitterBound
    ensures !cfg.randomPauses ==> p == cfg.requestPause
  {
    if cfg.randomPauses then cfg.requestPause + jitter else cfg.requestPause
  }

  /** Every pause within five seconds of `request_pause` can be drawn. */
  lemma PauseReachable(cfg: Config, p: int)
    requires cfg.randomPauses
    requires cfg.requestPause - JitterBound <= p <= cfg.requestPause + JitterBound
    ensures exists j: Jitter :: Pause(cfg, j) == p
  {
    var j: Jitter := p - cfg.requestPause;
    assert Pause(cfg, j) == p;
  }

  /** What `driver.get` did. */
  datatype Load = Loaded | TimedOut | LoadFailed

  /** How `_get_page` ended: `sleep` raised on a negative pause, or the call returned. */
  datatype PageLoad = SleepRaised | Returned(ok: bool)

  /**
   * `_get_page`: sleep first, outside any handler, then load. A timeout
   * stops the load and still counts as a success; any other error is a
   * failure.
   */
  function GetPage(cfg: Config, jitter: Jitter, load: Load): (r: PageLoad)
    ensures r.SleepRaised? <==> Pause(cfg, jitter) < 0
    ensures r.Returned? ==> (r.ok <==> load != LoadFailed)
  {
    if Pause(cfg, jitter) < 0 then SleepRaised
    else
      match load
      case Loaded => Returned(true)
      case TimedOut => Returned(true)
      case LoadFailed => Returned(false)
  }

  // ---------------------------------------------------------------- scraper data

  /** One entry of the top list: a fund id and the title of its link, when there is one. */
  datatype TopEntry = TopEntry(id: string, name: Option<string>)

  /** The name as an f-string prints it: a missing title prints as "None". */
  function NameText(n: Option<string>): string {
    match n
    case Some(x) => x
    case None => "None"
  }

  /** `data`: the fetched prices, the fetched ranking values and the fetched top list. */
  datatype ScrapeData = ScrapeData(funds: FundsSheet.FundsData, ranking: RankingSheet.RankingData, top: seq<TopEntry>)

  /** The data of a fresh scraper. */
  const NoData := ScrapeData(map[], map[], [])

  /** How a `parse_*` call ended: the error from `sleep` escaped, or it returned its flag and left the data. */
  datatype Fetch = Raised | Done(data: ScrapeData, ok: bool)

  // ---------------------------------------------------------------- gathering loops

  /** What an extraction loop leaves: the values appended, and whether it ran to the end. */
  datatype Gathered<T> = Gathered(values: seq<T>, ok: bool)

  /**
   * The shape of the extraction loops: append each item's value in order,
   * and stop at the first item whose statement raises (a missing item).
   * The values appended before the failure stay.
   */
  function Gather<T>(acc: seq<T>, items: seq<Option<T>>): Gathered<T>
    decreases |items|
  {
    if items == [] then Gathered(acc, true)
    else if items[0].None? then Gathered(acc, false)
    else Gather(acc + [items[0].value], items[1..])
  }

  /** The loop keeps what it was given and adds at most one value per item. */
  lemma {:induction false} GatherPrefix<T>(acc: seq<T>, items: seq<Option<T>>)
    ensures |acc| <= |Gather(acc, items).values| <= |acc| + |items|
    ensures Gather(acc, items).values[..|acc|] == acc
    decreases |items|
  {
    if items != [] && items[0].Some? {
      var next := acc + [items[0].value];
      GatherPrefix(next, items[1..]);
      var g := Gather(acc, items);
      assert g == Gather(next, items[1..]);
      assert g.values[..|acc|] == g.values[..|next|][..|acc|];
    }
  }

  /** Appended value j is the value of item j. */
  lemma {:induction false} GatherItem<T>(acc: seq<T>, items: seq<Option<T>>, j: int)
    requires 0 <= j < |Gather(acc, items).values| - |acc|
    ensures j < |items| && items[j] == Some(Gather(acc, items).values[|acc| + j])
    decreases |items|
  {
    var g := Gather(acc, items);
    assert items != [] && items[0].Some?;
    var next := acc + [items[0].value];
    assert g == Gather(next, items[1..]);
    GatherPrefix(next, items[1..]);
    if j == 0 {
      assert g.values[|acc|] == g.values[..|next|][|acc|];
    } else {
      GatherItem(next, items[1..], j - 1);
      assert items[j] == items[1..][j - 1];
    }
  }

  /** The loop runs to the end iff every item is present; otherwise it stops at a missing one. */
  lemma {:induction false} GatherEnd<T>(acc: seq<T>, items: seq<Option<T>>)
    ensures |acc| <= |Gather(acc, items).values|
    ensures Gather(acc, items).ok <==> |Gather(acc, items).values| == |acc| + |items|
    ensures |Gather(acc, items).values| - |acc| < |items| ==>
      items[|Gather(acc, items).values| - |acc|].None?
    decreases |items|
  {
    GatherPrefix(acc, items);
    if items != [] && items[0].Some? {
      var next := acc + [items[0].value];
      GatherPrefix(next, items[1..]);
      GatherEnd(next, items[1..]);
      var g := Gather(acc, items);
      assert g == Gather(next, items[1..]);
      var n := |g.values| - |acc|;
      if n < |items| {
        assert items[n] == items[1..][n - 1];
      }
    }
  }

  /**
   * The values are the given ones followed by the values of the leading
   * present items, in order; the loop runs to the end iff all items are
   * present, and otherwise the item after the last value is missing.
   */
  lemma GatherSpec<T>(acc: seq<T>, items: seq<Option<T>>)
    ensures var g := Gather(acc, items);
      |acc| <= |g.values| <= |acc| + |items| && g.values[..|acc|] == acc &&
      (forall j :: 0 <= j < |g.values| - |acc| ==> items[j] == Some(g.values[|acc| + j])) &&
      (g.ok <==> |g.values| == |acc| + |items|) &&
      (!g.ok ==> items[|g.values| - |acc|].None?)
  {
    GatherPrefix(acc, items);
    GatherEnd(acc, items);
    var g := Gather(acc, items);
    forall j | 0 <= j < |g.values| - |acc|
      ensures items[j] == Some(g.values[|acc| + j])
    {
      GatherItem(acc, items, j);
    }
  }

  /** The loop runs to the end iff every item is present, and then appends one value per item. */
  lemma GatherAll<T>(acc: seq<T>, items: seq<Option<T>>)
    ensures Gather(acc, items).ok <==> forall j :: 0 <= j < |items| ==> items[j].Some?
    ensures Gather(acc, items).ok ==> |Gather(acc, items).values| == |acc| + |items|
  {
    GatherSpec(acc, items);
    var g := Gather(acc, items);
    if g.ok {
      forall j | 0 <= j < |items|
        ensures items[j].Some?
      {
        assert items[j] == Some(g.values[|acc| + j]);
      }
    }
  }

  // ---------------------------------------------------------------- funds page

  /** The texts of the cells of one table row. */
  type Row = seq<string>

  /** Every row has the two cells the loop reads. */
  predicate WellShaped(rows: seq<Row>) {
    forall i :: 0 <= i < |rows| ==> |rows[i]| >= 2
  }

  /** The date a row is filed under. */
  function RowDate(row: Row): string
    requires |row| >= 2
  {
    Strip(row[0])
  }

  /** No later row is filed under the same date as row i. */
  predicate LastForDate(rows: seq<Row>, i: int)
    requires WellShaped(rows) && 0 <= i < |rows|
  {
    forall j :: i < j < |rows| ==> RowDate(rows[j]) != RowDate(rows[i])
  }

  /** Some row is filed under `date`. */
  predicate DateListed(rows: seq<Row>, date: string)
    requires WellShaped(rows)
  {
    exists i :: 0 <= i < |rows| && RowDate(rows[i]) == date
  }

  /**
   * The price loop: each row files its stripped cell 1 under its stripped
   * cell 0; a row with fewer than two cells raises `IndexError`.
   */
  function PricesFrom(prices: map<string, string>, rows: seq<Row>): Option<map<string, string>>
    decreases |rows|
  {
    if rows == [] then Some(prices)
    else if |rows[0]| < 2 then None
    else PricesFrom(prices[Strip(rows[0][0]) := Strip(rows[0][1])], rows[1..])
  }

  /** The price table of one fund, or None when the loop raises. */
  function PriceTable(rows: seq<Row>): Option<map<string, string>> {
    PricesFrom(map[], rows)
  }

  /** The loop succeeds exactly on well-shaped rows. */
  lemma {:induction false} PricesFromSome(prices: map<string, string>, rows: seq<Row>)
    ensures PricesFrom(prices, rows).Some? <==> WellShaped(rows)
    decreases |rows|
  {
    if rows != [] && |rows[0]| >= 2 {
      PricesFromSome(prices[Strip(rows[0][0]) := Strip(rows[0][1])], rows[1..]);
      WellShapedCons(rows);
    }
  }

  /** A list whose first row has two cells is well shaped iff its tail is. */
  lemma WellShapedCons(rows: seq<Row>)
    requires |rows| > 0 && |rows[0]| >= 2
    ensures WellShaped(rows) <==> WellShaped(rows[1..])
  {
    if WellShaped(rows[1..]) {
      forall i | 0 <= i < |rows|
        ensures |rows[i]| >= 2
      {
        if i > 0 {
          assert rows[i] == rows[1..][i - 1];
        }
      }
    }
  }

  /** A date is listed in the rows iff it is the first row's or is listed in the rest. */
  lemma DateListedCons(rows: seq<Row>, date: string)
    requires |rows| > 0 && WellShaped(rows)
    ensures WellShaped(rows[1..])
    ensures DateListed(rows, date) <==> date == RowDate(rows[0]) || DateListed(rows[1..], date)
  {
    var rest := rows[1..];
    assert forall i :: 0 <= i < |rest| ==> rest[i] == rows[i + 1];
    if DateListed(rest, date) {
      var i :| 0 <= i < |rest| && RowDate(rest[i]) == date;
      assert rows[i + 1] == rest[i];
    }
    if DateListed(rows, date) && date != RowDate(rows[0]) {
      var i :| 0 <= i < |rows| && RowDate(rows[i]) == date;
      assert rest[i - 1] == rows[i];
    }
  }

  /** One step of the loop on a well-shaped list. */
  lemma PricesFromStep(prices: map<string, string>, rows: seq<Row>)
    requires |rows| > 0 && WellShaped(rows)
    ensures WellShaped(rows[1..])
    ensures PricesFrom(prices, rows) == PricesFrom(prices[RowDate(rows[0]) := Strip(rows[0][1])], rows[1..])
  {
    assert forall i :: 0 <= i < |rows[1..]| ==> rows[1..][i] == rows[i + 1];
  }

  /** On well-shaped rows the filed dates are the earlier ones and the listed ones. */
  lemma {:induction false} PricesFromKeys(prices: map<string, string>, rows: seq<Row>)
    requires WellShaped(rows)
    ensures PricesFrom(prices, rows).Some?
    ensures forall date :: date in PricesFrom(prices, rows).value <==> date in prices || DateListed(rows, date)
    decreases |rows|
  {
    PricesFromSome(prices, rows);
    if rows != [] {
      var next := prices[RowDate(rows[0]) := Strip(rows[0][1])];
      PricesFromStep(prices, rows);
      PricesFromKeys(next, rows[1..]);
      forall date
        ensures date in PricesFrom(prices, rows).value <==> date in prices || DateListed(rows, date)
      {
        DateListedCons(rows, date);
      }
    }
  }

  /** An unlisted date keeps the price it had. */
  lemma {:induction false} PricesFromKept(prices: map<string, string>, rows: seq<Row>, date: string)
    requires WellShaped(rows)
    requires date in prices && !DateListed(rows, date)
    ensures PricesFrom(prices, rows).Some?
    ensures date in PricesFrom(prices, rows).value && PricesFrom(prices, rows).value[date] == prices[date]
    decreases |rows|
  {
    PricesFromSome(prices, rows);
    if rows != [] {
      var next := prices[RowDate(rows[0]) := Strip(rows[0][1])];
      PricesFromStep(prices, rows);
      DateListedCons(rows, date);
      PricesFromKept(next, rows[1..], date);
    }
  }

  /** The date of row i holds row i's price when no later row has that date. */
  lemma {:induction false} PricesFromLast(prices: map<string, string>, rows: seq<Row>, i: int)
    requires WellShaped(rows) && 0 <= i < |rows| && LastForDate(rows, i)
    ensures PricesFrom(prices, rows).Some?
    ensures RowDate(rows[i]) in PricesFrom(prices, rows).value
    ensures PricesFrom(prices, rows).value[RowDate(rows[i])] == Strip(rows[i][1])
    decreases |rows|
  {
    PricesFromSome(prices, rows);
    var rest := rows[1..];
    var next := prices[RowDate(rows[0]) := Strip(rows[0][1])];
    PricesFromStep(prices, rows);
    if i == 0 {
      LastForDateHead(rows);
      PricesFromKept(next, rest, RowDate(rows[0]));
    } else {
      LastForDateTail(rows, i);
      PricesFromLast(next, rest, i - 1);
    }
  }

  /** The first row's date, when no later row repeats it, is not listed in the tail. */
  lemma LastForDateHead(rows: seq<Row>)
    requires WellShaped(rows) && |rows| > 0 && LastForDate(rows, 0)
    ensures WellShaped(rows[1..]) && !DateListed(rows[1..], RowDate(rows[0]))
  {
    var rest := rows[1..];
    assert forall j :: 0 <= j < |rest| ==> rest[j] == rows[j + 1];
  }

  /** A later row that is last for its date stays so in the tail. */
  lemma LastForDateTail(rows: seq<Row>, i: int)
    requires WellShaped(rows) && 0 < i < |rows| && LastForDate(rows, i)
    ensures WellShaped(rows[1..]) && rows[1..][i - 1] == rows[i] && LastForDate(rows[1..], i - 1)
  {
    var rest := rows[1..];
    assert forall j :: 0 <= j < |rest| ==> rest[j] == rows[j + 1];
  }

  /** The table of one fund: exactly the listed dates, each with the price of its last row. */
  lemma PriceTableSpec(rows: seq<Row>)
    ensures PriceTable(rows).Some? <==> WellShaped(rows)
    ensures WellShaped(rows) ==>
      (forall date :: date in PriceTable(rows).value <==> DateListed(rows, date)) &&
      (forall i :: 0 <= i < |rows| && LastForDate(rows, i) ==>
        PriceTable(rows).value[RowDate(rows[i])] == Strip(rows[i][1]))
  {
    PricesFromSome(map[], rows);
    if WellShaped(rows) {
      PricesFromKeys(map[], rows);
      forall i | 0 <= i < |rows| && LastForDate(rows, i)
        ensures PriceTable(rows).value[RowDate(rows[i])] == Strip(rows[i][1])
      {
        PricesFromLast(map[], rows, i);
      }
    }
  }

  /**
   * `parse_funding_page(id)`. `table` holds the rows of the price table, or
   * None when the page has no such table. A failed load returns False
   * before the data is touched, and the fund's table is filed only when
   * the whole loop succeeds.
   */
  function ParseFundingPage(d: ScrapeData, id: Cell, cfg: Config, jitter: Jitter, load: Load, table: Option<seq<Row>>): (f: Fetch)
    ensures f.Raised? <==> Pause(cfg, jitter) < 0
    ensures f.Done? ==> (f.ok <==> load != LoadFailed && table.Some? && WellShaped(table.value))
    ensures f.Done? && !f.ok ==> f.data == d
    ensures f.Done? && f.ok ==> (PriceTable(table.value).Some? &&
      f.data == d.(funds := d.funds[id := PriceTable(table.value).value]))
  {
    match GetPage(cfg, jitter, load)
    case SleepRaised => Raised
    case Returned(false) => Done(d, false)
    case Returned(true) =>
      if table.None? then Done(d, false)
      else
        PricesFromSome(map[], table.value);
        match PriceTable(table.value)
        case None => Done(d, false)
        case Some(prices) => Done(d.(funds := d.funds[id := prices]), true)
  }

  // ---------------------------------------------------------------- ranking page

  /**
   * What the ranking page offers once located: the text of the info bar's
   * second label, and for each list of the history table the stripped text
   * of its second item (None when the list has fewer than two items).
   */
  datatype RankingPage = RankingPage(infoLabel: Option<string>, lists: Option<seq<Option<string>>>)

  /** The label's lines, each stripped. */
  function LabelLines(text: string): (ls: seq<string>)
    ensures |ls| >= 1
  {
    var parts := Split(Strip(text), "\n");
    seq(|parts|, k requires 0 <= k < |parts| => Strip(parts[k]))
  }

  /** `date[date.find("（") + 1 : date.find("）")]`. */
  function DateField(line: string): string {
    PySlice(line, Find(line, "（") + 1, Find(line, "）"))
  }

  /** With both brackets present in order, the field is the text between them. */
  lemma DateFieldBetween(line: string)
    requires 0 <= Find(line, "（") < Find(line, "）")
    ensures DateField(line) == line[Find(line, "（") + 1..Find(line, "）")]
  {
  }

  /**
   * With neither bracket present both finds return -1, and the slice
   * `[0:-1]` drops only the last character.
   */
  lemma DateFieldNoBrackets(line: string)
    requires Find(line, "（") == -1 && Find(line, "）") == -1
    ensures |line| >= 1 ==> DateField(line) == line[..|line| - 1]
    ensures |line| == 0 ==> DateField(line) == ""
  {
  }

  /** The characters `strip(" )")` removes. */
  const CloseChars: set<char> := {' ', ')'}

  /** `l[1:-1]`: every element but the first and the last. */
  function Inner<T>(l: seq<T>): (r: seq<T>)
    ensures |r| == if |l| >= 2 then |l| - 2 else 0
    ensures forall k :: 0 <= k < |r| ==> r[k] == l[k + 1]
  {
    if |l| >= 2 then l[1..|l| - 1] else []
  }

  /**
   * Reference: value k < 3 of the ranking record, when the label yields it.
   * Value 0 is the date field of the first label line, values 1 and 2 the
   * two halves of the third line around " ( ".
   */
  function LabelEntry(info: string, k: nat): Option<string>
    requires k < 3
  {
    var ls := LabelLines(info);
    if k == 0 then Some(DateField(ls[0]))
    else if |ls| < 3 then None
    else
      var prices := Split(ls[2], " ( ");
      if k == 1 then Some(prices[0])
      else if |prices| < 2 then None
      else Some(StripChars(prices[1], CloseChars))
  }

  /** The label yields all three of its values. */
  predicate LabelComplete(info: string) {
    |LabelLines(info)| >= 3 && |Split(LabelLines(info)[2], " ( ")| >= 2
  }

  /**
   * Reference: value k of the ranking record, when the page yields it:
   * the label's three values, then the second item of inner list k - 3.
   */
  function RankingEntry(p: RankingPage, k: nat): Option<string> {
    if p.infoLabel.None? then None
    else if k < 3 then LabelEntry(p.infoLabel.value, k)
    else if !LabelComplete(p.infoLabel.value) || p.lists.None? then None
    else
      var inner := Inner(p.lists.value);
      if k - 3 < |inner| then inner[k - 3] else None
  }

  /** The page yields every value, and the record is complete. */
  predicate RankingComplete(p: RankingPage) {
    p.infoLabel.Some? && LabelComplete(p.infoLabel.value) &&
    p.lists.Some? && forall j :: 0 <= j < |Inner(p.lists.value)| ==> Inner(p.lists.value)[j].Some?
  }

  /** The label part of the extraction: date, price, change, as far as the label allows. */
  function LabelValues(info: string): Gathered<string> {
    var ls := LabelLines(info);
    var date := DateField(ls[0]);
    if |ls| < 3 then Gathered([date], false)
    else
      var prices := Split(ls[2], " ( ");
      if |prices| < 2 then Gathered([date, prices[0]], false)
      else Gathered([date, prices[0], StripChars(prices[1], CloseChars)], true)
  }

  /**
   * The label part holds the longest run of label values the label yields,
   * and is whole (three values) iff the label is complete.
   */
  lemma LabelValuesSpec(info: string)
    ensures var h := LabelValues(info);
      1 <= |h.values| <= 3 &&
      (forall k :: 0 <= k < |h.values| ==> LabelEntry(info, k) == Some(h.values[k])) &&
      (|h.values| < 3 ==> LabelEntry(info, |h.values|).None?) &&
      (h.ok <==> LabelComplete(info)) &&
      (h.ok <==> |h.values| == 3)
  {
  }

  /**
   * The extraction of `parse_ranking_page`, in the order the code appends:
   * an `AttributeError` or `IndexError` at any step leaves the values
   * appended before it.
   */
  function ExtractRanking(p: RankingPage): Gathered<string> {
    if p.infoLabel.None? then Gathered([], false)
    else
      var h := LabelValues(p.infoLabel.value);
      if !h.ok then h
      else if p.lists.None? then Gathered(h.values, false)
      else Gather(h.values, Inner(p.lists.value))
  }

  /** Each extracted value is the reference value at its position. */
  lemma ExtractRankingValues(p: RankingPage)
    ensures var e := ExtractRanking(p);
      forall k :: 0 <= k < |e.values| ==> RankingEntry(p, k) == Some(e.values[k])
  {
    var e := ExtractRanking(p);
    if p.infoLabel.Some? {
      var h := LabelValues(p.infoLabel.value);
      LabelValuesSpec(p.infoLabel.value);
      if h.ok && p.lists.Some? {
        var inner := Inner(p.lists.value);
        GatherSpec(h.values, inner);
        forall k | 0 <= k < |e.values|
          ensures RankingEntry(p, k) == Some(e.values[k])
        {
          if k < 3 {
            assert e.values[k] == e.values[..3][k];
          } else {
            assert inner[k - 3] == Some(e.values[3 + (k - 3)]);
          }
        }
      }
    }
  }

  /** The position after the last extracted value yields nothing. */
  lemma ExtractRankingStops(p: RankingPage)
    ensures RankingEntry(p, |ExtractRanking(p).values|).None?
  {
    if p.infoLabel.Some? {
      var info := p.infoLabel.value;
      var h := LabelValues(info);
      LabelValuesSpec(info);
      if h.ok && p.lists.Some? {
        ListsStop(p, h.values);
      }
    }
  }

  /** With the whole label read, the list loop stops at a list without a second item. */
  lemma ListsStop(p: RankingPage, head: seq<string>)
    requires p.infoLabel.Some? && p.lists.Some? && LabelComplete(p.infoLabel.value)
    requires |head| == 3
    requires ExtractRanking(p) == Gather(head, Inner(p.lists.value))
    ensures RankingEntry(p, |ExtractRanking(p).values|).None?
  {
    var inner := Inner(p.lists.value);
    GatherEnd(head, inner);
  }

  /** The extraction succeeds iff the page is complete, and then has 3 + (lists - 2) values. */
  lemma ExtractRankingOk(p: RankingPage)
    ensures var e := ExtractRanking(p);
      (e.ok <==> RankingComplete(p)) &&
      (e.ok ==> |e.values| == 3 + |Inner(p.lists.value)|)
  {
    if p.infoLabel.Some? {
      var info := p.infoLabel.value;
      LabelValuesSpec(info);
      if LabelValues(info).ok && p.lists.Some? {
        GatherAll(LabelValues(info).values, Inner(p.lists.value));
      }
    }
  }

  /**
   * The record holds exactly the longest run of values the page yields:
   * each value is the reference value at its position, the next position
   * yields nothing, and the extraction succeeds iff the page is complete,
   * in which case it has 3 + (lists - 2) values.
   */
  lemma ExtractRankingSpec(p: RankingPage)
    ensures var e := ExtractRanking(p);
      (forall k :: 0 <= k < |e.values| ==> RankingEntry(p, k) == Some(e.values[k])) &&
      RankingEntry(p, |e.values|).None? &&
      (e.ok <==> RankingComplete(p)) &&
      (e.ok ==> |e.values| == 3 + |Inner(p.lists.value)|)
  {
    ExtractRankingValues(p);
    ExtractRankingStops(p);
    ExtractRankingOk(p);
  }

  /**
   * `parse_ranking_page(id)`. `page` is None when BeautifulSoup cannot read
   * the page source. After a failed load or an unreadable page the data is
   * untouched; otherwise the fund's record is reset and refilled, and is
   * left as a partial prefix when extraction fails.
   */
  function ParseRankingPage(d: ScrapeData, id: Cell, cfg: Config, jitter: Jitter, load: Load, page: Option<RankingPage>): (f: Fetch)
    ensures f.Raised? <==> Pause(cfg, jitter) < 0
    ensures f.Done? && (load == LoadFailed || page.None?) ==> f.data == d && !f.ok
    ensures f.Done? && load != LoadFailed && page.Some? ==>
      f.data == d.(ranking := d.ranking[id := ExtractRanking(page.value).values]) &&
      (f.ok <==> RankingComplete(page.value))
  {
    match GetPage(cfg, jitter, load)
    case SleepRaised => Raised
    case Returned(false) => Done(d, false)
    case Returned(true) =>
      if page.None? then Done(d, false)
      else
        ExtractRankingSpec(page.value);
        var e := ExtractRanking(page.value);
        Done(d.(ranking := d.ranking[id := e.values]), e.ok)
  }

  // ---------------------------------------------------------------- top page

  /** A link in a table cell: its text and its `title` attribute. */
  datatype Anchor = Anchor(text: string, title: Option<string>)

  /** One row of the top table: for each cell, its first link when it has one. */
  type TopRow = seq<Option<Anchor>>

  /** The entry of one row: the stripped link text of cell 2 and the link title of cell 3. */
  function RowEntry(row: TopRow): Option<TopEntry> {
    if |row| < 4 || row[2].None? || row[3].None? then None
    else Some(TopEntry(Strip(row[2].value.text), row[3].value.title))
  }

  /** The entries of the rows, in row order. */
  function RowEntries(rows: seq<TopRow>): (es: seq<Option<TopEntry>>)
    ensures |es| == |rows|
    ensures forall k :: 0 <= k < |rows| ==> es[k] == RowEntry(rows[k])
    decreases |rows|
  {
    if rows == [] then [] else [RowEntry(rows[0])] + RowEntries(rows[1..])
  }

  /** The row loop of `parse_top`: append each row's entry until a row raises. */
  function AppendRows(top: seq<TopEntry>, rows: seq<TopRow>): Gathered<TopEntry> {
    Gather(top, RowEntries(rows))
  }

  /**
   * The loop keeps the list it was given and appends the entries of the
   * leading rows that yield one, in row order; it reads every row iff all
   * rows yield an entry.
   */
  lemma AppendRowsSpec(top: seq<TopEntry>, rows: seq<TopRow>)
    ensures var r := AppendRows(top, rows);
      |top| <= |r.values| <= |top| + |rows| && r.values[..|top|] == top &&
      (forall k :: 0 <= k < |r.values| - |top| ==> RowEntry(rows[k]) == Some(r.values[|top| + k])) &&
      (r.ok <==> |r.values| == |top| + |rows|) &&
      (!r.ok ==> RowEntry(rows[|r.values| - |top|]).None?)
  {
    AppendRowsItems(top, rows);
    AppendRowsStop(top, rows);
  }

  /** Appended entry k is the entry of row k. */
  lemma AppendRowsItems(top: seq<TopEntry>, rows: seq<TopRow>)
    ensures var r := AppendRows(top, rows);
      |top| <= |r.values| <= |top| + |rows| && r.values[..|top|] == top &&
      (forall k :: 0 <= k < |r.values| - |top| ==> RowEntry(rows[k]) == Some(r.values[|top| + k]))
  {
    var es := RowEntries(rows);
    GatherPrefix(top, es);
    var r := Gather(top, es);
    forall k | 0 <= k < |r.values| - |top|
      ensures RowEntry(rows[k]) == Some(r.values[|top| + k])
    {
      GatherItem(top, es, k);
    }
  }

  /** The loop reads every row iff all rows yield an entry; otherwise it stops at a row without one. */
  lemma AppendRowsStop(top: seq<TopEntry>, rows: seq<TopRow>)
    ensures var r := AppendRows(top, rows);
      |top| <= |r.values| &&
      (r.ok <==> |r.values| == |top| + |rows|) &&
      (!r.ok ==> |r.values| - |top| < |rows| && RowEntry(rows[|r.values| - |top|]).None?)
  {
    GatherPrefix(top, RowEntries(rows));
    GatherEnd(top, RowEntries(rows));
  }

  /**
   * `parse_top(url)`. `rows` holds the rows of the top table, or None when
   * the page has no such table (or cannot be read). The list is appended to,
   * never cleared, and rows read before a failure stay appended.
   */
  function ParseTop(d: ScrapeData, cfg: Config, jitter: Jitter, load: Load, rows: Option<seq<TopRow>>): (f: Fetch)
    ensures f.Raised? <==> Pause(cfg, jitter) < 0
    ensures f.Done? && (load == LoadFailed || rows.None?) ==> f.data == d && !f.ok
    ensures f.Done? && load != LoadFailed && rows.Some? ==>
      f.data == d.(top := AppendRows(d.top, rows.value).values) &&
      (f.ok <==> AppendRows(d.top, rows.value).ok)
  {
    match GetPage(cfg, jitter, load)
    case SleepRaised => Raised
    case Returned(false) => Done(d, false)
    case Returned(true) =>
      if rows.None? then Done(d, false)
      else
        var r := AppendRows(d.top, rows.value);
        Done(d.(top := r.values), r.ok)
  }
}
