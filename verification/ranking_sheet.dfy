/**
 * The rankings sheet ("基金排队") and the top-50 sheets: column D holds fund
 * ids, columns F to Q the twelve ranking values fetched for each id (a date,
 * a price, a daily change and nine period returns), column E a link to the
 * fund's page.
 */
module RankingSheet {
  import opened Wrappers
  import opened PyText
  import opened Sheets

  /** Column D, the fund id of each row. */
  const IdCol := 4

  /** Column E, the link to the fund's page. */
  const NameCol := 5

  /** Column F, the first of the twelve value columns; Q (17) is the last. */
  const LowCol := 6
  const HighCol := 17

  /** Number of value columns. */
  const ValueCount := 12

  // ---------------------------------------------------------------- read_rankings

  /** A column-D value that is kept: not None, and `str(value)` does not start with '='. */
  predicate Keepable(c: Cell) {
    c != Empty && !IsFormula(c)
  }

  /** One entry of `ranking_ids`: the row of a column-D cell and its value. */
  datatype RankingId = RankingId(row: int, id: Cell)

  /** The column-D cells of rows r..bound that are kept, top to bottom. */
  function RankingIdsFrom(s: Sheet, r: int, bound: int): (ids: seq<RankingId>)
    ensures forall k :: 0 <= k < |ids| ==>
      r <= ids[k].row <= bound && ids[k].id == Get(s, ids[k].row, IdCol) && Keepable(ids[k].id)
    ensures forall k, l :: 0 <= k < l < |ids| ==> ids[k].row < ids[l].row
    decreases bound - r
  {
    if r > bound then []
    else if Keepable(Get(s, r, IdCol)) then [RankingId(r, Get(s, r, IdCol))] + RankingIdsFrom(s, r + 1, bound)
    else RankingIdsFrom(s, r + 1, bound)
  }

  /** Every kept row of r..bound is listed. */
  lemma {:induction false} RankingIdsComplete(s: Sheet, r: int, bound: int, q: int)
    requires r <= q <= bound && Keepable(Get(s, q, IdCol))
    ensures exists k :: 0 <= k < |RankingIdsFrom(s, r, bound)| && RankingIdsFrom(s, r, bound)[k].row == q
    decreases bound - r
  {
    var ids := RankingIdsFrom(s, r, bound);
    if q == r {
      assert ids[0].row == q;
    } else {
      RankingIdsComplete(s, r + 1, bound, q);
      var rest := RankingIdsFrom(s, r + 1, bound);
      var k :| 0 <= k < |rest| && rest[k].row == q;
      if Keepable(Get(s, r, IdCol)) {
        assert ids[k + 1] == rest[k];
      } else {
        assert ids[k] == rest[k];
      }
    }
  }

  /**
   * `read_rankings`: the cells of column D from row 1 to `max_row`, top to
   * bottom, whose value is not None and does not print as a formula. An
   * empty string is kept.
   */
  function ReadRankings(s: Sheet): (ids: seq<RankingId>)
    ensures forall k :: 0 <= k < |ids| ==>
      1 <= ids[k].row <= MaxRow(s) && ids[k].id == Get(s, ids[k].row, IdCol) && Keepable(ids[k].id)
    ensures forall k, l :: 0 <= k < l < |ids| ==> ids[k].row < ids[l].row
  {
    RankingIdsFrom(s, 1, MaxRow(s))
  }

  /** Every row of the sheet whose column-D value is kept is listed. */
  lemma ReadRankingsComplete(s: Sheet, q: int)
    requires 1 <= q && Keepable(Get(s, q, IdCol))
    ensures exists k :: 0 <= k < |ReadRankings(s)| && ReadRankings(s)[k].row == q
  {
    if q > MaxRow(s) {
      BelowMaxRowIsEmpty(s, q, IdCol);
      assert false;
    } else {
      RankingIdsComplete(s, 1, MaxRow(s), q);
      var k :| 0 <= k < |RankingIdsFrom(s, 1, MaxRow(s))| && RankingIdsFrom(s, 1, MaxRow(s))[k].row == q;
      assert ReadRankings(s)[k].row == q;
    }
  }

  /** The id values of `ranking_ids`, as the scrape loop reads them. */
  function IdValues(ids: seq<RankingId>): (vs: seq<Cell>)
    ensures |vs| == |ids| && forall k :: 0 <= k < |ids| ==> vs[k] == ids[k].id
  {
    seq(|ids|, k requires 0 <= k < |ids| => ids[k].id)
  }

  // ---------------------------------------------------------------- value rule

  /** `ranking_data`: the fetched values of each fund, by fund id. */
  type RankingData = map<Cell, seq<string>>

  /** What happens to one value cell: a value is written, the cell is skipped, or the call aborts. */
  datatype CellOutcome = Put(v: Cell) | Skip | Abort

  /**
   * The rule `write_rankings` applies to value `idx` of fund `id`:
   * `ranking_data[str(id)][idx]` is looked up and a `KeyError` or
   * `IndexError` skips the cell. The fetch loop stores each fund's values
   * under `str` of the same cell value, so the data is keyed by the cell
   * itself. Value 0 is written as it is. A value ending in '%' is
   * written as the number before the '%' divided by 100; when that prefix
   * is not a number the `ValueError` escapes and the whole call ends. Any
   * other value is written as a number when `float` accepts it, else as text.
   */
  function RankingValue(data: RankingData, id: Cell, idx: nat): CellOutcome
  {
    if !(id in data && idx < |data[id]|) then Skip
    else
      var v := data[id][idx];
      if idx == 0 then Put(Str(v))
      else if EndsWith(v, "%") then
        match ParseFloat(v[..|v| - 1])
        case Some(x) => Put(Num(x / 100.0))
        case None => Abort
      else
        match ParseFloat(v)
        case Some(x) => Put(Num(x))
        case None => Put(Str(v))
  }

  /** A cell is skipped exactly when the fund or its value `idx` was not fetched. */
  lemma RankingValueSkips(data: RankingData, id: Cell, idx: nat)
    ensures RankingValue(data, id, idx) == Skip <==> !(id in data && idx < |data[id]|)
  {
  }

  /**
   * Only a percentage can end the call: value `idx` > 0 ends in '%' and
   * what precedes the '%' is not a number. Value 0, the date, is
   * written as fetched.
   */
  lemma RankingValueAborts(data: RankingData, id: Cell, idx: nat)
    ensures RankingValue(data, id, idx) == Abort ==>
      var v := data[id][idx]; idx > 0 && EndsWith(v, "%") && ParseFloat(v[..|v| - 1]).None?
    ensures id in data && idx < |data[id]| && idx == 0 ==> RankingValue(data, id, idx) == Put(Str(data[id][idx]))
  {
  }

  /**
   * A number written back into the sheet reads as the fetched text: a
   * percentage `x%` becomes `y` with `float(x) == 100 * y`, anything else
   * `y` with `float(v) == y`. Text is written only verbatim, and only when
   * it is value 0 or not a number.
   */
  lemma RankingValueReadsBack(data: RankingData, id: Cell, idx: nat)
    ensures RankingValue(data, id, idx).Put? && RankingValue(data, id, idx).v.Num? ==>
      var v := data[id][idx];
      var y := RankingValue(data, id, idx).v.x;
      idx > 0 && (if EndsWith(v, "%") then ParseFloat(v[..|v| - 1]) == Some(100.0 * y) else ParseFloat(v) == Some(y))
    ensures RankingValue(data, id, idx).Put? && RankingValue(data, id, idx).v.Str? ==>
      var v := data[id][idx];
      RankingValue(data, id, idx).v.s == v && (idx == 0 || (!EndsWith(v, "%") && ParseFloat(v).None?))
    ensures RankingValue(data, id, idx).Put? ==> !RankingValue(data, id, idx).v.Empty?
  {
  }

  /** A fetched percentage: kept as text as value 0, written as a fraction as any later value. */
  lemma RankingValuePercentExample()
    ensures var data: RankingData := map[Str("000001") := ["12.34%", "12.34%"]];
      RankingValue(data, Str("000001"), 0) == Put(Str("12.34%")) &&
      RankingValue(data, Str("000001"), 1) == Put(Num(0.1234)) &&
      RankingValue(data, Str("000001"), 2) == Skip &&
      RankingValue(data, Str("000002"), 1) == Skip
  {
    var v := "12.34%";
    assert EndsWith(v, "%") && v[..|v| - 1] == "12.34";
    ParseFloatDecimalExample();
  }

  /** A dash placeholder is written as text. */
  lemma RankingValueDashExample()
    ensures RankingValue(map[Str("000001") := ["x", "--"]], Str("000001"), 1) == Put(Str("--"))
  {
    assert !EndsWith("--", "%");
    ParseFloatDashExample();
  }

  /** A percentage whose number does not parse ends the call. */
  lemma RankingValueMalformedExample()
    ensures RankingValue(map[Str("000001") := ["x", "N/A%"]], Str("000001"), 1) == Abort
  {
    var v := "N/A%";
    assert EndsWith(v, "%") && v[..|v| - 1] == "N/A";
    assert Strip("N/A") == "N/A" by {
      StripCharsNoop("N/A", Whitespace);
    }
    ParseFloatRejects("N/A");
  }

  /**
   * The top-sheet branch converts with `float(value.strip())`; stripping
   * first makes no difference, so both branches follow one rule.
   */
  function TopRankingValue(data: RankingData, id: Cell, idx: nat): (o: CellOutcome) {
    if !(id in data && idx < |data[id]|) then Skip
    else
      var v := data[id][idx];
      if idx == 0 then Put(Str(v))
      else if EndsWith(v, "%") then
        match ParseFloat(v[..|v| - 1])
        case Some(x) => Put(Num(x / 100.0))
        case None => Abort
      else
        match ParseFloat(Strip(v))
        case Some(x) => Put(Num(x))
        case None => Put(Str(v))
  }

  lemma TopRankingValueSame(data: RankingData, id: Cell, idx: nat)
    ensures TopRankingValue(data, id, idx) == RankingValue(data, id, idx)
  {
    if id in data && idx < |data[id]| {
      ParseFloatOfStripped(data[id][idx]);
    }
  }

  /** The outcomes of the twelve values of one fund, in column order. */
  function Outcomes(data: RankingData, id: Cell): (os: seq<CellOutcome>)
    ensures |os| == ValueCount
    ensures forall i :: 0 <= i < ValueCount ==> os[i] == RankingValue(data, id, i)
  {
    seq(ValueCount, i requires 0 <= i < ValueCount => RankingValue(data, id, i))
  }

  /** The cell after the outcome: the value written, or what was there. */
  function After(before: Cell, o: CellOutcome): Cell {
    if o.Put? then o.v else before
  }

  /** Reference count: the outcomes from `idx` on that write a value. */
  function Puts(os: seq<CellOutcome>, idx: nat): nat
    decreases |os| - idx
  {
    if idx >= |os| then 0
    else (if os[idx].Put? then 1 else 0) + Puts(os, idx + 1)
  }

  /** No outcome aborts the call. */
  predicate RowSafe(os: seq<CellOutcome>) {
    forall i :: 0 <= i < |os| ==> os[i] != Abort
  }

  // ---------------------------------------------------------------- one row

  /** A call's progress: the sheet so far, the cells written, and whether it is still going. */
  datatype Progress = Progress(sheet: Sheet, count: nat, ok: bool)

  /**
   * The inner loop over the value columns of one row, from value `idx`,
   * given the outcome of each value. With `link` set (the in-place branch),
   * writing value 0 also puts the link to the fund's page in column E; the
   * source first writes the fund's name there as text and then replaces it
   * with the link, and only the link is kept.
   */
  function WriteRowFrom(s: Sheet, row: int, os: seq<CellOutcome>, link: Option<Cell>, idx: nat, count: nat): (p: Progress)
    decreases |os| - idx
  {
    if idx >= |os| then Progress(s, count, true)
    else
      match os[idx]
      case Skip => WriteRowFrom(s, row, os, link, idx + 1, count)
      case Abort => Progress(s, count, false)
      case Put(v) =>
        var t := Set(s, row, LowCol + idx, v);
        var t' := if idx == 0 && link.Some? then Set(t, row, NameCol, link.value) else t;
        WriteRowFrom(t', row, os, link, idx + 1, count + 1)
  }

  /** The cells the inner loop from value `idx` may write: the value columns from `idx` on, and column E from value 0. */
  predicate RowTouches(row: int, idx: nat, r: int, c: int) {
    r == row && ((idx == 0 && c == NameCol) || LowCol + idx <= c <= HighCol)
  }

  /** The sheet after writing value `idx` of the row. */
  function StepSheet(s: Sheet, row: int, v: Cell, link: Option<Cell>, idx: nat): Sheet {
    var t := Set(s, row, LowCol + idx, v);
    if idx == 0 && link.Some? then Set(t, row, NameCol, link.value) else t
  }

  lemma WriteRowStep(s: Sheet, row: int, os: seq<CellOutcome>, link: Option<Cell>, idx: nat, count: nat)
    requires idx < |os| && os[idx].Put?
    ensures WriteRowFrom(s, row, os, link, idx, count) ==
      WriteRowFrom(StepSheet(s, row, os[idx].v, link, idx), row, os, link, idx + 1, count + 1)
  {
  }

  /** The inner loop writes nothing outside the cells it may touch. */
  lemma {:induction false} WriteRowFrame(s: Sheet, row: int, os: seq<CellOutcome>, link: Option<Cell>, idx: nat, count: nat)
    requires |os| <= ValueCount
    ensures var p := WriteRowFrom(s, row, os, link, idx, count);
      forall r, c :: !RowTouches(row, idx, r, c) ==> Get(p.sheet, r, c) == Get(s, r, c)
    decreases |os| - idx
  {
    if idx < |os| {
      if os[idx].Skip? {
        WriteRowFrame(s, row, os, link, idx + 1, count);
      } else if os[idx].Put? {
        WriteRowStep(s, row, os, link, idx, count);
        WriteRowFrame(StepSheet(s, row, os[idx].v, link, idx), row, os, link, idx + 1, count + 1);
      }
    }
  }

  /** The inner loop completes iff none of the outcomes from `idx` on aborts. */
  lemma {:induction false} WriteRowOk(s: Sheet, row: int, os: seq<CellOutcome>, link: Option<Cell>, idx: nat, count: nat)
    requires idx <= |os|
    ensures WriteRowFrom(s, row, os, link, idx, count).ok <==> forall i :: idx <= i < |os| ==> os[i] != Abort
    decreases |os| - idx
  {
    if idx < |os| {
      if os[idx].Skip? {
        WriteRowOk(s, row, os, link, idx + 1, count);
      } else if os[idx].Put? {
        WriteRowStep(s, row, os, link, idx, count);
        WriteRowOk(StepSheet(s, row, os[idx].v, link, idx), row, os, link, idx + 1, count + 1);
      }
    }
  }

  /** When the inner loop completes, each value column holds the value written, or what it held. */
  lemma {:induction false} WriteRowValues(s: Sheet, row: int, os: seq<CellOutcome>, link: Option<Cell>, idx: nat, count: nat)
    requires |os| <= ValueCount
    requires WriteRowFrom(s, row, os, link, idx, count).ok
    ensures var p := WriteRowFrom(s, row, os, link, idx, count);
      forall i :: idx <= i < |os| ==> Get(p.sheet, row, LowCol + i) == After(Get(s, row, LowCol + i), os[i])
    decreases |os| - idx
  {
    if idx < |os| {
      assert !RowTouches(row, idx + 1, row, LowCol + idx);
      if os[idx].Skip? {
        WriteRowValues(s, row, os, link, idx + 1, count);
        WriteRowFrame(s, row, os, link, idx + 1, count);
      } else if os[idx].Put? {
        var t := StepSheet(s, row, os[idx].v, link, idx);
        WriteRowStep(s, row, os, link, idx, count);
        WriteRowValues(t, row, os, link, idx + 1, count + 1);
        WriteRowFrame(t, row, os, link, idx + 1, count + 1);
      }
    }
  }

  /** When the inner loop completes from value 0, column E holds the link iff value 0 was written. */
  lemma WriteRowLink(s: Sheet, row: int, os: seq<CellOutcome>, link: Option<Cell>, count: nat)
    requires 0 < |os| <= ValueCount
    requires WriteRowFrom(s, row, os, link, 0, count).ok
    ensures var p := WriteRowFrom(s, row, os, link, 0, count);
      Get(p.sheet, row, NameCol) == if link.Some? && os[0].Put? then link.value else Get(s, row, NameCol)
  {
    assert !RowTouches(row, 1, row, NameCol);
    if os[0].Skip? {
      WriteRowFrame(s, row, os, link, 1, count);
    } else if os[0].Put? {
      WriteRowStep(s, row, os, link, 0, count);
      WriteRowFrame(StepSheet(s, row, os[0].v, link, 0), row, os, link, 1, count + 1);
    }
  }

  /** When the inner loop completes, the count grows by the number of values written. */
  lemma {:induction false} WriteRowCount(s: Sheet, row: int, os: seq<CellOutcome>, link: Option<Cell>, idx: nat, count: nat)
    requires WriteRowFrom(s, row, os, link, idx, count).ok
    ensures WriteRowFrom(s, row, os, link, idx, count).count == count + Puts(os, idx)
    decreases |os| - idx
  {
    if idx < |os| {
      if os[idx].Skip? {
        WriteRowCount(s, row, os, link, idx + 1, count);
      } else if os[idx].Put? {
        WriteRowStep(s, row, os, link, idx, count);
        WriteRowCount(StepSheet(s, row, os[idx].v, link, idx), row, os, link, idx + 1, count + 1);
      }
    }
  }

  /** Writing one row leaves column D, and every other row, as it was. */
  lemma RowKeepsIds(s: Sheet, r: int, os: seq<CellOutcome>, link: Option<Cell>, count: nat)
    requires |os| <= ValueCount
    ensures var p := WriteRowFrom(s, r, os, link, 0, count);
      (forall q :: Get(p.sheet, q, IdCol) == Get(s, q, IdCol)) &&
      (forall q, c :: q != r ==> Get(p.sheet, q, c) == Get(s, q, c))
  {
    WriteRowFrame(s, r, os, link, 0, count);
    var p := WriteRowFrom(s, r, os, link, 0, count);
    forall q ensures Get(p.sheet, q, IdCol) == Get(s, q, IdCol) {
      assert !RowTouches(r, 0, q, IdCol);
    }
    forall q, c | q != r ensures Get(p.sheet, q, c) == Get(s, q, c) {
      assert !RowTouches(r, 0, q, c);
    }
  }

  // ---------------------------------------------------------------- in-place branch

  /** The link `write_rankings` puts in column E: the fund's page, titled with its name. */
  function LinkFor(id: Cell, nameOf: Cell -> string): Cell {
    Formula(Hyperlink(id, nameOf(id)))
  }

  /**
   * The in-place branch of `write_rankings`, from row r to `bound`
   * (`max_row` when the loop starts): every row whose column-D value is
   * kept gets its values written, and an abort ends the loop.
   */
  function InPlaceFrom(s: Sheet, r: int, bound: int, data: RankingData, nameOf: Cell -> string, count: nat): (p: Progress)
    decreases bound - r
  {
    if r > bound then Progress(s, count, true)
    else
      var id := Get(s, r, IdCol);
      if !Keepable(id) then InPlaceFrom(s, r + 1, bound, data, nameOf, count)
      else
        var p := WriteRowFrom(s, r, Outcomes(data, id), Some(LinkFor(id, nameOf)), 0, count);
        if !p.ok then p else InPlaceFrom(p.sheet, r + 1, bound, data, nameOf, p.count)
  }

  /** The row q is one the in-place branch writes to. */
  predicate InPlaceRow(s: Sheet, q: int, r: int, bound: int) {
    r <= q <= bound && Keepable(Get(s, q, IdCol))
  }

  /** Reference count: the values written in rows r..bound. */
  function RowsPuts(s: Sheet, r: int, bound: int, data: RankingData): nat
    decreases bound - r
  {
    if r > bound then 0
    else (if Keepable(Get(s, r, IdCol)) then Puts(Outcomes(data, Get(s, r, IdCol)), 0) else 0) + RowsPuts(s, r + 1, bound, data)
  }

  /** The in-place branch changes only columns E..Q of the rows it writes to. */
  lemma {:induction false} InPlaceFrame(s: Sheet, r: int, bound: int, data: RankingData, nameOf: Cell -> string, count: nat)
    ensures var p := InPlaceFrom(s, r, bound, data, nameOf, count);
      forall q, c :: !(InPlaceRow(s, q, r, bound) && NameCol <= c <= HighCol) ==> Get(p.sheet, q, c) == Get(s, q, c)
    decreases bound - r
  {
    if r <= bound {
      var id := Get(s, r, IdCol);
      if !Keepable(id) {
        InPlaceFrame(s, r + 1, bound, data, nameOf, count);
      } else {
        var os := Outcomes(data, id);
        var p := WriteRowFrom(s, r, os, Some(LinkFor(id, nameOf)), 0, count);
        WriteRowFrame(s, r, os, Some(LinkFor(id, nameOf)), 0, count);
        RowKeepsIds(s, r, os, Some(LinkFor(id, nameOf)), count);
        if p.ok {
          InPlaceFrame(p.sheet, r + 1, bound, data, nameOf, p.count);
          var f := InPlaceFrom(p.sheet, r + 1, bound, data, nameOf, p.count);
          forall q, c | !(InPlaceRow(s, q, r, bound) && NameCol <= c <= HighCol)
            ensures Get(f.sheet, q, c) == Get(s, q, c)
          {
            assert !RowTouches(r, 0, q, c);
            assert !(InPlaceRow(p.sheet, q, r + 1, bound) && NameCol <= c <= HighCol);
          }
        } else {
          forall q, c | !(InPlaceRow(s, q, r, bound) && NameCol <= c <= HighCol)
            ensures Get(p.sheet, q, c) == Get(s, q, c)
          {
            assert !RowTouches(r, 0, q, c);
          }
        }
      }
    }
  }

  /** The in-place branch completes iff no row it writes to has a value that aborts. */
  lemma {:induction false} InPlaceOk(s: Sheet, r: int, bound: int, data: RankingData, nameOf: Cell -> string, count: nat)
    ensures InPlaceFrom(s, r, bound, data, nameOf, count).ok <==>
      forall q :: InPlaceRow(s, q, r, bound) ==> RowSafe(Outcomes(data, Get(s, q, IdCol)))
    decreases bound - r
  {
    if r <= bound {
      var id := Get(s, r, IdCol);
      if !Keepable(id) {
        InPlaceOk(s, r + 1, bound, data, nameOf, count);
      } else {
        var os := Outcomes(data, id);
        var p := WriteRowFrom(s, r, os, Some(LinkFor(id, nameOf)), 0, count);
        WriteRowOk(s, r, os, Some(LinkFor(id, nameOf)), 0, count);
        RowKeepsIds(s, r, os, Some(LinkFor(id, nameOf)), count);
        if p.ok {
          InPlaceOk(p.sheet, r + 1, bound, data, nameOf, p.count);
        } else {
          assert !RowSafe(os);
        }
      }
    }
  }

  /**
   * When the in-place branch completes, each row it wrote to holds the
   * values written in columns F..Q, and the link in column E iff value 0
   * was written.
   */
  lemma {:induction false} InPlaceValues(s: Sheet, r: int, bound: int, data: RankingData, nameOf: Cell -> string, count: nat)
    requires InPlaceFrom(s, r, bound, data, nameOf, count).ok
    ensures var p := InPlaceFrom(s, r, bound, data, nameOf, count);
      forall q, i :: InPlaceRow(s, q, r, bound) && 0 <= i < ValueCount ==>
        Get(p.sheet, q, LowCol + i) == After(Get(s, q, LowCol + i), RankingValue(data, Get(s, q, IdCol), i))
    ensures var p := InPlaceFrom(s, r, bound, data, nameOf, count);
      forall q :: InPlaceRow(s, q, r, bound) ==>
        Get(p.sheet, q, NameCol) ==
          if RankingValue(data, Get(s, q, IdCol), 0).Put? then LinkFor(Get(s, q, IdCol), nameOf) else Get(s, q, NameCol)
    decreases bound - r
  {
    if r <= bound {
      var id := Get(s, r, IdCol);
      if !Keepable(id) {
        InPlaceValues(s, r + 1, bound, data, nameOf, count);
      } else {
        var os := Outcomes(data, id);
        var p := WriteRowFrom(s, r, os, Some(LinkFor(id, nameOf)), 0, count);
        WriteRowValues(s, r, os, Some(LinkFor(id, nameOf)), 0, count);
        WriteRowLink(s, r, os, Some(LinkFor(id, nameOf)), count);
        RowKeepsIds(s, r, os, Some(LinkFor(id, nameOf)), count);
        InPlaceValues(p.sheet, r + 1, bound, data, nameOf, p.count);
        InPlaceFrame(p.sheet, r + 1, bound, data, nameOf, p.count);
        assert !InPlaceRow(p.sheet, r, r + 1, bound);
      }
    }
  }

  /** When the in-place branch completes, its count is the number of values written. */
  lemma {:induction false} InPlaceCount(s: Sheet, r: int, bound: int, data: RankingData, nameOf: Cell -> string, count: nat)
    requires InPlaceFrom(s, r, bound, data, nameOf, count).ok
    ensures InPlaceFrom(s, r, bound, data, nameOf, count).count == count + RowsPuts(s, r, bound, data)
    decreases bound - r
  {
    if r <= bound {
      var id := Get(s, r, IdCol);
      if !Keepable(id) {
        InPlaceCount(s, r + 1, bound, data, nameOf, count);
      } else {
        var os := Outcomes(data, id);
        var p := WriteRowFrom(s, r, os, Some(LinkFor(id, nameOf)), 0, count);
        WriteRowCount(s, r, os, Some(LinkFor(id, nameOf)), 0, count);
        RowKeepsIds(s, r, os, Some(LinkFor(id, nameOf)), count);
        InPlaceCount(p.sheet, r + 1, bound, data, nameOf, p.count);
        RowsPutsSame(s, p.sheet, r + 1, bound, data);
      }
    }
  }

  /** The reference count only reads column D. */
  lemma {:induction false} RowsPutsSame(s: Sheet, t: Sheet, r: int, bound: int, data: RankingData)
    requires forall q :: Get(t, q, IdCol) == Get(s, q, IdCol)
    ensures RowsPuts(t, r, bound, data) == RowsPuts(s, r, bound, data)
    decreases bound - r
  {
    if r <= bound {
      RowsPutsSame(s, t, r + 1, bound, data);
    }
  }

  /** `write_rankings` without an id list, on the rankings sheet. */
  function WriteInPlace(s: Sheet, data: RankingData, nameOf: Cell -> string): Progress {
    InPlaceFrom(s, 1, MaxRow(s), data, nameOf, 0)
  }
}
