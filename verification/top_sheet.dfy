/**
 * The top-50 sheets ("top50混合" and the like). Each update pushes the sheet
 * 52 rows down, keeping every earlier ranking under the new one, opens a
 * fresh block of fifty numbered rows under the title row, and fills it with
 * the funds of the current top list, in list order.
 */
module TopSheet {
  import opened Wrappers
  import opened Sheets
  import opened RankingSheet
  import opened WebScraper

  /** How far `copy_top_range` pushes the sheet down. */
  const RowDown := 52

  /** The fresh block: rows 2 to 51. */
  const FirstTopRow := 2
  const LastTopRow := 51

  /** The moved block spans columns A to AB. */
  const LastMovedCol := 28

  // ---------------------------------------------------------------- copy_top_range

  /** The cells cleared before the move: column A and columns R to AA of rows 2..51. */
  predicate Cleared(p: Pos) {
    FirstTopRow <= p.row <= LastTopRow && (p.col == 1 || 18 <= p.col <= 27)
  }

  /** Step 1: the cleared cells are set to the empty string. */
  function ClearTop(s: Sheet): Sheet {
    s + map p | p in ClearedCells() :: Str("")
  }

  /** The cleared cells as a set. */
  function ClearedCells(): (b: set<Pos>)
    ensures forall p {:trigger p in b} :: p in b <==> Cleared(p)
  {
    Range(FirstTopRow, LastTopRow, 1, 1).Cells() + Range(FirstTopRow, LastTopRow, 18, 27).Cells()
  }

  /** Step 1 at one position: a cleared cell holds the empty string, any other is kept. */
  lemma ClearTopAt(s: Sheet, r: int, c: int)
    ensures Pos(r, c) in ClearTop(s) <==> Pos(r, c) in s || Cleared(Pos(r, c))
    ensures Get(ClearTop(s), r, c) == if Cleared(Pos(r, c)) then Str("") else Get(s, r, c)
  {
    assert Pos(r, c) in ClearedCells() <==> Cleared(Pos(r, c));
  }

  /** The block `A2:AB{max_row + 1}` that step 2 moves. */
  function MovedBlock(s: Sheet): Range {
    Range(FirstTopRow, MaxRow(s) + 1, 1, LastMovedCol)
  }

  /** Step 2: `move_range("A2:AB{max_row + 1}", rows=52, translate=True)`. */
  function ShiftDown(s: Sheet): Sheet {
    MoveRange(s, MovedBlock(s), RowDown, 0)
  }

  /** The row-53 cells that step 3 writes: columns 1 to `max_column - 4`. */
  predicate InTitle(s: Sheet, r: int, c: int) {
    r == RowDown + 1 && 1 <= c <= MaxCol(s) - 4
  }

  /** Step 3: row 53 gets the title row's values in columns 1 to `max_column - 4`. */
  function CopyTitle(s: Sheet): Sheet {
    var title := Range(RowDown + 1, RowDown + 1, 1, MaxCol(s) - 4);
    s + map p | p in title.Cells() :: Get(s, 1, p.col)
  }

  /** Step 3 at one position. */
  lemma CopyTitleAt(s: Sheet, r: int, c: int)
    ensures Pos(r, c) in CopyTitle(s) <==> Pos(r, c) in s || InTitle(s, r, c)
    ensures Get(CopyTitle(s), r, c) == if InTitle(s, r, c) then Get(s, 1, c) else Get(s, r, c)
  {
    var title := Range(RowDown + 1, RowDown + 1, 1, MaxCol(s) - 4);
    assert Pos(r, c) in title.Cells() <==> InTitle(s, r, c);
  }

  /** The cells step 4 writes or creates: columns A..G and R..AB of rows 2..51. */
  predicate InHead(p: Pos) {
    FirstTopRow <= p.row <= LastTopRow && (1 <= p.col <= 7 || 18 <= p.col <= LastMovedCol)
  }

  /** The cells step 4 writes or creates, as a set. */
  function HeadCells(): (b: set<Pos>)
    ensures forall p {:trigger p in b} :: p in b <==> InHead(p)
  {
    Range(FirstTopRow, LastTopRow, 1, 7).Cells() + Range(FirstTopRow, LastTopRow, 18, LastMovedCol).Cells()
  }

  /**
   * What step 4 leaves in a cell of the fresh block: the lookup formulas in
   * columns A, B and R..AB, the rank (1 to 50) in column C, and columns D..G,
   * which only get styles, as they were.
   */
  function HeadCell(s: Sheet, p: Pos): Cell {
    if p.col == 1 || p.col == 2 || 18 <= p.col <= LastMovedCol then Formula(TopLookup(p.col, p.row))
    else if p.col == 3 then Num((p.row - 1) as real)
    else Get(s, p.row, p.col)
  }

  /** Step 4: the fresh block is numbered and gets its formulas. */
  function WriteHead(s: Sheet): Sheet {
    var keys := s.Keys + HeadCells();
    map p | p in keys :: if InHead(p) then HeadCell(s, p) else s[p]
  }

  /** Step 4 at one position. */
  lemma HeadAt(s: Sheet, r: int, c: int)
    ensures Pos(r, c) in WriteHead(s) <==> Pos(r, c) in s || InHead(Pos(r, c))
    ensures Get(WriteHead(s), r, c) == if InHead(Pos(r, c)) then HeadCell(s, Pos(r, c)) else Get(s, r, c)
  {
    assert Pos(r, c) in HeadCells() <==> InHead(Pos(r, c));
    if Pos(r, c) in WriteHead(s) {
      HeadValue(s, Pos(r, c));
    }
  }

  lemma HeadValue(s: Sheet, p: Pos)
    requires p in WriteHead(s)
    ensures WriteHead(s)[p] == if InHead(p) then HeadCell(s, p) else s[p]
  {
  }

  /** `copy_top_range`. */
  function CopyTopRange(s: Sheet): Sheet {
    WriteHead(CopyTitle(ShiftDown(ClearTop(s))))
  }

  /** Clearing fills rows 2..51, so the sheet then reaches at least row 51. */
  lemma ClearTopRows(s: Sheet)
    ensures MaxRow(ClearTop(s)) == if MaxRow(s) > LastTopRow then MaxRow(s) else LastTopRow
  {
    var t := ClearTop(s);
    var m := if MaxRow(s) > LastTopRow then MaxRow(s) else LastTopRow;
    forall p | p in t
      ensures p.row <= m
    {
      ClearTopAt(s, p.row, p.col);
    }
    if MaxRow(s) > LastTopRow {
      var p :| p in s && p.row == MaxRow(s);
      ClearTopAt(s, p.row, p.col);
      assert p in t;
    } else {
      ClearTopAt(s, LastTopRow, 1);
      assert Pos(LastTopRow, 1) in t;
    }
    MaxRowIs(t, m);
  }

  /**
   * After the move every cell of columns A..AB from row 54 on holds the
   * translated value of the cell 52 rows above it, and the rows between the
   * title and the moved block are empty in those columns.
   */
  lemma ShiftDownAt(s: Sheet, r: int, c: int)
    requires 1 <= c <= LastMovedCol
    ensures var t := ShiftDown(s);
      (r >= RowDown + FirstTopRow ==> Get(t, r, c) == Translate(Get(s, r - RowDown, c), RowDown, 0)) &&
      (FirstTopRow <= r < RowDown + FirstTopRow ==> Get(t, r, c) == Empty)
  {
    var g := MovedBlock(s);
    var t := ShiftDown(s);
    var p := Pos(r, c);
    MoveRangeAt(s, g, RowDown, 0, p);
    if r >= RowDown + FirstTopRow {
      if r <= MaxRow(s) + 1 + RowDown {
        assert g.Shift(RowDown, 0).Contains(p);
        assert p.row - RowDown == r - RowDown && p.col - 0 == c;
      } else {
        assert !g.Contains(p) && !g.Shift(RowDown, 0).Contains(p);
        assert p !in s;
        BelowMaxRowIsEmpty(s, r - RowDown, c);
      }
    } else if FirstTopRow <= r {
      if r <= MaxRow(s) + 1 {
        assert g.Contains(p) && !g.Shift(RowDown, 0).Contains(p);
      } else {
        assert !g.Contains(p) && !g.Shift(RowDown, 0).Contains(p);
        assert p !in s;
      }
    }
  }

  /** The move keeps row 1 and every column right of AB. */
  lemma ShiftDownKeeps(s: Sheet, r: int, c: int)
    requires r < FirstTopRow || c < 1 || c > LastMovedCol
    ensures Get(ShiftDown(s), r, c) == Get(s, r, c)
  {
    var g := MovedBlock(s);
    MoveRangeAt(s, g, RowDown, 0, Pos(r, c));
    assert !g.Contains(Pos(r, c)) && !g.Shift(RowDown, 0).Contains(Pos(r, c));
  }

  /** Every cell the move produces is either in the destination block or a kept cell. */
  lemma ShiftDownCells(s: Sheet, p: Pos)
    requires p in ShiftDown(s)
    ensures MovedBlock(s).Shift(RowDown, 0).Contains(p) || (p in s && !MovedBlock(s).Contains(p))
  {
    MoveRangeAt(s, MovedBlock(s), RowDown, 0, p);
  }

  function Max(a: int, b: int): int {
    if a > b then a else b
  }

  /** The width of the sheet after the move: column AB is always filled. */
  lemma ShiftedWidth(s: Sheet)
    ensures MaxCol(ShiftDown(ClearTop(s))) == Max(MaxCol(s), LastMovedCol)
  {
    var cl := ClearTop(s);
    var mv := ShiftDown(cl);
    var g := MovedBlock(cl);
    var m := Max(MaxCol(s), LastMovedCol);
    forall p | p in mv
      ensures p.col <= m
    {
      ShiftDownCells(cl, p);
      ClearTopAt(s, p.row, p.col);
    }
    if MaxCol(s) > LastMovedCol {
      var p :| p in s && p.col == MaxCol(s);
      ClearTopAt(s, p.row, p.col);
      assert p in cl && !g.Contains(p) && !g.Shift(RowDown, 0).Contains(p);
      MoveRangeAt(cl, g, RowDown, 0, p);
      assert p in mv;
    } else {
      assert g.Shift(RowDown, 0).Contains(Pos(RowDown + FirstTopRow, LastMovedCol));
      MoveRangeAt(cl, g, RowDown, 0, Pos(RowDown + FirstTopRow, LastMovedCol));
    }
    MaxColIs(mv, m);
  }

  /** The number of title cells copied to row 53: `max_column - 4` after the move. */
  function TitleWidth(s: Sheet): int {
    Max(MaxCol(s), LastMovedCol) - 4
  }

  /**
   * What `copy_top_range` leaves in each cell, described against the sheet
   * it started from.
   */
  function CopiedCell(s: Sheet, r: int, c: int): Cell {
    if r == RowDown + 1 && 1 <= c <= TitleWidth(s) then Get(s, 1, c)
    else if r < FirstTopRow || c < 1 || c > LastMovedCol then Get(s, r, c)
    else if r <= LastTopRow then
      if c == 1 || c == 2 || 18 <= c then Formula(TopLookup(c, r))
      else if c == 3 then Num((r - 1) as real)
      else Empty
    else if r < RowDown + FirstTopRow then Empty
    else Translate(if Cleared(Pos(r - RowDown, c)) then Str("") else Get(s, r - RowDown, c), RowDown, 0)
  }

  /** The sheet after steps 1 and 2, and after step 3. */
  function Moved(s: Sheet): Sheet {
    ShiftDown(ClearTop(s))
  }

  function Titled(s: Sheet): Sheet {
    CopyTitle(Moved(s))
  }

  lemma TitledAt(s: Sheet, r: int, c: int)
    ensures Get(Titled(s), r, c) ==
      if r == RowDown + 1 && 1 <= c <= TitleWidth(s) then Get(s, 1, c) else Get(Moved(s), r, c)
  {
    ShiftedWidth(s);
    CopyTitleAt(Moved(s), r, c);
    if r == RowDown + 1 && 1 <= c <= TitleWidth(s) {
      ShiftDownKeeps(ClearTop(s), 1, c);
      ClearTopAt(s, 1, c);
    }
  }

  lemma MovedAt(s: Sheet, r: int, c: int)
    ensures Get(Moved(s), r, c) ==
      if r < FirstTopRow || c < 1 || c > LastMovedCol then Get(s, r, c)
      else if r < RowDown + FirstTopRow then Empty
      else Translate(if Cleared(Pos(r - RowDown, c)) then Str("") else Get(s, r - RowDown, c), RowDown, 0)
  {
    var cl := ClearTop(s);
    ClearTopAt(s, r, c);
    ClearTopAt(s, r - RowDown, c);
    if r < FirstTopRow || c < 1 || c > LastMovedCol {
      ShiftDownKeeps(cl, r, c);
    } else {
      ShiftDownAt(cl, r, c);
    }
    MovedCombine(s, cl, Moved(s), r, c);
  }

  /** Steps 1 and 2 at one cell, put together. */
  lemma MovedCombine(s: Sheet, cl: Sheet, mv: Sheet, r: int, c: int)
    requires Get(cl, r, c) == if Cleared(Pos(r, c)) then Str("") else Get(s, r, c)
    requires Get(cl, r - RowDown, c) == if Cleared(Pos(r - RowDown, c)) then Str("") else Get(s, r - RowDown, c)
    requires r < FirstTopRow || c < 1 || c > LastMovedCol ==> Get(mv, r, c) == Get(cl, r, c)
    requires 1 <= c <= LastMovedCol ==>
      (r >= RowDown + FirstTopRow ==> Get(mv, r, c) == Translate(Get(cl, r - RowDown, c), RowDown, 0)) &&
      (FirstTopRow <= r < RowDown + FirstTopRow ==> Get(mv, r, c) == Empty)
    ensures Get(mv, r, c) ==
      if r < FirstTopRow || c < 1 || c > LastMovedCol then Get(s, r, c)
      else if r < RowDown + FirstTopRow then Empty
      else Translate(if Cleared(Pos(r - RowDown, c)) then Str("") else Get(s, r - RowDown, c), RowDown, 0)
  {
  }

  /** `copy_top_range`, cell by cell. */
  lemma CopyTopAt(s: Sheet, r: int, c: int)
    ensures Get(CopyTopRange(s), r, c) == CopiedCell(s, r, c)
  {
    var tt := Titled(s);
    assert CopyTopRange(s) == WriteHead(tt);
    HeadAt(tt, r, c);
    TitledAt(s, r, c);
    MovedAt(s, r, c);
    CombineSteps(s, Moved(s), tt, CopyTopRange(s), r, c);
  }

  /** The four steps at one cell, put together. */
  lemma CombineSteps(s: Sheet, mv: Sheet, tt: Sheet, t: Sheet, r: int, c: int)
    requires Get(mv, r, c) ==
      if r < FirstTopRow || c < 1 || c > LastMovedCol then Get(s, r, c)
      else if r < RowDown + FirstTopRow then Empty
      else Translate(if Cleared(Pos(r - RowDown, c)) then Str("") else Get(s, r - RowDown, c), RowDown, 0)
    requires Get(tt, r, c) == if r == RowDown + 1 && 1 <= c <= TitleWidth(s) then Get(s, 1, c) else Get(mv, r, c)
    requires Get(t, r, c) == if InHead(Pos(r, c)) then HeadCell(tt, Pos(r, c)) else Get(tt, r, c)
    ensures Get(t, r, c) == CopiedCell(s, r, c)
  {
  }

  /** The title row stays where it is. */
  lemma CopyTopKeepsTitle(s: Sheet, c: int)
    ensures Get(CopyTopRange(s), 1, c) == Get(s, 1, c)
  {
    CopyTopAt(s, 1, c);
  }

  /**
   * The previous content of columns A..AB is pushed 52 rows down, formulas
   * translated; the cleared cells arrive as empty strings.
   */
  lemma CopyTopPushesDown(s: Sheet, r: int, c: int)
    requires r >= FirstTopRow && 1 <= c <= LastMovedCol
    ensures Get(CopyTopRange(s), r + RowDown, c) ==
      if Cleared(Pos(r, c)) then Str("") else Translate(Get(s, r, c), RowDown, 0)
  {
    CopyTopAt(s, r + RowDown, c);
    CopiedCellBelow(s, r, c);
  }

  /** Below the fresh block and the title copy, a cell of A..AB is the moved one. */
  lemma CopiedCellBelow(s: Sheet, r: int, c: int)
    requires r >= FirstTopRow && 1 <= c <= LastMovedCol
    ensures CopiedCell(s, r + RowDown, c) ==
      Translate(if Cleared(Pos(r, c)) then Str("") else Get(s, r, c), RowDown, 0)
  {
    assert r + RowDown - RowDown == r;
  }

  /**
   * Rows 2..51 become the fresh block: rank r - 1 in column C, the lookup
   * formulas in columns A, B and R..AB, and columns D..Q empty, ready for
   * the new list.
   */
  lemma CopyTopFreshBlock(s: Sheet, r: int, c: int)
    requires FirstTopRow <= r <= LastTopRow && 1 <= c <= LastMovedCol
    ensures Get(CopyTopRange(s), r, c) ==
      if c == 3 then Num((r - 1) as real)
      else if 4 <= c <= 17 then Empty
      else Formula(TopLookup(c, r))
  {
    CopyTopAt(s, r, c);
  }

  /** Columns right of AB are kept, except for the title cells copied into row 53. */
  lemma CopyTopKeepsRight(s: Sheet, r: int, c: int)
    requires c > LastMovedCol && !(r == RowDown + 1 && c <= TitleWidth(s))
    ensures Get(CopyTopRange(s), r, c) == Get(s, r, c)
  {
    CopyTopAt(s, r, c);
  }

  /** The sheet grows by 53 rows over the larger of its old length and the fresh block. */
  lemma CopyTopRows(s: Sheet)
    ensures MaxRow(CopyTopRange(s)) == Max(MaxRow(s), LastTopRow) + RowDown + 1
  {
    var cl := ClearTop(s);
    var mv := ShiftDown(cl);
    var tt := CopyTitle(mv);
    var t := WriteHead(tt);
    ClearTopRows(s);
    var m := MaxRow(cl) + RowDown + 1;
    assert m == Max(MaxRow(s), LastTopRow) + RowDown + 1;
    var g := MovedBlock(cl);
    forall p | p in t
      ensures p.row <= m
    {
      HeadAt(tt, p.row, p.col);
      CopyTitleAt(mv, p.row, p.col);
      if p in mv {
        ShiftDownCells(cl, p);
      }
    }
    assert g.Shift(RowDown, 0).Contains(Pos(m, 1));
    MoveRangeAt(cl, g, RowDown, 0, Pos(m, 1));
    CopyTitleAt(mv, m, 1);
    HeadAt(tt, m, 1);
    assert Pos(m, 1) in t;
    MaxRowIs(t, m);
  }

  /** Running it twice is not the same as running it once: each run adds 53 rows. */
  lemma CopyTopNotIdempotent(s: Sheet)
    ensures CopyTopRange(CopyTopRange(s)) != CopyTopRange(s)
  {
    CopyTopRows(s);
    CopyTopRows(CopyTopRange(s));
  }

  /** Row 53 receives the title row's cells, up to `max_column - 4`. */
  lemma CopyTopTitleRow(s: Sheet, c: int)
    requires 1 <= c <= TitleWidth(s)
    ensures Get(CopyTopRange(s), RowDown + 1, c) == Get(s, 1, c)
  {
    CopyTopAt(s, RowDown + 1, c);
  }

  // ---------------------------------------------------------------- top-list fill

  /** The link written in column E for a top-list entry. */
  function EntryLink(e: TopEntry): Cell {
    Formula(Hyperlink(Str(e.id), NameText(e.name)))
  }

  /** The outcomes of one fund's values under the top branch's conversion. */
  function TopOutcomes(data: RankingData, id: Cell): (os: seq<CellOutcome>)
    ensures |os| == ValueCount
  {
    seq(ValueCount, i requires 0 <= i < ValueCount => TopRankingValue(data, id, i))
  }

  /** Both branches convert every value the same way. */
  lemma TopOutcomesSame(data: RankingData, id: Cell)
    ensures TopOutcomes(data, id) == Outcomes(data, id)
  {
    forall i | 0 <= i < ValueCount
      ensures TopOutcomes(data, id)[i] == Outcomes(data, id)[i]
    {
      TopRankingValueSame(data, id, i);
    }
  }

  /** The top branch's progress, with the entries not yet taken from the list. */
  datatype TopProgress = TopProgress(sheet: Sheet, count: nat, ok: bool, left: seq<TopEntry>)

  /**
   * The top branch of `write_rankings` from row r: a row whose column-D
   * value prints as a formula is passed over; any other row takes the next
   * entry of the list, gets its id in column D, its link in column E and
   * its values in columns F..Q. The loop ends when the list is empty, or
   * when a value aborts the call.
   */
  function TopFillFrom(s: Sheet, entries: seq<TopEntry>, r: int, data: RankingData, count: nat): (p: TopProgress)
    decreases |entries|, MaxRow(s) + 1 - r
  {
    if |entries| == 0 then TopProgress(s, count, true, [])
    else if IsFormula(Get(s, r, IdCol)) then
      assert Pos(r, IdCol) in s;
      TopFillFrom(s, entries, r + 1, data, count)
    else
      var e := entries[0];
      var t := Set(Set(s, r, IdCol, Str(e.id)), r, NameCol, EntryLink(e));
      var p := WriteRowFrom(t, r, TopOutcomes(data, Str(e.id)), None, 0, count);
      if !p.ok then TopProgress(p.sheet, p.count, false, entries[1..])
      else TopFillFrom(p.sheet, entries[1..], r + 1, data, p.count)
  }

  /** Reference: the first n rows from r whose column-D value is not a formula. */
  function TargetRows(s: Sheet, r: int, n: nat): seq<int>
    decreases n, MaxRow(s) + 1 - r
  {
    if n == 0 then []
    else if IsFormula(Get(s, r, IdCol)) then
      assert Pos(r, IdCol) in s;
      TargetRows(s, r + 1, n)
    else [r] + TargetRows(s, r + 1, n - 1)
  }

  /**
   * `rows` are n rows from r on, top to bottom, none holding a formula in
   * column D, and every row passed over up to the last of them holds one.
   */
  predicate IsTargetRows(s: Sheet, r: int, n: nat, rows: seq<int>) {
    |rows| == n &&
    (forall k :: 0 <= k < n ==> r <= rows[k] && !IsFormula(Get(s, rows[k], IdCol))) &&
    (forall k, l :: 0 <= k < l < n ==> rows[k] < rows[l]) &&
    (forall q :: r <= q && n > 0 && q <= rows[n - 1] && !IsFormula(Get(s, q, IdCol)) ==> q in rows)
  }

  /** The target rows are exactly the rows `IsTargetRows` describes. */
  lemma {:induction false} TargetRowsSpec(s: Sheet, r: int, n: nat)
    ensures IsTargetRows(s, r, n, TargetRows(s, r, n))
    decreases n, MaxRow(s) + 1 - r
  {
    if n > 0 {
      if IsFormula(Get(s, r, IdCol)) {
        assert Pos(r, IdCol) in s;
        TargetRowsSpec(s, r + 1, n);
        TargetRowsSkip(s, r, n, TargetRows(s, r + 1, n));
      } else {
        TargetRowsSpec(s, r + 1, n - 1);
        TargetRowsCons(s, r, n, TargetRows(s, r + 1, n - 1));
        assert TargetRows(s, r, n) == [r] + TargetRows(s, r + 1, n - 1);
      }
    }
  }

  /** A row holding a formula in column D is passed over. */
  lemma TargetRowsSkip(s: Sheet, r: int, n: nat, rows: seq<int>)
    requires IsFormula(Get(s, r, IdCol)) && IsTargetRows(s, r + 1, n, rows)
    ensures IsTargetRows(s, r, n, rows)
  {
  }

  /** Any other row is the first target row. */
  lemma TargetRowsCons(s: Sheet, r: int, n: nat, rest: seq<int>)
    requires n > 0 && !IsFormula(Get(s, r, IdCol)) && IsTargetRows(s, r + 1, n - 1, rest)
    ensures IsTargetRows(s, r, n, [r] + rest)
  {
    var rows := [r] + rest;
    assert forall k :: 1 <= k < n ==> rows[k] == rest[k - 1];
  }

  /** The target rows only depend on column D from row r on. */
  lemma {:induction false} TargetRowsSame(s: Sheet, t: Sheet, r: int, n: nat)
    requires forall q :: q >= r ==> Get(t, q, IdCol) == Get(s, q, IdCol)
    ensures TargetRows(t, r, n) == TargetRows(s, r, n)
    decreases n, MaxRow(s) + 1 - r
  {
    if n > 0 {
      if IsFormula(Get(s, r, IdCol)) {
        assert Pos(r, IdCol) in s;
        TargetRowsSame(s, t, r + 1, n);
      } else {
        TargetRowsSame(s, t, r + 1, n - 1);
      }
    }
  }

  /** When none of n rows from r holds a formula in column D, they are the target rows. */
  lemma {:induction false} TargetRowsConsecutive(s: Sheet, r: int, n: nat)
    requires forall q :: r <= q < r + n ==> !IsFormula(Get(s, q, IdCol))
    ensures TargetRows(s, r, n) == seq(n, k => r + k)
    decreases n
  {
    if n > 0 {
      TargetRowsConsecutive(s, r + 1, n - 1);
      assert seq(n, k => r + k) == [r] + seq(n - 1, k => r + 1 + k);
    }
  }

  /** The sheet after a top-list row's id and link are written, before its values. */
  function EntryRow(s: Sheet, r: int, e: TopEntry): Sheet {
    Set(Set(s, r, IdCol, Str(e.id)), r, NameCol, EntryLink(e))
  }

  /** Filling one row changes only columns D..Q of that row, and leaves column D holding the id. */
  lemma EntryRowFrame(s: Sheet, r: int, e: TopEntry, data: RankingData, count: nat)
    ensures var p := WriteRowFrom(EntryRow(s, r, e), r, TopOutcomes(data, Str(e.id)), None, 0, count);
      (forall q, c :: !(q == r && IdCol <= c <= HighCol) ==> Get(p.sheet, q, c) == Get(s, q, c)) &&
      Get(p.sheet, r, IdCol) == Str(e.id)
  {
    var t := EntryRow(s, r, e);
    var os := TopOutcomes(data, Str(e.id));
    WriteRowFrame(t, r, os, None, 0, count);
    var p := WriteRowFrom(t, r, os, None, 0, count);
    forall q, c | !(q == r && IdCol <= c <= HighCol)
      ensures Get(p.sheet, q, c) == Get(s, q, c)
    {
      assert !RowTouches(r, 0, q, c);
    }
    assert !RowTouches(r, 0, r, IdCol);
  }

  /** No value of the entry's fund aborts the call. */
  predicate EntrySafe(data: RankingData, e: TopEntry) {
    RowSafe(Outcomes(data, Str(e.id)))
  }

  /** No value of any entry's fund aborts the call. */
  predicate AllSafe(data: RankingData, entries: seq<TopEntry>) {
    forall k :: 0 <= k < |entries| ==> EntrySafe(data, entries[k])
  }

  lemma AllSafeCons(data: RankingData, entries: seq<TopEntry>)
    requires |entries| > 0
    ensures AllSafe(data, entries) <==> EntrySafe(data, entries[0]) && AllSafe(data, entries[1..])
  {
    if EntrySafe(data, entries[0]) && AllSafe(data, entries[1..]) {
      forall k | 0 <= k < |entries|
        ensures EntrySafe(data, entries[k])
      {
        if k > 0 {
          assert entries[k] == entries[1..][k - 1];
        }
      }
    }
  }

  /**
   * The top branch completes iff no entry's values abort; then the list is
   * used up. Otherwise the entries not yet taken are a proper tail of it.
   */
  lemma {:induction false} TopFillOk(s: Sheet, entries: seq<TopEntry>, r: int, data: RankingData, count: nat)
    ensures var p := TopFillFrom(s, entries, r, data, count);
      (p.ok <==> AllSafe(data, entries)) &&
      (p.ok ==> p.left == []) &&
      (!p.ok ==> |p.left| < |entries| && p.left == entries[|entries| - |p.left|..])
    decreases |entries|, MaxRow(s) + 1 - r, 1
  {
    if |entries| > 0 {
      if IsFormula(Get(s, r, IdCol)) {
        assert Pos(r, IdCol) in s;
        TopFillOk(s, entries, r + 1, data, count);
        assert TopFillFrom(s, entries, r, data, count) == TopFillFrom(s, entries, r + 1, data, count);
      } else {
        TopFillOkEntry(s, entries, r, data, count);
      }
    }
  }

  /** `TopFillOk` for a row that takes the next entry. */
  lemma {:induction false} TopFillOkEntry(s: Sheet, entries: seq<TopEntry>, r: int, data: RankingData, count: nat)
    requires |entries| > 0 && !IsFormula(Get(s, r, IdCol))
    ensures var p := TopFillFrom(s, entries, r, data, count);
      (p.ok <==> AllSafe(data, entries)) &&
      (p.ok ==> p.left == []) &&
      (!p.ok ==> |p.left| < |entries| && p.left == entries[|entries| - |p.left|..])
    decreases |entries|, MaxRow(s) + 1 - r, 0
  {
    var e := entries[0];
    var p := EntryFill(s, r, e, data, count);
    EntryFillOk(s, r, e, data, count);
    TopFillEntryUnfold(s, entries, r, data, count);
    AllSafeCons(data, entries);
    if p.ok {
      TopFillOk(p.sheet, entries[1..], r + 1, data, p.count);
    }
    TopFillOkStep(entries, AllSafe(data, entries), EntrySafe(data, e), AllSafe(data, entries[1..]), p.ok,
      TopFillFrom(s, entries, r, data, count));
  }

  /** The row written for entry `e` at row r: its id, its link, then its values. */
  function EntryFill(s: Sheet, r: int, e: TopEntry, data: RankingData, count: nat): Progress {
    WriteRowFrom(EntryRow(s, r, e), r, TopOutcomes(data, Str(e.id)), None, 0, count)
  }

  /** A row taking an entry completes iff none of the entry's values aborts. */
  lemma EntryFillOk(s: Sheet, r: int, e: TopEntry, data: RankingData, count: nat)
    ensures EntryFill(s, r, e, data, count).ok <==> EntrySafe(data, e)
  {
    TopOutcomesSame(data, Str(e.id));
    WriteRowOk(EntryRow(s, r, e), r, TopOutcomes(data, Str(e.id)), None, 0, count);
  }

  /** One step of the top branch on a row that takes the next entry. */
  lemma TopFillEntryUnfold(s: Sheet, entries: seq<TopEntry>, r: int, data: RankingData, count: nat)
    requires |entries| > 0 && !IsFormula(Get(s, r, IdCol))
    ensures var p := EntryFill(s, r, entries[0], data, count);
      TopFillFrom(s, entries, r, data, count) ==
        if p.ok then TopFillFrom(p.sheet, entries[1..], r + 1, data, p.count)
        else TopProgress(p.sheet, p.count, false, entries[1..])
  {
  }

  /**
   * One entry of the top branch, with the safety of the whole list, of its
   * head and of its tail given as `all`, `head` and `tail`: the outcome of
   * the head's row decides, then the rest of the list.
   */
  lemma TopFillOkStep(entries: seq<TopEntry>, all: bool, head: bool, tail: bool, rowOk: bool, res: TopProgress)
    requires |entries| > 0
    requires rowOk <==> head
    requires all <==> head && tail
    requires !rowOk ==> !res.ok && res.left == entries[1..]
    requires rowOk ==> (res.ok <==> tail)
    requires rowOk && res.ok ==> res.left == []
    requires rowOk && !res.ok ==> |res.left| < |entries[1..]| && res.left == entries[1..][|entries[1..]| - |res.left|..]
    ensures res.ok <==> all
    ensures res.ok ==> res.left == []
    ensures !res.ok ==> |res.left| < |entries| && res.left == entries[|entries| - |res.left|..]
  {
    if !res.ok {
      assert entries[1..][|entries[1..]| - |res.left|..] == entries[|entries| - |res.left|..];
    }
  }

  /** The top branch changes only columns D..Q of its target rows. */
  lemma {:induction false} TopFillFrame(s: Sheet, entries: seq<TopEntry>, r: int, data: RankingData, count: nat)
    ensures var p := TopFillFrom(s, entries, r, data, count);
      forall q, c :: !(q in TargetRows(s, r, |entries|) && IdCol <= c <= HighCol) ==> Get(p.sheet, q, c) == Get(s, q, c)
    decreases |entries|, MaxRow(s) + 1 - r
  {
    if |entries| > 0 {
      if IsFormula(Get(s, r, IdCol)) {
        assert Pos(r, IdCol) in s;
        TopFillFrame(s, entries, r + 1, data, count);
      } else {
        var e := entries[0];
        var t := EntryRow(s, r, e);
        var os := TopOutcomes(data, Str(e.id));
        EntryRowFrame(s, r, e, data, count);
        var p := WriteRowFrom(t, r, os, None, 0, count);
        if p.ok {
          TopFillFrame(p.sheet, entries[1..], r + 1, data, p.count);
          TargetRowsSame(s, p.sheet, r + 1, |entries| - 1);
        }
      }
    }
  }

  /** Row q of `sheet` holds entry e's id, its link, and its values written over what the row held in `before`. */
  predicate RowFilled(sheet: Sheet, before: Sheet, q: int, e: TopEntry, data: RankingData) {
    Get(sheet, q, IdCol) == Str(e.id) &&
    Get(sheet, q, NameCol) == EntryLink(e) &&
    forall i :: 0 <= i < ValueCount ==>
      Get(sheet, q, LowCol + i) == After(Get(before, q, LowCol + i), RankingValue(data, Str(e.id), i))
  }

  lemma RowFilledTransfer(sheet: Sheet, sheet': Sheet, before: Sheet, before': Sheet, q: int, e: TopEntry, data: RankingData)
    requires RowFilled(sheet, before, q, e, data)
    requires forall c :: Get(sheet', q, c) == Get(sheet, q, c)
    requires forall c :: Get(before', q, c) == Get(before, q, c)
    ensures RowFilled(sheet', before', q, e, data)
  {
  }

  /** Filling one row from the list, when its values do not abort. */
  lemma EntryRowFilled(s: Sheet, r: int, e: TopEntry, data: RankingData, count: nat)
    requires WriteRowFrom(EntryRow(s, r, e), r, TopOutcomes(data, Str(e.id)), None, 0, count).ok
    ensures RowFilled(WriteRowFrom(EntryRow(s, r, e), r, TopOutcomes(data, Str(e.id)), None, 0, count).sheet, s, r, e, data)
  {
    var t := EntryRow(s, r, e);
    TopOutcomesSame(data, Str(e.id));
    var os := TopOutcomes(data, Str(e.id));
    EntryRowFrame(s, r, e, data, count);
    WriteRowValues(t, r, os, None, 0, count);
    WriteRowLink(t, r, os, None, count);
    forall c | c != IdCol && c != NameCol
      ensures Get(t, r, c) == Get(s, r, c)
    {
    }
  }

  /** The k-th target row holds the k-th entry. */
  predicate AllFilled(sheet: Sheet, before: Sheet, rows: seq<int>, entries: seq<TopEntry>, data: RankingData) {
    |rows| == |entries| &&
    forall k :: 0 <= k < |entries| ==> RowFilled(sheet, before, rows[k], entries[k], data)
  }

  /**
   * When the top branch completes, the k-th target row holds the k-th
   * entry's id, its link, and its values over what the row held.
   */
  lemma {:induction false} TopFillRows(s: Sheet, entries: seq<TopEntry>, r: int, data: RankingData, count: nat)
    requires TopFillFrom(s, entries, r, data, count).ok
    ensures AllFilled(TopFillFrom(s, entries, r, data, count).sheet, s, TargetRows(s, r, |entries|), entries, data)
    decreases |entries|, MaxRow(s) + 1 - r
  {
    if |entries| > 0 {
      if IsFormula(Get(s, r, IdCol)) {
        assert Pos(r, IdCol) in s;
        TopFillRows(s, entries, r + 1, data, count);
        assert TargetRows(s, r, |entries|) == TargetRows(s, r + 1, |entries|);
      } else {
        var e := entries[0];
        var p := WriteRowFrom(EntryRow(s, r, e), r, TopOutcomes(data, Str(e.id)), None, 0, count);
        assert TopFillFrom(s, entries, r, data, count) == TopFillFrom(p.sheet, entries[1..], r + 1, data, p.count);
        TopFillRows(p.sheet, entries[1..], r + 1, data, p.count);
        TopFillRowsStep(s, entries, r, data, count);
      }
    }
  }

  /** The step of `TopFillRows` for a row that takes the next entry. */
  lemma TopFillRowsStep(s: Sheet, entries: seq<TopEntry>, r: int, data: RankingData, count: nat)
    requires |entries| > 0 && !IsFormula(Get(s, r, IdCol))
    requires TopFillFrom(s, entries, r, data, count).ok
    requires var p := WriteRowFrom(EntryRow(s, r, entries[0]), r, TopOutcomes(data, Str(entries[0].id)), None, 0, count);
      AllFilled(TopFillFrom(p.sheet, entries[1..], r + 1, data, p.count).sheet, p.sheet,
        TargetRows(p.sheet, r + 1, |entries[1..]|), entries[1..], data)
    ensures AllFilled(TopFillFrom(s, entries, r, data, count).sheet, s, TargetRows(s, r, |entries|), entries, data)
  {
    var e := entries[0];
    var p := EntryFill(s, r, e, data, count);
    EntryFillOk(s, r, e, data, count);
    TopFillEntryUnfold(s, entries, r, data, count);
    EntryRowFrame(s, r, e, data, count);
    EntryRowFilled(s, r, e, data, count);
    var rest := entries[1..];
    var f := TopFillFrom(p.sheet, rest, r + 1, data, p.count);
    TopFillFrame(p.sheet, rest, r + 1, data, p.count);
    TargetRowsSame(s, p.sheet, r + 1, |rest|);
    TargetRowsSpec(s, r + 1, |rest|);
    var tail := TargetRows(s, r + 1, |rest|);
    assert TargetRows(s, r, |entries|) == [r] + tail;
    assert r !in tail;
    AllFilledCons(f.sheet, p.sheet, s, r, tail, entries, data);
  }

  /** A filled first row in front of filled rows below it, each over what it held before. */
  lemma AllFilledCons(fs: Sheet, ps: Sheet, s: Sheet, r: int, tail: seq<int>, entries: seq<TopEntry>, data: RankingData)
    requires |entries| > 0 && RowFilled(ps, s, r, entries[0], data)
    requires forall c :: Get(fs, r, c) == Get(ps, r, c)
    requires AllFilled(fs, ps, tail, entries[1..], data)
    requires forall k, c :: 0 <= k < |tail| ==> Get(ps, tail[k], c) == Get(s, tail[k], c)
    ensures AllFilled(fs, s, [r] + tail, entries, data)
  {
    var rows := [r] + tail;
    var rest := entries[1..];
    RowFilledTransfer(ps, fs, s, s, r, entries[0], data);
    forall k | 0 <= k < |entries|
      ensures RowFilled(fs, s, rows[k], entries[k], data)
    {
      if k > 0 {
        assert rows[k] == tail[k - 1] && entries[k] == rest[k - 1];
        RowFilledTransfer(fs, fs, ps, s, rows[k], entries[k], data);
      }
    }
  }

  /** Reference count: the values written for the entries of the list. */
  function EntriesPuts(data: RankingData, entries: seq<TopEntry>): nat {
    if |entries| == 0 then 0
    else Puts(Outcomes(data, Str(entries[0].id)), 0) + EntriesPuts(data, entries[1..])
  }

  /** When the top branch completes, its count is the number of values written. */
  lemma {:induction false} TopFillCount(s: Sheet, entries: seq<TopEntry>, r: int, data: RankingData, count: nat)
    requires TopFillFrom(s, entries, r, data, count).ok
    ensures TopFillFrom(s, entries, r, data, count).count == count + EntriesPuts(data, entries)
    decreases |entries|, MaxRow(s) + 1 - r
  {
    if |entries| > 0 {
      if IsFormula(Get(s, r, IdCol)) {
        assert Pos(r, IdCol) in s;
        TopFillCount(s, entries, r + 1, data, count);
      } else {
        var e := entries[0];
        var t := EntryRow(s, r, e);
        TopOutcomesSame(data, Str(e.id));
        var os := TopOutcomes(data, Str(e.id));
        var p := WriteRowFrom(t, r, os, None, 0, count);
        WriteRowCount(t, r, os, None, 0, count);
        TopFillCount(p.sheet, entries[1..], r + 1, data, p.count);
      }
    }
  }

  // ---------------------------------------------------------------- write_rankings

  /**
   * `write_rankings` with a non-empty id list: the sheet is pushed down
   * first, then filled from row 2; row 1, the title row, is never written.
   */
  function WriteTop(s: Sheet, entries: seq<TopEntry>, data: RankingData): TopProgress {
    TopFillFrom(CopyTopRange(s), entries, FirstTopRow, data, 0)
  }

  /** With at most fifty entries, the target rows are the fresh block's first rows, in list order. */
  lemma WriteTopTargets(s: Sheet, n: nat)
    requires n <= LastTopRow - FirstTopRow + 1
    ensures TargetRows(CopyTopRange(s), FirstTopRow, n) == seq(n, k => FirstTopRow + k)
  {
    forall q | FirstTopRow <= q < FirstTopRow + n
      ensures !IsFormula(Get(CopyTopRange(s), q, IdCol))
    {
      CopyTopFreshBlock(s, q, IdCol);
    }
    TargetRowsConsecutive(CopyTopRange(s), FirstTopRow, n);
  }

  /**
   * The top branch with at most fifty entries: on success entry k fills row
   * k + 2, over the empty columns F..Q of the fresh block.
   */
  lemma WriteTopFilled(s: Sheet, entries: seq<TopEntry>, data: RankingData)
    requires |entries| <= LastTopRow - FirstTopRow + 1
    requires WriteTop(s, entries, data).ok
    ensures forall k :: 0 <= k < |entries| ==>
      RowFilled(WriteTop(s, entries, data).sheet, CopyTopRange(s), FirstTopRow + k, entries[k], data)
  {
    var t := CopyTopRange(s);
    WriteTopTargets(s, |entries|);
    TopFillRows(t, entries, FirstTopRow, data, 0);
    FilledInOrder(WriteTop(s, entries, data).sheet, t, TargetRows(t, FirstTopRow, |entries|), entries, data);
  }

  /** Entries filled into consecutive rows from row 2: entry k sits in row k + 2. */
  lemma FilledInOrder(sheet: Sheet, before: Sheet, rows: seq<int>, entries: seq<TopEntry>, data: RankingData)
    requires AllFilled(sheet, before, rows, entries, data)
    requires rows == seq(|entries|, k => FirstTopRow + k)
    ensures forall k :: 0 <= k < |entries| ==> RowFilled(sheet, before, FirstTopRow + k, entries[k], data)
  {
    forall k | 0 <= k < |entries|
      ensures RowFilled(sheet, before, FirstTopRow + k, entries[k], data)
    {
      assert rows[k] == FirstTopRow + k;
    }
  }

  /**
   * Apart from columns D..Q of rows 2 to |entries| + 1, the sheet is what
   * `copy_top_range` made of it, so every earlier ranking survives below
   * row 53.
   */
  lemma WriteTopFrame(s: Sheet, entries: seq<TopEntry>, data: RankingData)
    requires |entries| <= LastTopRow - FirstTopRow + 1
    ensures forall q, c :: !(FirstTopRow <= q < FirstTopRow + |entries| && IdCol <= c <= HighCol) ==>
      Get(WriteTop(s, entries, data).sheet, q, c) == Get(CopyTopRange(s), q, c)
  {
    var t := CopyTopRange(s);
    var n := |entries|;
    WriteTopTargets(s, n);
    TopFillFrame(t, entries, FirstTopRow, data, 0);
    var rows := TargetRows(t, FirstTopRow, n);
    forall q | q in rows
      ensures FirstTopRow <= q < FirstTopRow + n
    {
    }
  }

  /** What `write_rankings` reports: success, the workbook, the cells written, and what is left of the id list. */
  datatype RankingsResult = RankingsResult(ok: bool, book: Workbook, count: nat, left: seq<TopEntry>)

  /**
   * `write_rankings`: the sheet is looked up before the `try`, so a missing
   * sheet raises (None here). An empty id list selects the in-place branch,
   * any other the top branch; either way the workbook keeps whatever was
   * written before an abort.
   */
  function WriteRankings(book: Workbook, sheet: string, data: RankingData, ids: seq<TopEntry>, nameOf: Cell -> string): (r: Option<RankingsResult>)
    ensures r.None? <==> sheet !in book
    ensures r.Some? ==> (r.value.book.Keys == book.Keys &&
      forall other :: other in book && other != sheet ==> r.value.book[other] == book[other])
  {
    if sheet !in book then None
    else if |ids| == 0 then
      var p := WriteInPlace(book[sheet], data, nameOf);
      Some(RankingsResult(p.ok, Replace(book, sheet, p.sheet), p.count, []))
    else
      var p := WriteTop(book[sheet], ids, data);
      Some(RankingsResult(p.ok, Replace(book, sheet, p.sheet), p.count, p.left))
  }

  /** The workbook with one existing sheet replaced. */
  function Replace(book: Workbook, sheet: string, s: Sheet): (b: Workbook)
    requires sheet in book
    ensures b.Keys == book.Keys && b[sheet] == s
    ensures forall other :: other in book && other != sheet ==> b[other] == book[other]
  {
    book[sheet := s]
  }

  /** The in-place branch, through the entry point: success iff no kept row's values abort. */
  lemma WriteRankingsInPlace(book: Workbook, sheet: string, data: RankingData, nameOf: Cell -> string)
    requires sheet in book
    ensures var r := WriteRankings(book, sheet, data, [], nameOf).value;
      var s := book[sheet];
      (r.ok <==> forall q :: InPlaceRow(s, q, 1, MaxRow(s)) ==> RowSafe(Outcomes(data, Get(s, q, IdCol)))) &&
      (r.ok ==> r.count == RowsPuts(s, 1, MaxRow(s), data)) &&
      (forall q, c :: !(InPlaceRow(s, q, 1, MaxRow(s)) && NameCol <= c <= HighCol) ==>
        Get(r.book[sheet], q, c) == Get(s, q, c))
  {
    var s := book[sheet];
    InPlaceOk(s, 1, MaxRow(s), data, nameOf, 0);
    InPlaceFrame(s, 1, MaxRow(s), data, nameOf, 0);
    if WriteInPlace(s, data, nameOf).ok {
      InPlaceCount(s, 1, MaxRow(s), data, nameOf, 0);
    }
  }

  /** The top branch, through the entry point: success leaves the list used up and counts every value written. */
  lemma WriteRankingsTop(book: Workbook, sheet: string, data: RankingData, ids: seq<TopEntry>, nameOf: Cell -> string)
    requires sheet in book && |ids| > 0
    ensures var r := WriteRankings(book, sheet, data, ids, nameOf).value;
      (r.ok <==> AllSafe(data, ids)) &&
      (r.ok ==> r.left == [] && r.count == EntriesPuts(data, ids)) &&
      (!r.ok ==> |r.left| < |ids|)
  {
    var t := CopyTopRange(book[sheet]);
    TopFillOk(t, ids, FirstTopRow, data, 0);
    if WriteTop(book[sheet], ids, data).ok {
      TopFillCount(t, ids, FirstTopRow, data, 0);
    }
  }
}

