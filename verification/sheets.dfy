/**
 * The spreadsheet as openpyxl presents it to the workbook manager: a finite
 * map from (row, column) to the value stored there. A position that holds no
 * cell reads as `None`, which is `Empty` here. `max_row` and `max_column` are
 * the largest row and column of any stored cell, and 1 for an empty sheet;
 * a cell stored with value `None` still counts, as it does in openpyxl.
 */
module Sheets {
  import opened Wrappers
  import opened PyText
  import opened Calendar

  datatype Pos = Pos(row: int, col: int)

  /**
   * A cell value. openpyxl keeps a formula as a string that starts with '=';
   * the formulas this code generates itself are kept symbolic in `Formula`.
   */
  datatype Cell =
    | Empty
    | Str(s: string)
    | Num(x: real)
    | Date(date: DateFields)
    | Formula(f: FormulaText)

  datatype FormulaText =
      /** `=HYPERLINK("https://fund.eastmoney.com/{id}.html", "{name}")` */
    | Hyperlink(id: Cell, name: string)
      /** the lookup formula the top-sheet shift writes at (row, col) */
    | TopLookup(col: int, row: int)
      /** `source` with its relative references moved by `rows` rows and `cols` columns */
    | Translated(source: Cell, rows: int, cols: int)

  type Sheet = map<Pos, Cell>

  /** A workbook maps sheet names to sheets. */
  type Workbook = map<string, Sheet>

  /** `str(value).startswith("=")`: the value is a formula. */
  predicate IsFormula(c: Cell) {
    c.Formula? || (c.Str? && StartsWith(c.s, "="))
  }

  /** `value is None or value == ""`. */
  predicate IsBlank(c: Cell) {
    c == Empty || c == Str("")
  }

  /**
   * A cell openpyxl stores with the formula data type: a string of two or
   * more characters that starts with '=' (a lone "=" is plain text).
   */
  predicate FormulaTyped(c: Cell) {
    c.Formula? || (c.Str? && |c.s| > 1 && c.s[0] == '=')
  }

  /**
   * What `move_range(..., translate=True)` does to the value of a moved
   * cell: a formula-typed cell goes through the formula translator and gets
   * its references shifted; any other value moves as it is.
   */
  function Translate(c: Cell, rows: int, cols: int): (t: Cell)
    ensures FormulaTyped(c) <==> t.Formula?
    ensures IsFormula(t) <==> IsFormula(c)
    ensures !FormulaTyped(c) ==> t == c
  {
    if FormulaTyped(c) then Formula(Translated(c, rows, cols)) else c
  }

  /**
   * A value `Translator(value, origin)` cannot take: its tokenizer indexes
   * the first character of any value that is not falsy, and a non-zero
   * number or a date has none, so the call raises TypeError.
   */
  predicate Untranslatable(c: Cell) {
    (c.Num? && c.x != 0.0) || c.Date?
  }

  /**
   * `Translator(value, origin).translate_formula(row_delta, col_delta)` on
   * a cell value, as an assignment copy uses it; `None` is the TypeError of
   * an untranslatable value. A value that starts with '=' is tokenized as a
   * formula and comes back with its references shifted, unless nothing
   * follows the '='; a falsy value (None, zero, "") yields no token and
   * comes back as ""; any other string is one literal token, returned as it is.
   */
  function TranslateValue(c: Cell, rows: int, cols: int): (r: Option<Cell>)
    ensures r.None? <==> Untranslatable(c)
    ensures r.Some? ==> r.value.Str? || r.value.Formula?
    ensures c.Empty? || c == Str("=") || (c.Num? && c.x == 0.0) ==> r == Some(Str(""))
    ensures c.Formula? || (c.Str? && c != Str("=")) ==> r == Some(Translate(c, rows, cols))
  {
    if Untranslatable(c) then None
    else if c == Str("=") || c == Str("") || c.Empty? || c.Num? then Some(Str(""))
    else if IsFormula(c) then Some(Formula(Translated(c, rows, cols)))
    else Some(c)
  }

  /**
   * The copy path agrees with the move path exactly on the strings and
   * formulas the move keeps or translates; it differs on None and zero,
   * which it turns into "", on the lone "=", and on numbers and dates,
   * where it raises.
   */
  lemma TranslateValueAgrees(c: Cell, rows: int, cols: int)
    ensures TranslateValue(c, rows, cols) == Some(Translate(c, rows, cols)) <==>
      c.Formula? || (c.Str? && c != Str("="))
  {
  }

  /** `ws.cell(row, col).value` */
  function Get(s: Sheet, row: int, col: int): Cell {
    if Pos(row, col) in s then s[Pos(row, col)] else Empty
  }

  /** `ws.cell(row, col).value = v` */
  function Set(s: Sheet, row: int, col: int, v: Cell): (t: Sheet)
    ensures Get(t, row, col) == v
    ensures forall r, c {:trigger Get(t, r, c)} :: r != row || c != col ==> Get(t, r, c) == Get(s, r, c)
  {
    s[Pos(row, col) := v]
  }

  // ---------------------------------------------------------------- dimensions

  lemma {:induction false} HasMaximum(xs: set<int>)
    requires xs != {}
    ensures exists m :: m in xs && forall x :: x in xs ==> x <= m
    decreases |xs|
  {
    if forall x :: x !in xs {
      assert false;
    }
    var y :| y in xs;
    if xs != {y} {
      var rest := xs - {y};
      HasMaximum(rest);
      var m :| m in rest && forall x :: x in rest ==> x <= m;
      assert forall x :: x in xs ==> x == y || x in rest;
      if y > m {
        assert forall x :: x in xs ==> x <= y;
      } else {
        assert forall x :: x in xs ==> x <= m;
      }
    }
  }

  function MaxOf(xs: set<int>): (m: int)
    requires xs != {}
    ensures m in xs && forall x :: x in xs ==> x <= m
  {
    HasMaximum(xs);
    var m :| m in xs && forall x :: x in xs ==> x <= m;
    m
  }

  /** `ws.max_row` */
  function MaxRow(s: Sheet): (m: int)
    ensures m >= 1
    ensures forall p {:trigger p in s} :: p in s ==> p.row <= m
    ensures m == 1 || exists p {:trigger p in s} :: p in s && p.row == m
  {
    var rows := set p | p in s :: p.row;
    assert forall p :: p in s ==> p.row in rows;
    var m := MaxOf({1} + rows);
    assert m != 1 ==> m in rows;
    m
  }

  /** `ws.max_column` */
  function MaxCol(s: Sheet): (m: int)
    ensures m >= 1
    ensures forall p {:trigger p in s} :: p in s ==> p.col <= m
    ensures m == 1 || exists p {:trigger p in s} :: p in s && p.col == m
  {
    var cols := set p | p in s :: p.col;
    assert forall p :: p in s ==> p.col in cols;
    var m := MaxOf({1} + cols);
    assert m != 1 ==> m in cols;
    m
  }

  /** Any bound that is attained (or is 1) is `max_row`. */
  lemma MaxRowIs(s: Sheet, m: int)
    requires m >= 1
    requires forall p :: p in s ==> p.row <= m
    requires m == 1 || exists p :: p in s && p.row == m
    ensures MaxRow(s) == m
  {
    var k := MaxRow(s);
    if k != m {
      assert false;
    }
  }

  /** Any bound that is attained (or is 1) is `max_column`. */
  lemma MaxColIs(s: Sheet, m: int)
    requires m >= 1
    requires forall p :: p in s ==> p.col <= m
    requires m == 1 || exists p :: p in s && p.col == m
    ensures MaxCol(s) == m
  {
    var k := MaxCol(s);
    if k != m {
      assert false;
    }
  }

  /** Nothing is stored below `max_row`. */
  lemma BelowMaxRowIsEmpty(s: Sheet, row: int, col: int)
    requires row > MaxRow(s)
    ensures Get(s, row, col) == Empty
  {
  }

  /** Nothing is stored right of `max_column`. */
  lemma RightOfMaxColIsEmpty(s: Sheet, row: int, col: int)
    requires col > MaxCol(s)
    ensures Get(s, row, col) == Empty
  {
  }

  /** Storing a cell extends the dimensions to cover it and changes nothing else about them. */
  lemma SetDimensions(s: Sheet, row: int, col: int, v: Cell)
    requires row >= 1 && col >= 1
    ensures MaxRow(Set(s, row, col, v)) == if row > MaxRow(s) then row else MaxRow(s)
    ensures MaxCol(Set(s, row, col, v)) == if col > MaxCol(s) then col else MaxCol(s)
  {
    var t := Set(s, row, col, v);
    var mr := if row > MaxRow(s) then row else MaxRow(s);
    var mc := if col > MaxCol(s) then col else MaxCol(s);
    if mr != 1 {
      if mr == row {
        assert Pos(row, col) in t;
      } else {
        var p :| p in s && p.row == mr;
        assert p in t;
      }
    }
    if mc != 1 {
      if mc == col {
        assert Pos(row, col) in t;
      } else {
        var p :| p in s && p.col == mc;
        assert p in t;
      }
    }
    MaxRowIs(t, mr);
    MaxColIs(t, mc);
  }

  // ---------------------------------------------------------------- batches of writes

  /** One `ws.cell(row, col).value = value` assignment. */
  datatype Write = Write(pos: Pos, value: Cell)

  /** Perform the assignments front to back. */
  function ApplyWrites(s: Sheet, ws: seq<Write>): Sheet
    decreases |ws|
  {
    if ws == [] then s
    else ApplyWrites(s[ws[0].pos := ws[0].value], ws[1..])
  }

  /** Some write in `ws` assigns position `p`. */
  predicate Assigns(ws: seq<Write>, p: Pos) {
    exists k :: 0 <= k < |ws| && ws[k].pos == p
  }

  /** The value each assigned position ends up with: the last assignment to it wins. */
  function LastWrites(ws: seq<Write>): (m: map<Pos, Cell>)
    ensures forall p :: p in m <==> Assigns(ws, p)
    ensures forall p :: p in m ==> exists k :: 0 <= k < |ws| && ws[k] == Write(p, m[p])
    decreases |ws|
  {
    if ws == [] then map[]
    else
      var rest := LastWrites(ws[1..]);
      var m := map[ws[0].pos := ws[0].value] + rest;
      LastWritesDomainStep(ws, rest, m);
      LastWritesOriginStep(ws, rest, m);
      m
  }

  /** The positions of a batch are those of its first write and of the rest. */
  lemma LastWritesDomainStep(ws: seq<Write>, rest: map<Pos, Cell>, m: map<Pos, Cell>)
    requires ws != [] && m == map[ws[0].pos := ws[0].value] + rest
    requires forall p :: p in rest <==> Assigns(ws[1..], p)
    ensures forall p :: p in m <==> Assigns(ws, p)
  {
    forall p
      ensures p in m <==> Assigns(ws, p)
    {
      if Assigns(ws, p) && p != ws[0].pos {
        var k :| 0 <= k < |ws| && ws[k].pos == p;
        assert ws[1..][k - 1].pos == p;
      }
      if p in rest {
        var j :| 0 <= j < |ws[1..]| && ws[1..][j].pos == p;
        assert ws[j + 1].pos == p;
      }
    }
  }

  /** Every value of the combined map comes from a write of the batch. */
  lemma LastWritesOriginStep(ws: seq<Write>, rest: map<Pos, Cell>, m: map<Pos, Cell>)
    requires ws != [] && m == map[ws[0].pos := ws[0].value] + rest
    requires forall p :: p in rest ==> exists k :: 0 <= k < |ws[1..]| && ws[1..][k] == Write(p, rest[p])
    ensures forall p :: p in m ==> exists k :: 0 <= k < |ws| && ws[k] == Write(p, m[p])
  {
    forall p | p in m
      ensures exists k :: 0 <= k < |ws| && ws[k] == Write(p, m[p])
    {
      if p in rest {
        var j :| 0 <= j < |ws[1..]| && ws[1..][j] == Write(p, rest[p]);
        assert ws[j + 1] == Write(p, m[p]);
      } else {
        assert ws[0] == Write(p, m[p]);
      }
    }
  }

  /** A batch of writes overlays its last values on the sheet and leaves every other cell alone. */
  lemma {:induction false} ApplyWritesOverlay(s: Sheet, ws: seq<Write>)
    ensures ApplyWrites(s, ws) == s + LastWrites(ws)
    decreases |ws|
  {
    if ws != [] {
      var w := ws[0];
      var s1 := s[w.pos := w.value];
      ApplyWritesOverlay(s1, ws[1..]);
      assert ApplyWrites(s, ws) == ApplyWrites(s1, ws[1..]);
      assert LastWrites(ws) == map[w.pos := w.value] + LastWrites(ws[1..]);
      OverlayStep(s, w, LastWrites(ws[1..]));
    }
  }

  /** Writing one cell and then overlaying the rest is overlaying both at once. */
  lemma OverlayStep(s: Sheet, w: Write, rest: map<Pos, Cell>)
    ensures s[w.pos := w.value] + rest == s + (map[w.pos := w.value] + rest)
  {
  }

  /** Reading a cell after a batch of writes: the last write to it, or its old value. */
  lemma ApplyWritesGet(s: Sheet, ws: seq<Write>, row: int, col: int)
    ensures Get(ApplyWrites(s, ws), row, col)
         == if Assigns(ws, Pos(row, col)) then LastWrites(ws)[Pos(row, col)] else Get(s, row, col)
  {
    ApplyWritesOverlay(s, ws);
  }

  /** Replaying a batch of writes on its own result changes nothing. */
  lemma ApplyWritesIdempotent(s: Sheet, ws: seq<Write>)
    ensures ApplyWrites(ApplyWrites(s, ws), ws) == ApplyWrites(s, ws)
  {
    ApplyWritesOverlay(s, ws);
    ApplyWritesOverlay(ApplyWrites(s, ws), ws);
    var m := LastWrites(ws);
    assert (s + m) + m == s + m;
  }

  // ---------------------------------------------------------------- rectangles

  /** The rectangle of rows r0..r1 and columns c0..c1. */
  datatype Range = Range(r0: int, r1: int, c0: int, c1: int) {
    predicate Contains(p: Pos) {
      r0 <= p.row <= r1 && c0 <= p.col <= c1
    }

    /** The same rectangle moved by `dr` rows and `dc` columns. */
    function Shift(dr: int, dc: int): Range {
      Range(r0 + dr, r1 + dr, c0 + dc, c1 + dc)
    }

    function Cells(): (b: set<Pos>)
      ensures forall p {:trigger p in b} :: p in b <==> Contains(p)
    {
      var b := set r, c | r0 <= r <= r1 && c0 <= c <= c1 :: Pos(r, c);
      assert forall p :: Contains(p) ==> Pos(p.row, p.col) in b;
      b
    }
  }

  /**
   * openpyxl's `move_range(g, rows=dr, cols=dc, translate=True)`: every cell
   * of the destination holds the translated value of its source (a source
   * position with no cell gives an empty destination cell), the source
   * cells outside the destination are deleted, and the rest of the sheet is
   * kept.
   */
  function MoveRange(s: Sheet, g: Range, dr: int, dc: int): Sheet {
    var dest := g.Shift(dr, dc);
    var keys := (s.Keys - g.Cells()) + dest.Cells();
    map p | p in keys ::
      if dest.Contains(p) then Translate(Get(s, p.row - dr, p.col - dc), dr, dc) else s[p]
  }

  /** What `MoveRange` leaves at one position. */
  lemma MoveRangeAt(s: Sheet, g: Range, dr: int, dc: int, p: Pos)
    ensures var t := MoveRange(s, g, dr, dc);
      if g.Shift(dr, dc).Contains(p) then p in t && t[p] == Translate(Get(s, p.row - dr, p.col - dc), dr, dc)
      else if g.Contains(p) then p !in t
      else (p in t <==> p in s) && (p in s ==> t[p] == s[p])
  {
    if g.Shift(dr, dc).Contains(p) {
      MovedInto(s, g, dr, dc, p);
      MovedValue(s, g, dr, dc, p);
    } else if g.Contains(p) {
      MovedOut(s, g, dr, dc, p);
    } else {
      MoveKeeps(s, g, dr, dc, p);
    }
  }

  lemma MovedInto(s: Sheet, g: Range, dr: int, dc: int, p: Pos)
    requires g.Shift(dr, dc).Contains(p)
    ensures p in MoveRange(s, g, dr, dc)
  {
    assert p in g.Shift(dr, dc).Cells();
  }

  lemma MovedValue(s: Sheet, g: Range, dr: int, dc: int, p: Pos)
    requires g.Shift(dr, dc).Contains(p) && p in MoveRange(s, g, dr, dc)
    ensures MoveRange(s, g, dr, dc)[p] == Translate(Get(s, p.row - dr, p.col - dc), dr, dc)
  {
  }

  lemma MovedOut(s: Sheet, g: Range, dr: int, dc: int, p: Pos)
    requires g.Contains(p) && !g.Shift(dr, dc).Contains(p)
    ensures p !in MoveRange(s, g, dr, dc)
  {
    assert p !in g.Shift(dr, dc).Cells();
    assert p in g.Cells();
  }

  lemma MoveKeeps(s: Sheet, g: Range, dr: int, dc: int, p: Pos)
    requires !g.Contains(p) && !g.Shift(dr, dc).Contains(p)
    ensures var t := MoveRange(s, g, dr, dc); (p in t <==> p in s) && (p in s ==> t[p] == s[p])
  {
    assert p !in g.Shift(dr, dc).Cells();
    assert p !in g.Cells();
  }
}
