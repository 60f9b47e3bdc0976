/**
 * The funds sheet ("基金日记"): row 1 holds one fund id per price column,
 * column 1 holds the trading dates from row 9 downwards (newest on top), and
 * each fund's price column is filled in from the top as prices become known.
 * `read_funds` finds the dated rows above each column's newest price,
 * `write_funds` fills them in, and `buy_funds` records a purchase.
 */
module FundsSheet {
  import opened Wrappers
  import opened PyText
  import opened Calendar
  import opened Sheets

  /** The first row that can hold a price; rows above it are headings. */
  const FirstPriceRow := 9

  /** Column A, which holds the date of every price row. */
  const DateCol := 1

  /** The id of the blank template column, which the scan skips. */
  const TemplateId := Str("000000")

  // ---------------------------------------------------------------- header map

  /** One entry of the `price_columns` dict: a fund id and its column. */
  datatype Header = Header(id: Cell, col: int)

  /** The dict's keys, in insertion order. */
  function Keys(h: seq<Header>): (ks: seq<Cell>)
    ensures |ks| == |h|
    ensures forall i :: 0 <= i < |h| ==> ks[i] == h[i].id
  {
    if h == [] then [] else [h[0].id] + Keys(h[1..])
  }

  /** `price_columns.get(id)` */
  function Lookup(h: seq<Header>, id: Cell): (r: Option<int>)
    ensures r.None? <==> id !in Keys(h)
  {
    if h == [] then None
    else if h[0].id == id then Some(h[0].col)
    else Lookup(h[1..], id)
  }

  predicate DistinctKeys(h: seq<Header>) {
    forall i, j :: 0 <= i < j < |h| ==> h[i].id != h[j].id
  }

  /** `price_columns[id] = col` */
  function Assign(h: seq<Header>, id: Cell, col: int): seq<Header> {
    if h == [] then [Header(id, col)]
    else if h[0].id == id then [Header(id, col)] + h[1..]
    else [h[0]] + Assign(h[1..], id, col)
  }

  /** An existing key keeps its place, a new key goes last. */
  lemma {:induction false} AssignKeys(h: seq<Header>, id: Cell, col: int)
    ensures Keys(Assign(h, id, col)) == if id in Keys(h) then Keys(h) else Keys(h) + [id]
    decreases |h|
  {
    if h != [] {
      assert h == [h[0]] + h[1..];
      AssignCons(h[0], h[1..]);
      if h[0].id == id {
        AssignCons(Header(id, col), h[1..]);
      } else {
        var rest := Assign(h[1..], id, col);
        AssignKeys(h[1..], id, col);
        AssignCons(h[0], rest);
        assert [h[0].id] + (Keys(h[1..]) + [id]) == ([h[0].id] + Keys(h[1..])) + [id];
      }
    }
  }

  /** The assigned key maps to the new column, every other key to what it mapped to before. */
  lemma {:induction false} AssignLookup(h: seq<Header>, id: Cell, col: int)
    ensures Lookup(Assign(h, id, col), id) == Some(col)
    ensures forall other :: other != id ==> Lookup(Assign(h, id, col), other) == Lookup(h, other)
    decreases |h|
  {
    if h != [] {
      assert h == [h[0]] + h[1..];
      AssignCons(h[0], h[1..]);
      if h[0].id == id {
        AssignCons(Header(id, col), h[1..]);
      } else {
        var rest := Assign(h[1..], id, col);
        AssignLookup(h[1..], id, col);
        AssignCons(h[0], rest);
      }
    }
  }

  lemma AssignCons(x: Header, rest: seq<Header>)
    ensures Keys([x] + rest) == [x.id] + Keys(rest)
    ensures forall other :: other != x.id ==> Lookup([x] + rest, other) == Lookup(rest, other)
  {
    assert ([x] + rest)[1..] == rest;
  }

  /** Assigning keeps the keys distinct. */
  lemma AssignDistinct(h: seq<Header>, id: Cell, col: int)
    requires DistinctKeys(h)
    ensures DistinctKeys(Assign(h, id, col))
  {
    var r := Assign(h, id, col);
    AssignKeys(h, id, col);
    forall i, j | 0 <= i < j < |r|
      ensures r[i].id != r[j].id
    {
      assert Keys(r)[i] == r[i].id && Keys(r)[j] == r[j].id;
      assert forall a, b :: 0 <= a < b < |h| ==> Keys(h)[a] != Keys(h)[b];
    }
  }

  /** The dict built from the row-1 cells of columns 1..k, left to right. */
  function HeaderUpTo(s: Sheet, k: int): seq<Header>
    decreases k
  {
    if k < 1 then []
    else
      var h := HeaderUpTo(s, k - 1);
      if Get(s, 1, k) != Empty then Assign(h, Get(s, 1, k), k) else h
  }

  /**
   * The `price_columns` dict of `read_funds`: the loop visits columns 1 to
   * `max_column + 1` and records every row-1 value that is not None.
   */
  function HeaderMap(s: Sheet): seq<Header> {
    HeaderUpTo(s, MaxCol(s) + 1)
  }

  /** Reference definition: the right-most column among 1..k whose row-1 value is `id`. */
  function LastCol(s: Sheet, id: Cell, k: int): Option<int>
    decreases k
  {
    if k < 1 then None
    else if Get(s, 1, k) == id then Some(k)
    else LastCol(s, id, k - 1)
  }

  /** Reference definition: the left-most column among 1..k whose row-1 value is `id`. */
  function FirstCol(s: Sheet, id: Cell, k: int): Option<int>
    decreases k
  {
    if k < 1 then None
    else if FirstCol(s, id, k - 1).Some? then FirstCol(s, id, k - 1)
    else if Get(s, 1, k) == id then Some(k)
    else None
  }

  lemma {:induction false} FirstColBounds(s: Sheet, id: Cell, k: int)
    ensures FirstCol(s, id, k).Some? ==> 1 <= FirstCol(s, id, k).value <= k
    ensures FirstCol(s, id, k).None? <==> LastCol(s, id, k).None?
    decreases k
  {
    if k >= 1 {
      FirstColBounds(s, id, k - 1);
    }
  }

  /** Every non-empty row-1 value among columns 1..k maps to the column of its last occurrence, and nothing else is a key. */
  ghost predicate LastColumns(s: Sheet, h: seq<Header>, k: int) {
    forall id :: Lookup(h, id) == if id == Empty then None else LastCol(s, id, k)
  }

  /** The keys appear in the order of their first occurrence among columns 1..k. */
  predicate FirstOccurrenceOrder(s: Sheet, h: seq<Header>, k: int) {
    forall i, j :: 0 <= i < j < |h| ==>
      FirstCol(s, h[i].id, k).Some? && FirstCol(s, h[j].id, k).Some? &&
      FirstCol(s, h[i].id, k).value < FirstCol(s, h[j].id, k).value
  }

  /** The header map built from columns 1..k holds each id once. */
  lemma {:induction false} HeaderDistinct(s: Sheet, k: int)
    ensures DistinctKeys(HeaderUpTo(s, k))
    decreases k
  {
    if k >= 1 {
      HeaderDistinct(s, k - 1);
      if Get(s, 1, k) != Empty {
        AssignDistinct(HeaderUpTo(s, k - 1), Get(s, 1, k), k);
      }
    }
  }

  /** The header map built from columns 1..k maps each non-empty row-1 value to the column of its last occurrence. */
  lemma {:induction false} HeaderLastColumns(s: Sheet, k: int)
    ensures LastColumns(s, HeaderUpTo(s, k), k)
    decreases k
  {
    if k >= 1 {
      HeaderLastColumns(s, k - 1);
      var h := HeaderUpTo(s, k - 1);
      var v := Get(s, 1, k);
      forall id
        ensures Lookup(HeaderUpTo(s, k), id) == if id == Empty then None else LastCol(s, id, k)
      {
        assert Lookup(h, id) == if id == Empty then None else LastCol(s, id, k - 1);
        if v != Empty {
          assert HeaderUpTo(s, k) == Assign(h, v, k);
          AssignLookup(h, v, k);
        } else {
          assert HeaderUpTo(s, k) == h;
        }
      }
    }
  }

  /** The header map built from columns 1..k keeps its ids in the order of their first occurrence. */
  lemma {:induction false} HeaderFirstOrder(s: Sheet, k: int)
    ensures FirstOccurrenceOrder(s, HeaderUpTo(s, k), k)
    decreases k
  {
    if k >= 1 {
      HeaderFirstOrder(s, k - 1);
      HeaderLastColumns(s, k - 1);
      var h := HeaderUpTo(s, k - 1);
      var v := Get(s, 1, k);
      forall id
        ensures FirstCol(s, id, k - 1).Some? ==> FirstCol(s, id, k) == FirstCol(s, id, k - 1)
        ensures FirstCol(s, id, k - 1).Some? ==> 1 <= FirstCol(s, id, k - 1).value <= k - 1
        ensures id in Keys(h) <==> id != Empty && FirstCol(s, id, k - 1).Some?
      {
        FirstColBounds(s, id, k - 1);
      }
      if v != Empty {
        var r := Assign(h, v, k);
        assert HeaderUpTo(s, k) == r;
        AssignKeys(h, v, k);
        if v !in Keys(h) {
          assert FirstCol(s, v, k) == Some(k);
          forall i, j | 0 <= i < j < |r|
            ensures FirstCol(s, r[i].id, k).Some? && FirstCol(s, r[j].id, k).Some?
            ensures FirstCol(s, r[i].id, k).value < FirstCol(s, r[j].id, k).value
          {
            assert Keys(r)[i] == r[i].id && Keys(r)[j] == r[j].id;
            if j == |h| {
              assert r[j].id == v;
              assert r[i].id == Keys(h)[i];
            } else {
              assert r[i].id == h[i].id && r[j].id == h[j].id;
            }
          }
        } else {
          forall i, j | 0 <= i < j < |r|
            ensures FirstCol(s, r[i].id, k).Some? && FirstCol(s, r[j].id, k).Some?
            ensures FirstCol(s, r[i].id, k).value < FirstCol(s, r[j].id, k).value
          {
            assert Keys(r)[i] == r[i].id && Keys(r)[j] == r[j].id;
            assert r[i].id == h[i].id && r[j].id == h[j].id;
          }
        }
      } else {
        assert HeaderUpTo(s, k) == h;
        forall i, j | 0 <= i < j < |h|
          ensures FirstCol(s, h[i].id, k).Some? && FirstCol(s, h[j].id, k).Some?
          ensures FirstCol(s, h[i].id, k).value < FirstCol(s, h[j].id, k).value
        {
          assert Keys(h)[i] == h[i].id && Keys(h)[j] == h[j].id;
        }
      }
    }
  }

  /**
   * `read_funds`' header map: ids are distinct, each maps to the column of
   * its last occurrence in row 1, and the keys keep first-occurrence order.
   */
  lemma HeaderMapSpec(s: Sheet)
    ensures DistinctKeys(HeaderMap(s))
    ensures LastColumns(s, HeaderMap(s), MaxCol(s) + 1)
    ensures FirstOccurrenceOrder(s, HeaderMap(s), MaxCol(s) + 1)
  {
    HeaderDistinct(s, MaxCol(s) + 1);
    HeaderLastColumns(s, MaxCol(s) + 1);
    HeaderFirstOrder(s, MaxCol(s) + 1);
  }

  // ---------------------------------------------------------------- missing-cell scan

  /** A dated row above a column's newest price, with its date as printed. */
  datatype MissingDate = MissingDate(row: int, date: string)

  /** One entry of `missing_funds`: a fund id, its column and its missing dates. */
  datatype MissingFund = MissingFund(id: Cell, column: int, missing: seq<MissingDate>)

  /**
   * What `read_funds` leaves behind. `ScanFailed` is the exception path
   * (a non-date in column A, or a walk up past row 1), after which
   * `read_funds` returns False; `ScanHangs` is a price column with nothing
   * at or below row 9, where the downward walk never ends.
   */
  datatype ScanResult = Scanned(funds: seq<MissingFund>) | ScanFailed | ScanHangs

  /** The price cell at (r, col) holds something. */
  predicate Filled(s: Sheet, col: int, r: int) {
    !IsBlank(Get(s, r, col))
  }

  /** The first filled row among r..bound of column `col`. */
  function FirstFilledFrom(s: Sheet, col: int, r: int, bound: int): (b: Option<int>)
    ensures b.Some? ==> r <= b.value <= bound && Filled(s, col, b.value)
    ensures b.Some? ==> forall q :: r <= q < b.value ==> !Filled(s, col, q)
    ensures b.None? ==> forall q :: r <= q <= bound ==> !Filled(s, col, q)
    decreases bound - r
  {
    if r > bound then None
    else if Filled(s, col, r) then Some(r)
    else FirstFilledFrom(s, col, r + 1, bound)
  }

  /**
   * Where the downward walk of `_get_missing_price_funds` stops: the first
   * row at or below row 9 whose price cell is neither None nor "". None
   * when there is no such row, in which case the walk never ends.
   */
  function FirstFilled(s: Sheet, col: int): (b: Option<int>)
    ensures b.Some? ==> b.value >= FirstPriceRow && Filled(s, col, b.value)
    ensures b.Some? ==> forall q :: FirstPriceRow <= q < b.value ==> !Filled(s, col, q)
    ensures b.None? ==> forall q :: q >= FirstPriceRow ==> !Filled(s, col, q)
  {
    var b := FirstFilledFrom(s, col, FirstPriceRow, MaxRow(s));
    if b.None? then
      forall q | q > MaxRow(s)
        ensures !Filled(s, col, q)
      {
        BelowMaxRowIsEmpty(s, q, col);
      }
      b
    else b
  }

  /** Row r - k of the walk from r holds a date, and `d` is its record. */
  predicate WalkedRow(s: Sheet, r: int, k: int, d: MissingDate) {
    Get(s, r - k, DateCol).Date? && d == MissingDate(r - k, FormatYmd(Get(s, r - k, DateCol).date))
  }

  /**
   * The upward walk from row r breaks at row `stop`: rows stop+1..r hold
   * dates, and `stop` is row 0 or holds something that is neither None nor
   * a date.
   */
  predicate WalkBreaks(s: Sheet, stop: int, r: int) {
    stop <= r &&
    (stop < 1 || !(Get(s, stop, DateCol).Date? || Get(s, stop, DateCol).Empty?)) &&
    forall q :: stop < q <= r ==> Get(s, q, DateCol).Date?
  }

  /**
   * The upward walk from row r: every row whose date cell is not None is
   * recorded with its date printed by `strftime("%Y-%m-%d")`, until a row
   * whose date cell is None. A value without `strftime`, or the attempt to
   * read row 0, raises.
   */
  function DatesUpFrom(s: Sheet, r: int): Option<seq<MissingDate>>
    decreases r
  {
    if r < 1 then None
    else
      match Get(s, r, DateCol)
      case Empty => Some([])
      case Date(d) =>
        var rest := DatesUpFrom(s, r - 1);
        if rest.None? then None else Some([MissingDate(r, FormatYmd(d))] + rest.value)
      case _ => None
  }

  /** A walk that succeeds stops at an empty date cell at row 1 or below. */
  lemma {:induction false} DatesUpFromStop(s: Sheet, r: int)
    requires DatesUpFrom(s, r).Some?
    ensures r - |DatesUpFrom(s, r).value| >= 1
    ensures Get(s, r - |DatesUpFrom(s, r).value|, DateCol) == Empty
    decreases r
  {
    if Get(s, r, DateCol).Date? {
      DatesUpFromStop(s, r - 1);
      assert |DatesUpFrom(s, r).value| == 1 + |DatesUpFrom(s, r - 1).value|;
      assert r - |DatesUpFrom(s, r).value| == (r - 1) - |DatesUpFrom(s, r - 1).value|;
    }
  }

  /** The k-th row a successful walk passes holds a date, and the walk records it printed. */
  lemma {:induction false} DatesUpFromAt(s: Sheet, r: int, k: int)
    requires DatesUpFrom(s, r).Some? && 0 <= k < |DatesUpFrom(s, r).value|
    ensures WalkedRow(s, r, k, DatesUpFrom(s, r).value[k])
    decreases r
  {
    if k > 0 {
      DatesUpFromAt(s, r - 1, k - 1);
      assert DatesUpFrom(s, r).value[k] == DatesUpFrom(s, r - 1).value[k - 1];
      assert r - k == (r - 1) - (k - 1);
    }
  }

  /**
   * A walk that succeeds stops at an empty date cell at row 1 or below and
   * lists every row it passed, each holding a date, with that date printed.
   */
  lemma DatesUpFromSome(s: Sheet, r: int)
    requires DatesUpFrom(s, r).Some?
    ensures r - |DatesUpFrom(s, r).value| >= 1
    ensures Get(s, r - |DatesUpFrom(s, r).value|, DateCol) == Empty
    ensures forall k :: 0 <= k < |DatesUpFrom(s, r).value| ==>
      WalkedRow(s, r, k, DatesUpFrom(s, r).value[k])
  {
    DatesUpFromStop(s, r);
    forall k | 0 <= k < |DatesUpFrom(s, r).value|
      ensures WalkedRow(s, r, k, DatesUpFrom(s, r).value[k])
    {
      DatesUpFromAt(s, r, k);
    }
  }

  /** A walk that fails meets row 0 or a value that is neither None nor a date. */
  lemma {:induction false} DatesUpFromNone(s: Sheet, r: int)
    requires DatesUpFrom(s, r).None?
    ensures exists stop :: WalkBreaks(s, stop, r)
    decreases r
  {
    if r >= 1 && Get(s, r, DateCol).Date? {
      DatesUpFromNone(s, r - 1);
      var stop :| WalkBreaks(s, stop, r - 1);
      assert WalkBreaks(s, stop, r);
    } else {
      assert WalkBreaks(s, r, r);
    }
  }

  /** The scan of one price column: down to its newest price, then up through the dated rows. */
  function ScanColumn(s: Sheet, h: Header): ScanResult {
    match FirstFilled(s, h.col)
    case None => ScanHangs
    case Some(b) =>
      match DatesUpFrom(s, b)
      case None => ScanFailed
      case Some(ds) => Scanned([MissingFund(h.id, h.col, ds)])
  }

  /** `_get_missing_price_funds`: scan every header entry in dict order, skipping the template. */
  function ScanColumns(s: Sheet, h: seq<Header>): ScanResult
    decreases |h|
  {
    if h == [] then Scanned([])
    else if h[0].id == TemplateId then ScanColumns(s, h[1..])
    else
      match ScanColumn(s, h[0])
      case Scanned(here) =>
        (match ScanColumns(s, h[1..])
         case Scanned(rest) => Scanned(here + rest)
         case other => other)
      case other => other
  }

  /** The header entries the scan visits. */
  function NonTemplate(h: seq<Header>): (r: seq<Header>)
    ensures forall i :: 0 <= i < |r| ==> r[i].id != TemplateId
    ensures |r| <= |h|
    decreases |h|
  {
    if h == [] then []
    else if h[0].id == TemplateId then NonTemplate(h[1..])
    else [h[0]] + NonTemplate(h[1..])
  }

  /** `read_funds` on the funds sheet. */
  function ReadFunds(s: Sheet): ScanResult {
    ScanColumns(s, HeaderMap(s))
  }

  /**
   * A successful scan has one entry per non-template header entry, in dict
   * order, with the entry's column; its missing dates start at the column's
   * first filled row at or below row 9 (that row included) and walk up one
   * row at a time while column A holds a date. The price cells of the rows
   * walked through are not looked at again.
   */
  predicate ScanOf(s: Sheet, h: seq<Header>, funds: seq<MissingFund>) {
    |funds| == |NonTemplate(h)| &&
    forall i :: 0 <= i < |funds| ==>
      funds[i].id == NonTemplate(h)[i].id && funds[i].column == NonTemplate(h)[i].col &&
      FirstFilled(s, funds[i].column).Some? &&
      DatesUpFrom(s, FirstFilled(s, funds[i].column).value) == Some(funds[i].missing)
  }

  lemma {:induction false} ScanColumnsSpec(s: Sheet, h: seq<Header>)
    ensures ScanColumns(s, h).Scanned? ==> ScanOf(s, h, ScanColumns(s, h).funds)
    ensures ScanColumns(s, h) == ScanHangs ==>
      exists i :: 0 <= i < |NonTemplate(h)| && FirstFilled(s, NonTemplate(h)[i].col).None?
    ensures (forall i :: 0 <= i < |NonTemplate(h)| ==> FirstFilled(s, NonTemplate(h)[i].col).Some?) ==>
      ScanColumns(s, h) != ScanHangs
    decreases |h|
  {
    if h != [] {
      ScanColumnsSpec(s, h[1..]);
      var nt := NonTemplate(h[1..]);
      if h[0].id != TemplateId {
        assert NonTemplate(h) == [h[0]] + nt;
        assert forall i :: 0 < i <= |nt| ==> NonTemplate(h)[i] == nt[i - 1];
        if ScanColumn(s, h[0]) == ScanHangs {
          assert NonTemplate(h)[0] == h[0];
        } else if ScanColumns(s, h) == ScanHangs {
          var i :| 0 <= i < |nt| && FirstFilled(s, nt[i].col).None?;
          assert NonTemplate(h)[i + 1] == nt[i];
        }
        if ScanColumns(s, h).Scanned? {
          var rest := ScanColumns(s, h[1..]).funds;
          var all := ScanColumns(s, h).funds;
          assert all == ScanColumn(s, h[0]).funds + rest;
          assert forall i :: 0 < i < |all| ==> all[i] == rest[i - 1];
        }
      }
    }
  }

  /**
   * `read_funds` (the header map followed by the scan): the template id never
   * appears, every other header id is scanned once, in first-occurrence
   * order, at the column of its last occurrence in row 1.
   */
  lemma ReadFundsSpec(s: Sheet)
    ensures ReadFunds(s).Scanned? ==>
      ScanOf(s, HeaderMap(s), ReadFunds(s).funds) &&
      forall i :: 0 <= i < |ReadFunds(s).funds| ==>
        ReadFunds(s).funds[i].id != TemplateId &&
        Lookup(HeaderMap(s), ReadFunds(s).funds[i].id) == Some(ReadFunds(s).funds[i].column)
  {
    ScanColumnsSpec(s, HeaderMap(s));
    var h := HeaderMap(s);
    if ReadFunds(s).Scanned? {
      var funds := ReadFunds(s).funds;
      NonTemplateFrom(h);
      HeaderMapSpec(s);
      forall i | 0 <= i < |funds|
        ensures Lookup(h, funds[i].id) == Some(funds[i].column)
      {
        var e := NonTemplate(h)[i];
        var j :| 0 <= j < |h| && h[j] == e;
        LookupIsFirst(h, j);
      }
    }
  }

  /** The scan hangs only on a non-template price column with nothing at or below row 9. */
  lemma ReadFundsHangs(s: Sheet)
    requires ReadFunds(s) == ScanHangs
    ensures exists c :: (c >= 1 && Get(s, 1, c) != Empty && Get(s, 1, c) != TemplateId &&
      forall q :: q >= FirstPriceRow ==> !Filled(s, c, q))
  {
    ScanColumnsSpec(s, HeaderMap(s));
    var h := HeaderMap(s);
    NonTemplateFrom(h);
    var i :| 0 <= i < |NonTemplate(h)| && FirstFilled(s, NonTemplate(h)[i].col).None?;
    var e := NonTemplate(h)[i];
    HeaderEntryCell(s, h, e);
    assert Get(s, 1, e.col) != Empty && Get(s, 1, e.col) != TemplateId;
  }

  lemma {:induction false} NonTemplateFrom(h: seq<Header>)
    ensures forall i :: 0 <= i < |NonTemplate(h)| ==> NonTemplate(h)[i] in h
    decreases |h|
  {
    if h != [] {
      NonTemplateFrom(h[1..]);
    }
  }

  /** A header entry names a column whose row-1 cell holds the entry's id. */
  lemma HeaderEntryCell(s: Sheet, h: seq<Header>, e: Header)
    requires h == HeaderMap(s) && e in h
    ensures e.col >= 1 && Get(s, 1, e.col) == e.id && e.id != Empty
  {
    var k := MaxCol(s) + 1;
    HeaderDistinct(s, k);
    HeaderLastColumns(s, k);
    var i :| 0 <= i < |h| && h[i] == e;
    LookupIsFirst(h, i);
    assert Lookup(h, e.id) == if e.id == Empty then None else LastCol(s, e.id, k);
    LastColCell(s, e.id, k);
  }

  lemma {:induction false} LookupIsFirst(h: seq<Header>, i: int)
    requires DistinctKeys(h) && 0 <= i < |h|
    ensures Lookup(h, h[i].id) == Some(h[i].col)
    decreases |h|
  {
    if i > 0 {
      assert DistinctKeys(h[1..]);
      LookupIsFirst(h[1..], i - 1);
    }
  }

  lemma {:induction false} LastColCell(s: Sheet, id: Cell, k: int)
    ensures LastCol(s, id, k).Some? ==> LastCol(s, id, k).value >= 1 && Get(s, 1, LastCol(s, id, k).value) == id
    decreases k
  {
    if k >= 1 {
      LastColCell(s, id, k - 1);
    }
  }

  // ---------------------------------------------------------------- fund fill-in

  /** `funds_data`: fetched prices by fund id, then by printed date. */
  type FundsData = map<Cell, map<string, string>>

  /**
   * `funds_data[str(id)][date]`. The fetched data is keyed by the id cells
   * themselves, so the lookup by `str(id)` can only find a string id.
   */
  function PriceOf(data: FundsData, id: Cell, date: string): (v: Option<string>)
    ensures v.Some? <==> id.Str? && id in data && date in data[id]
    ensures v.Some? ==> v.value == data[id][date]
  {
    if id.Str? && id in data && date in data[id] then Some(data[id][date]) else None
  }

  /** `float(v)`, or the text itself when `float` raises `ValueError`. */
  function PriceCell(v: string): (c: Cell)
    ensures c.Num? <==> ParseFloat(v).Some?
    ensures c.Num? ==> c.x == ParseFloat(v).value
    ensures !c.Num? ==> c == Str(v)
  {
    match ParseFloat(v)
    case Some(x) => Num(x)
    case None => Str(v)
  }

  /** One (row, date) pair of one fund, at the fund's column. */
  datatype Slot = Slot(id: Cell, pos: Pos, date: string)

  function SlotsOf(f: MissingFund): (r: seq<Slot>)
    ensures |r| == |f.missing|
    ensures forall k :: 0 <= k < |r| ==> r[k] == Slot(f.id, Pos(f.missing[k].row, f.column), f.missing[k].date)
  {
    seq(|f.missing|, k requires 0 <= k < |f.missing| => Slot(f.id, Pos(f.missing[k].row, f.column), f.missing[k].date))
  }

  /** Every (row, date) pair of every fund, in the order `write_funds` visits them. */
  function Slots(funds: seq<MissingFund>): seq<Slot>
    decreases |funds|
  {
    if funds == [] then [] else SlotsOf(funds[0]) + Slots(funds[1..])
  }

  /** The fetched data has a price for this slot. */
  predicate Hit(data: FundsData, sl: Slot) {
    PriceOf(data, sl.id, sl.date).Some?
  }

  /** Reference count: the slots the fetched data has a price for. */
  function Hits(slots: seq<Slot>, data: FundsData): nat
    decreases |slots|
  {
    if slots == [] then 0
    else (if Hit(data, slots[0]) then 1 else 0) + Hits(slots[1..], data)
  }

  /** Some slot at position p has a price. */
  predicate HitAt(slots: seq<Slot>, data: FundsData, p: Pos) {
    exists k :: 0 <= k < |slots| && slots[k].pos == p && Hit(data, slots[k])
  }

  /** `w` is the assignment made for slot k, which has a price. */
  predicate WriteFor(data: FundsData, slots: seq<Slot>, k: int, w: Write) {
    0 <= k < |slots| && Hit(data, slots[k]) &&
    w == Write(slots[k].pos, PriceCell(PriceOf(data, slots[k].id, slots[k].date).value))
  }

  /** The cell assignments `write_funds` performs, in order; a miss assigns nothing. */
  function FillWrites(slots: seq<Slot>, data: FundsData): (w: seq<Write>)
    ensures |w| <= |slots|
    decreases |slots|
  {
    if slots == [] then []
    else
      var rest := FillWrites(slots[1..], data);
      var sl := slots[0];
      if Hit(data, sl) then [Write(sl.pos, PriceCell(PriceOf(data, sl.id, sl.date).value))] + rest else rest
  }

  /** Every assignment comes from a slot with a price. */
  lemma {:induction false} FillWritesOrigin(slots: seq<Slot>, data: FundsData, j: int)
    requires 0 <= j < |FillWrites(slots, data)|
    ensures exists k :: WriteFor(data, slots, k, FillWrites(slots, data)[j])
    decreases |slots|
  {
    var w := FillWrites(slots, data);
    var rest := FillWrites(slots[1..], data);
    if Hit(data, slots[0]) && j == 0 {
      assert WriteFor(data, slots, 0, w[j]);
    } else {
      var j' := if Hit(data, slots[0]) then j - 1 else j;
      assert w[j] == rest[j'];
      FillWritesOrigin(slots[1..], data, j');
      var k :| WriteFor(data, slots[1..], k, rest[j']);
      assert slots[1..][k] == slots[k + 1];
      assert WriteFor(data, slots, k + 1, w[j]);
    }
  }

  /** Every slot with a price is assigned. */
  lemma {:induction false} FillWritesCovers(slots: seq<Slot>, data: FundsData, k: int)
    requires 0 <= k < |slots| && Hit(data, slots[k])
    ensures Assigns(FillWrites(slots, data), slots[k].pos)
    decreases |slots|
  {
    var w := FillWrites(slots, data);
    var rest := FillWrites(slots[1..], data);
    var p := slots[k].pos;
    if k == 0 {
      assert w[0].pos == p;
    } else {
      assert slots[1..][k - 1] == slots[k];
      FillWritesCovers(slots[1..], data, k - 1);
      var j :| 0 <= j < |rest| && rest[j].pos == p;
      if Hit(data, slots[0]) {
        assert w[j + 1] == rest[j];
      } else {
        assert w == rest;
      }
    }
  }

  lemma {:induction false} FillWritesCount(slots: seq<Slot>, data: FundsData)
    ensures |FillWrites(slots, data)| == Hits(slots, data)
    decreases |slots|
  {
    if slots != [] {
      FillWritesCount(slots[1..], data);
    }
  }

  /** One assignment per slot with a price, at exactly the positions of those slots. */
  lemma FillWritesSpec(slots: seq<Slot>, data: FundsData)
    ensures |FillWrites(slots, data)| == Hits(slots, data)
    ensures forall p :: Assigns(FillWrites(slots, data), p) <==> HitAt(slots, data, p)
  {
    FillWritesCount(slots, data);
    var w := FillWrites(slots, data);
    forall p
      ensures Assigns(w, p) <==> HitAt(slots, data, p)
    {
      if Assigns(w, p) {
        var j :| 0 <= j < |w| && w[j].pos == p;
        FillWritesOrigin(slots, data, j);
        var k :| WriteFor(data, slots, k, w[j]);
      }
      if HitAt(slots, data, p) {
        var k :| 0 <= k < |slots| && slots[k].pos == p && Hit(data, slots[k]);
        FillWritesCovers(slots, data, k);
      }
    }
  }

  /** No two slots share a cell. */
  predicate DistinctPositions(slots: seq<Slot>) {
    forall i, j :: 0 <= i < j < |slots| ==> slots[i].pos != slots[j].pos
  }

  /** The result of `write_funds`: the filled sheet and the number of cells written. */
  datatype FundsWrite = FundsWrite(sheet: Sheet, count: nat)

  /**
   * `write_funds`: every (row, date) pair whose price was fetched is written
   * at (row, the fund's column), as a number when `float` accepts it and as
   * the text otherwise; a missing id or date skips that cell only.
   */
  function WriteFunds(s: Sheet, funds: seq<MissingFund>, data: FundsData): (r: FundsWrite)
    ensures r.count == Hits(Slots(funds), data)
    ensures forall row, col :: !HitAt(Slots(funds), data, Pos(row, col)) ==>
      Get(r.sheet, row, col) == Get(s, row, col)
    ensures DistinctPositions(Slots(funds)) ==>
      forall k :: 0 <= k < |Slots(funds)| && Hit(data, Slots(funds)[k]) ==>
        Get(r.sheet, Slots(funds)[k].pos.row, Slots(funds)[k].pos.col) ==
        PriceCell(PriceOf(data, Slots(funds)[k].id, Slots(funds)[k].date).value)
  {
    var slots := Slots(funds);
    FillWritesSpec(slots, data);
    FillWritesCells(s, slots, data);
    FundsWrite(ApplyWrites(s, FillWrites(slots, data)), |FillWrites(slots, data)|)
  }

  lemma FillWritesCells(s: Sheet, slots: seq<Slot>, data: FundsData)
    ensures forall row, col :: !HitAt(slots, data, Pos(row, col)) ==>
      Get(ApplyWrites(s, FillWrites(slots, data)), row, col) == Get(s, row, col)
    ensures DistinctPositions(slots) ==>
      forall k :: 0 <= k < |slots| && Hit(data, slots[k]) ==>
        Get(ApplyWrites(s, FillWrites(slots, data)), slots[k].pos.row, slots[k].pos.col) ==
        PriceCell(PriceOf(data, slots[k].id, slots[k].date).value)
  {
    var w := FillWrites(slots, data);
    FillWritesSpec(slots, data);
    var t := ApplyWrites(s, w);
    forall row, col
      ensures Get(t, row, col) == if HitAt(slots, data, Pos(row, col)) then LastWrites(w)[Pos(row, col)] else Get(s, row, col)
    {
      ApplyWritesGet(s, w, row, col);
    }
    if DistinctPositions(slots) {
      forall k | 0 <= k < |slots| && Hit(data, slots[k])
        ensures Get(t, slots[k].pos.row, slots[k].pos.col) == PriceCell(PriceOf(data, slots[k].id, slots[k].date).value)
      {
        var p := slots[k].pos;
        assert HitAt(slots, data, p);
        assert Pos(p.row, p.col) == p;
        var j :| 0 <= j < |w| && w[j] == Write(p, LastWrites(w)[p]);
        FillWritesOrigin(slots, data, j);
        var k' :| WriteFor(data, slots, k', w[j]);
        assert k' == k;
      }
    }
  }

  /** Running `write_funds` a second time with the same data changes nothing. */
  lemma WriteFundsIdempotent(s: Sheet, funds: seq<MissingFund>, data: FundsData)
    ensures WriteFunds(WriteFunds(s, funds, data).sheet, funds, data).sheet == WriteFunds(s, funds, data).sheet
  {
    ApplyWritesIdempotent(s, FillWrites(Slots(funds), data));
  }

  /** Different funds sit in different columns, and no fund lists a row twice. */
  predicate WellFormed(funds: seq<MissingFund>) {
    (forall i, j :: 0 <= i < j < |funds| ==> funds[i].column != funds[j].column) &&
    forall i :: 0 <= i < |funds| ==> RowsDistinct(funds[i].missing)
  }

  predicate RowsDistinct(ms: seq<MissingDate>) {
    forall a, b :: 0 <= a < b < |ms| ==> ms[a].row != ms[b].row
  }

  lemma {:induction false} SlotsColumn(funds: seq<MissingFund>, i: int)
    requires 0 <= i < |Slots(funds)|
    ensures exists j :: 0 <= j < |funds| && Slots(funds)[i].pos.col == funds[j].column
    decreases |funds|
  {
    var here := SlotsOf(funds[0]);
    if i < |here| {
      assert Slots(funds)[i] == here[i];
    } else {
      assert Slots(funds)[i] == Slots(funds[1..])[i - |here|];
      SlotsColumn(funds[1..], i - |here|);
      var j :| 0 <= j < |funds[1..]| && Slots(funds[1..])[i - |here|].pos.col == funds[1..][j].column;
      assert funds[1..][j] == funds[j + 1];
    }
  }

  /** Well-formed funds give slots that never share a cell. */
  lemma {:induction false} SlotsDistinct(funds: seq<MissingFund>)
    requires WellFormed(funds)
    ensures DistinctPositions(Slots(funds))
    decreases |funds|
  {
    if funds != [] {
      var rest := funds[1..];
      assert WellFormed(rest) by {
        assert forall i :: 0 <= i < |rest| ==> rest[i] == funds[i + 1];
      }
      SlotsDistinct(rest);
      var here := SlotsOf(funds[0]);
      var all := Slots(funds);
      assert all == here + Slots(rest);
      forall a, b | 0 <= a < b < |all|
        ensures all[a].pos != all[b].pos
      {
        if b < |here| {
          assert RowsDistinct(funds[0].missing);
        } else if a < |here| {
          assert all[b] == Slots(rest)[b - |here|];
          SlotsColumn(rest, b - |here|);
          var j :| 0 <= j < |rest| && Slots(rest)[b - |here|].pos.col == rest[j].column;
          assert rest[j] == funds[j + 1];
        } else {
          assert all[a] == Slots(rest)[a - |here|] && all[b] == Slots(rest)[b - |here|];
        }
      }
    }
  }

  lemma {:induction false} NonTemplateDistinct(h: seq<Header>)
    requires DistinctKeys(h)
    ensures DistinctKeys(NonTemplate(h))
    decreases |h|
  {
    if h != [] {
      assert DistinctKeys(h[1..]);
      NonTemplateDistinct(h[1..]);
      NonTemplateFrom(h[1..]);
      if h[0].id != TemplateId {
        var nt := NonTemplate(h[1..]);
        assert NonTemplate(h) == [h[0]] + nt;
        forall j | 0 <= j < |nt|
          ensures nt[j].id != h[0].id
        {
          var i :| 0 <= i < |h[1..]| && h[1..][i] == nt[j];
          assert h[i + 1] == nt[j];
        }
      }
    }
  }

  /** What `read_funds` hands to `write_funds` is well formed. */
  lemma ReadFundsWellFormed(s: Sheet)
    requires ReadFunds(s).Scanned?
    ensures WellFormed(ReadFunds(s).funds)
    ensures DistinctPositions(Slots(ReadFunds(s).funds))
  {
    var h := HeaderMap(s);
    var funds := ReadFunds(s).funds;
    ScanColumnsSpec(s, h);
    HeaderMapSpec(s);
    NonTemplateDistinct(h);
    NonTemplateFrom(h);
    var nt := NonTemplate(h);
    forall i, j | 0 <= i < j < |funds|
      ensures funds[i].column != funds[j].column
    {
      HeaderEntryCell(s, h, nt[i]);
      HeaderEntryCell(s, h, nt[j]);
    }
    forall i | 0 <= i < |funds|
      ensures RowsDistinct(funds[i].missing)
    {
      var b := FirstFilled(s, funds[i].column).value;
      assert DatesUpFrom(s, b) == Some(funds[i].missing);
      DatesUpFromSome(s, b);
    }
    SlotsDistinct(funds);
  }

  /**
   * `write_funds` after `read_funds`: each fetched price lands in its own
   * cell, and nothing else changes.
   */
  lemma WriteFundsAfterRead(s: Sheet, data: FundsData)
    requires ReadFunds(s).Scanned?
    ensures var funds := ReadFunds(s).funds;
      forall k :: 0 <= k < |Slots(funds)| && Hit(data, Slots(funds)[k]) ==>
        Get(WriteFunds(s, funds, data).sheet, Slots(funds)[k].pos.row, Slots(funds)[k].pos.col) ==
        PriceCell(PriceOf(data, Slots(funds)[k].id, Slots(funds)[k].date).value)
  {
    ReadFundsWellFormed(s);
  }

  // ---------------------------------------------------------------- buy_funds

  /** Column K, searched by `buy_funds` for the purchase date. */
  const BuyDateCol := 11

  /** How the column search of `buy_funds` ends. */
  datatype ColumnSearch = Found(col: int) | CreateColumn

  /**
   * The search loop after reading row 1 of column `col` (col >= 2): once
   * `col` reaches `max_column` a new column is created, whether or not that
   * last column holds the id.
   */
  function FindColumnFrom(s: Sheet, id: string, col: int): (r: ColumnSearch)
    requires col >= 2
    ensures r.Found? ==> col <= r.col < MaxCol(s) && Get(s, 1, r.col) == Str(id)
    ensures r.Found? ==> forall c :: col <= c < r.col ==> Get(s, 1, c) != Str(id)
    ensures r.CreateColumn? ==> forall c :: col <= c < MaxCol(s) ==> Get(s, 1, c) != Str(id)
    decreases MaxCol(s) - col
  {
    if col >= MaxCol(s) then CreateColumn
    else if Get(s, 1, col) == Str(id) then Found(col)
    else FindColumnFrom(s, id, col + 1)
  }

  /**
   * The column of `buy_funds`: column 1 if its row-1 value is the id, else
   * the first of columns 2 .. `max_column` - 1 that holds it, else a new one.
   */
  function FindColumn(s: Sheet, id: string): (r: ColumnSearch)
    ensures r.Found? ==> 1 <= r.col && (r.col == 1 || r.col < MaxCol(s)) && Get(s, 1, r.col) == Str(id)
    ensures r.Found? ==> forall c :: 1 <= c < r.col ==> Get(s, 1, c) != Str(id)
    ensures r.CreateColumn? <==> forall c :: 1 <= c < MaxCol(s) || c == 1 ==> Get(s, 1, c) != Str(id)
  {
    if Get(s, 1, 1) == Str(id) then Found(1)
    else FindColumnFrom(s, id, 2)
  }

  /** The search from `from` finds the first column holding the id, when that column lies before the last. */
  lemma {:induction false} FindColumnFromAt(s: Sheet, id: string, from: int, col: int)
    requires 2 <= from <= col < MaxCol(s) && Get(s, 1, col) == Str(id)
    requires forall c :: from <= c < col ==> Get(s, 1, c) != Str(id)
    ensures FindColumnFrom(s, id, from) == Found(col)
    decreases col - from
  {
    if from < col {
      FindColumnFromAt(s, id, from + 1, col);
    }
  }

  /** `buy_funds` settles on the first column holding the id: column 1, or one before the last. */
  lemma FindColumnAt(s: Sheet, id: string, col: int)
    requires 1 <= col && (col == 1 || col < MaxCol(s)) && Get(s, 1, col) == Str(id)
    requires forall c :: 1 <= c < col ==> Get(s, 1, c) != Str(id)
    ensures FindColumn(s, id) == Found(col)
  {
    if col > 1 {
      FindColumnFromAt(s, id, 2, col);
    }
  }

  /** The template block: every row, and the last eight columns. */
  function TemplateRange(s: Sheet): Range {
    Range(1, MaxRow(s), MaxCol(s) - 7, MaxCol(s))
  }

  /** The template value at `p` makes the translator raise. */
  predicate RaisesAt(s: Sheet, p: Pos) {
    Untranslatable(Get(s, p.row, p.col))
  }

  /** The copy loop runs row by row and, within a row, column by column: `p` comes before `q`. */
  predicate Before(p: Pos, q: Pos) {
    p.row < q.row || (p.row == q.row && p.col < q.col)
  }

  /** The first cell of row `row`, from column `c` to `c1`, that makes the translator raise. */
  function FirstRaiseInRow(s: Sheet, row: int, c: int, c1: int): (q: Option<Pos>)
    ensures q.Some? ==> q.value.row == row && c <= q.value.col <= c1 && RaisesAt(s, q.value)
    ensures q.Some? ==> forall k :: c <= k < q.value.col ==> !RaisesAt(s, Pos(row, k))
    ensures q.None? ==> forall k :: c <= k <= c1 ==> !RaisesAt(s, Pos(row, k))
    decreases c1 - c
  {
    if c > c1 then None
    else if RaisesAt(s, Pos(row, c)) then Some(Pos(row, c))
    else FirstRaiseInRow(s, row, c + 1, c1)
  }

  /** The first cell of `g`, from row `row` on and in loop order, that makes the translator raise. */
  function FirstRaiseFrom(s: Sheet, g: Range, row: int): (q: Option<Pos>)
    requires g.r0 <= row
    ensures q.Some? ==> g.Contains(q.value) && row <= q.value.row && RaisesAt(s, q.value)
    ensures q.Some? ==> forall p :: g.Contains(p) && row <= p.row && Before(p, q.value) ==> !RaisesAt(s, p)
    ensures q.None? ==> forall p :: g.Contains(p) && row <= p.row ==> !RaisesAt(s, p)
    decreases g.r1 - row
  {
    if row > g.r1 then None
    else
      match FirstRaiseInRow(s, row, g.c0, g.c1)
      case Some(p) => Some(p)
      case None => FirstRaiseFrom(s, g, row + 1)
  }

  /** Where the copy loop raises, if it does. */
  function CopyStop(s: Sheet): Option<Pos> {
    FirstRaiseFrom(s, TemplateRange(s), 1)
  }

  /** The copy loop gets past template cell `p`: it raises nowhere before it. */
  predicate CopiedBefore(stop: Option<Pos>, p: Pos) {
    stop.None? || Before(p, stop.value)
  }

  /** The sheet the copy loop leaves, and whether it ran to the end. */
  datatype TemplateCopy = TemplateCopy(sheet: Sheet, ok: bool)

  /**
   * The copy loop of `_create_new_funds_column`: for every row, and within
   * it every template column, the translated template value is assigned
   * eight columns to the right. At the first value the translator rejects
   * the loop raises, and the assignments made before it stay.
   */
  function CopyTemplate(s: Sheet): (r: TemplateCopy)
  {
    var stop := CopyStop(s);
    TemplateCopy(CopiedSheet(s, TemplateRange(s).Shift(0, 8), stop), stop.None?)
  }

  /**
   * The sheet after the copy loop has assigned every cell of `dest` whose
   * source, eight columns to the left, comes before `stop`.
   */
  function CopiedSheet(s: Sheet, dest: Range, stop: Option<Pos>): Sheet {
    map p | p in s.Keys + dest.Cells() && (p in s.Keys || CopiedBefore(stop, Pos(p.row, p.col - 8))) ::
      CopiedValue(s, dest, stop, p)
  }

  /** The value at `p` after the copy loop stopped at `stop`. */
  function CopiedValue(s: Sheet, dest: Range, stop: Option<Pos>, p: Pos): Cell {
    if dest.Contains(p) && CopiedBefore(stop, Pos(p.row, p.col - 8))
    then TranslateValue(Get(s, p.row, p.col - 8), 0, 8).GetOr(Empty)
    else Get(s, p.row, p.col)
  }

  lemma CopiedSheetAt(s: Sheet, dest: Range, stop: Option<Pos>, row: int, c: int)
    ensures Get(CopiedSheet(s, dest, stop), row, c) ==
      if dest.Contains(Pos(row, c)) && CopiedBefore(stop, Pos(row, c - 8))
      then TranslateValue(Get(s, row, c - 8), 0, 8).GetOr(Empty)
      else Get(s, row, c)
  {
    var p := Pos(row, c);
    var t := CopiedSheet(s, dest, stop);
    if dest.Contains(p) {
      assert p in dest.Cells();
    }
    if p in t {
      assert t[p] == CopiedValue(s, dest, stop, p);
    } else {
      assert CopiedValue(s, dest, stop, p) == Get(s, row, c) == Empty;
    }
  }

  /** (row, c) lies in the block the copy fills: every row, the eight columns after the last. */
  predicate InNewBlock(s: Sheet, row: int, c: int) {
    1 <= row <= MaxRow(s) && MaxCol(s) < c <= MaxCol(s) + 8
  }

  /** Cell by cell, what the copy loop leaves. */
  lemma CopyTemplateAt(s: Sheet, row: int, c: int)
    ensures var t := CopyTemplate(s).sheet;
      if InNewBlock(s, row, c) && CopiedBefore(CopyStop(s), Pos(row, c - 8))
      then Some(Get(t, row, c)) == TranslateValue(Get(s, row, c - 8), 0, 8)
      else Get(t, row, c) == Get(s, row, c)
  {
    var g := TemplateRange(s);
    var stop := CopyStop(s);
    CopiedSheetAt(s, g.Shift(0, 8), stop, row, c);
    assert g.Shift(0, 8).Contains(Pos(row, c)) <==> InNewBlock(s, row, c);
    if g.Shift(0, 8).Contains(Pos(row, c)) && CopiedBefore(stop, Pos(row, c - 8)) {
      assert g.Contains(Pos(row, c - 8));
      assert !RaisesAt(s, Pos(row, c - 8));
    }
  }

  /** Outside the new block the copy changes nothing. */
  lemma CopyTemplateOutside(s: Sheet)
    ensures forall row, c {:trigger Get(CopyTemplate(s).sheet, row, c)} ::
      !InNewBlock(s, row, c) ==> Get(CopyTemplate(s).sheet, row, c) == Get(s, row, c)
  {
    forall row, c | !InNewBlock(s, row, c)
      ensures Get(CopyTemplate(s).sheet, row, c) == Get(s, row, c)
    {
      CopyTemplateAt(s, row, c);
    }
  }

  /** Inside the new block, the cells copied before the stop hold the translation and the others are untouched. */
  lemma CopyTemplateInside(s: Sheet)
    ensures forall row, c {:trigger Get(CopyTemplate(s).sheet, row, c)} :: InNewBlock(s, row, c) ==>
      if CopiedBefore(CopyStop(s), Pos(row, c - 8))
      then Some(Get(CopyTemplate(s).sheet, row, c)) == TranslateValue(Get(s, row, c - 8), 0, 8)
      else Get(CopyTemplate(s).sheet, row, c) == Get(s, row, c)
  {
    forall row, c | InNewBlock(s, row, c)
      ensures if CopiedBefore(CopyStop(s), Pos(row, c - 8))
        then Some(Get(CopyTemplate(s).sheet, row, c)) == TranslateValue(Get(s, row, c - 8), 0, 8)
        else Get(CopyTemplate(s).sheet, row, c) == Get(s, row, c)
    {
      CopyTemplateAt(s, row, c);
    }
  }

  /** The copy runs to the end exactly when no template value is a non-zero number or a date. */
  lemma CopyTemplateOk(s: Sheet)
    ensures CopyTemplate(s).ok <==> forall p :: TemplateRange(s).Contains(p) ==> !RaisesAt(s, p)
  {
    var stop := CopyStop(s);
    if stop.Some? {
      assert TemplateRange(s).Contains(stop.value) && RaisesAt(s, stop.value);
    }
  }

  /** The copy raises at the first raising template cell in loop order, and nowhere else. */
  lemma CopyStopAt(s: Sheet, q: Pos)
    requires TemplateRange(s).Contains(q) && RaisesAt(s, q)
    requires forall p :: TemplateRange(s).Contains(p) && Before(p, q) ==> !RaisesAt(s, p)
    ensures CopyStop(s) == Some(q)
  {
    var stop := CopyStop(s);
    assert stop.Some?;
    var p := stop.value;
    assert !Before(q, p) && !Before(p, q);
  }

  /** How creating a column ends: with the new sheet and the fund's column, or raising. */
  datatype NewColumn = Created(sheet: Sheet, col: int) | CopyFailed(sheet: Sheet)

  /**
   * `_create_new_funds_column`: the last eight columns (the blank template)
   * are copied eight columns to the right, then the id goes into row 1 of
   * the old template's fifth column, which becomes the fund's column, and a
   * link with the fund's `name` into row 3 of the column before it. Fewer
   * than eight columns raise on the first cell; a template value the
   * translator rejects raises part way through the copy.
   */
  function NewFundsColumn(s: Sheet, id: string, name: string): (r: NewColumn)
    ensures r.Created? <==> MaxCol(s) >= 8 && CopyTemplate(s).ok
    ensures r.Created? ==> r.col == MaxCol(s) - 4 && r.col >= 4
    ensures MaxCol(s) < 8 ==> r == CopyFailed(s)
    ensures MaxCol(s) >= 8 && !CopyTemplate(s).ok ==> r == CopyFailed(CopyTemplate(s).sheet)
  {
    var C := MaxCol(s);
    if C - 7 < 1 then CopyFailed(s)
    else
      var cp := CopyTemplate(s);
      if !cp.ok then CopyFailed(cp.sheet)
      else Created(Set(Set(cp.sheet, 1, C - 4, Str(id)), 3, C - 5, Formula(Hyperlink(Str(id), name))), C - 4)
  }

  /** The sheet of a created column: the copy, then the id and the link. */
  lemma NewFundsColumnSheet(s: Sheet, id: string, name: string)
    requires NewFundsColumn(s, id, name).Created?
    ensures NewFundsColumn(s, id, name).sheet ==
      Set(Set(CopyTemplate(s).sheet, 1, MaxCol(s) - 4, Str(id)), 3, MaxCol(s) - 5, Formula(Hyperlink(Str(id), name)))
  {
  }

  /** The two assignments after the copy, on any sheet. */
  lemma IdAndLinkAt(t: Sheet, C: int, id: string, name: string, row: int, c: int)
    ensures Get(Set(Set(t, 1, C - 4, Str(id)), 3, C - 5, Formula(Hyperlink(Str(id), name))), row, c) ==
      if row == 3 && c == C - 5 then Formula(Hyperlink(Str(id), name))
      else if row == 1 && c == C - 4 then Str(id)
      else Get(t, row, c)
  {
  }

  /** Cell by cell, what creating a column does to the sheet. */
  lemma NewFundsColumnAt(s: Sheet, id: string, name: string, row: int, c: int)
    requires NewFundsColumn(s, id, name).Created?
    ensures var t := NewFundsColumn(s, id, name).sheet;
      var C := MaxCol(s);
      if row == 1 && c == C - 4 then Get(t, row, c) == Str(id)
      else if row == 3 && c == C - 5 then Get(t, row, c) == Formula(Hyperlink(Str(id), name))
      else if InNewBlock(s, row, c) then Some(Get(t, row, c)) == TranslateValue(Get(s, row, c - 8), 0, 8)
      else Get(t, row, c) == Get(s, row, c)
  {
    NewFundsColumnSheet(s, id, name);
    IdAndLinkAt(CopyTemplate(s).sheet, MaxCol(s), id, name, row, c);
    CopyTemplateAt(s, row, c);
  }

  /** A created column's block holds, cell by cell, what the translator returns for the template. */
  lemma NewBlockTranslated(s: Sheet, id: string, name: string)
    requires NewFundsColumn(s, id, name).Created?
    ensures var t := NewFundsColumn(s, id, name).sheet;
      forall row, c :: InNewBlock(s, row, c) ==>
        Some(Get(t, row, c)) == TranslateValue(Get(s, row, c - 8), 0, 8) &&
        (Get(t, row, c).Str? || Get(t, row, c).Formula?)
  {
    var t := NewFundsColumn(s, id, name).sheet;
    forall row, c | InNewBlock(s, row, c)
      ensures Some(Get(t, row, c)) == TranslateValue(Get(s, row, c - 8), 0, 8)
    {
      NewFundsColumnAt(s, id, name, row, c);
    }
  }

  /** Outside its block, a created column changes only the id cell and the link cell. */
  lemma NewColumnKeepsRest(s: Sheet, id: string, name: string)
    requires NewFundsColumn(s, id, name).Created?
    ensures var C := MaxCol(s);
      forall row, c :: !InNewBlock(s, row, c) && Pos(row, c) != Pos(1, C - 4) && Pos(row, c) != Pos(3, C - 5) ==>
        Get(NewFundsColumn(s, id, name).sheet, row, c) == Get(s, row, c)
  {
    var C := MaxCol(s);
    forall row, c | !InNewBlock(s, row, c) && Pos(row, c) != Pos(1, C - 4) && Pos(row, c) != Pos(3, C - 5)
      ensures Get(NewFundsColumn(s, id, name).sheet, row, c) == Get(s, row, c)
    {
      NewFundsColumnAt(s, id, name, row, c);
    }
  }

  /**
   * `_create_new_funds_column` on a template the translator accepts: the id
   * goes into row 1 of the old template's fifth column, which the fund
   * takes over, a link with its name into row 3 of the column before, the
   * template block reappears eight columns to the right as the translator
   * returns it, so holding only text and formulas, and every other cell is kept.
   */
  lemma NewFundsColumnSpec(s: Sheet, id: string, name: string)
    requires MaxCol(s) >= 8
    requires forall p :: TemplateRange(s).Contains(p) ==> !RaisesAt(s, p)
    ensures NewFundsColumn(s, id, name).Created? && NewFundsColumn(s, id, name).col == MaxCol(s) - 4
    ensures var t := NewFundsColumn(s, id, name).sheet;
      var col := MaxCol(s) - 4;
      Get(t, 1, col) == Str(id) && Get(t, 3, col - 1) == Formula(Hyperlink(Str(id), name)) &&
      (forall row, c :: InNewBlock(s, row, c) ==>
        Some(Get(t, row, c)) == TranslateValue(Get(s, row, c - 8), 0, 8) &&
        (Get(t, row, c).Str? || Get(t, row, c).Formula?)) &&
      (forall row, c :: !InNewBlock(s, row, c) && Pos(row, c) != Pos(1, col) && Pos(row, c) != Pos(3, col - 1) ==>
        Get(t, row, c) == Get(s, row, c))
  {
    CopyTemplateOk(s);
    var C := MaxCol(s);
    NewFundsColumnAt(s, id, name, 1, C - 4);
    NewFundsColumnAt(s, id, name, 3, C - 5);
    NewBlockTranslated(s, id, name);
    NewColumnKeepsRest(s, id, name);
  }

  /**
   * `_create_new_funds_column` on a template holding a non-zero number or a
   * date: the copy raises at the first such value in loop order, the block
   * before it is already copied, nothing from it on is, and neither the id
   * nor the link is written.
   */
  lemma NewFundsColumnRaises(s: Sheet, id: string, name: string, q: Pos)
    requires MaxCol(s) >= 8
    requires TemplateRange(s).Contains(q) && RaisesAt(s, q)
    requires forall p :: TemplateRange(s).Contains(p) && Before(p, q) ==> !RaisesAt(s, p)
    ensures NewFundsColumn(s, id, name).CopyFailed?
    ensures var t := NewFundsColumn(s, id, name).sheet;
      (forall row, c :: InNewBlock(s, row, c) ==>
        if Before(Pos(row, c - 8), q) then Some(Get(t, row, c)) == TranslateValue(Get(s, row, c - 8), 0, 8)
        else Get(t, row, c) == Get(s, row, c)) &&
      (forall row, c :: !InNewBlock(s, row, c) ==> Get(t, row, c) == Get(s, row, c))
  {
    CopyStopAt(s, q);
    CopyTemplateOk(s);
    CopyTemplateInside(s);
    CopyTemplateOutside(s);
    assert NewFundsColumn(s, id, name) == CopyFailed(CopyTemplate(s).sheet);
  }

  /** How the date search of `buy_funds` ends; `RowError` is a column-K value without `strftime`. */
  datatype RowSearch = RowFound(row: int) | RowMissing | RowError

  /** A column-K value that is the wanted date. */
  predicate DateMatches(c: Cell, date: string) {
    c.Date? && FormatYmd(c.date) == date
  }

  /** A column-K value on which `strftime` raises: neither None nor a date. */
  predicate DateRaises(c: Cell) {
    !c.Empty? && !c.Date?
  }

  /**
   * The date loop after reading row r: the while-condition tests row r, and
   * the next row is given up on once it reaches `max_row`.
   */
  function FindDateRowFrom(s: Sheet, date: string, r: int): (res: RowSearch)
    requires r >= FirstPriceRow
    ensures res.RowFound? ==>
      r <= res.row && (res.row == r || res.row < MaxRow(s)) && DateMatches(Get(s, res.row, BuyDateCol), date)
    ensures res.RowFound? ==> forall q :: r <= q < res.row ==>
      !DateMatches(Get(s, q, BuyDateCol), date) && !DateRaises(Get(s, q, BuyDateCol))
    ensures res.RowMissing? ==> forall q :: r <= q && (q == r || q < MaxRow(s)) ==>
      !DateMatches(Get(s, q, BuyDateCol), date) && !DateRaises(Get(s, q, BuyDateCol))
    ensures res.RowError? ==> exists q :: (r <= q && DateRaises(Get(s, q, BuyDateCol)) &&
      forall q' :: r <= q' < q ==> !DateMatches(Get(s, q', BuyDateCol), date))
    decreases MaxRow(s) - r
  {
    var v := Get(s, r, BuyDateCol);
    if DateRaises(v) then
      assert forall q' :: r <= q' < r ==> !DateMatches(Get(s, q', BuyDateCol), date);
      RowError
    else if DateMatches(v, date) then RowFound(r)
    else if r + 1 >= MaxRow(s) then RowMissing
    else FindDateRowFrom(s, date, r + 1)
  }

  /**
   * The date loop from row `from` finds the first row holding the date when
   * no row before it raises and the row is `from` itself or lies above
   * `max_row`.
   */
  lemma {:induction false} FindDateRowAt(s: Sheet, date: string, from: int, row: int)
    requires FirstPriceRow <= from <= row && (row == from || row < MaxRow(s))
    requires DateMatches(Get(s, row, BuyDateCol), date)
    requires forall q :: from <= q < row ==>
      !DateMatches(Get(s, q, BuyDateCol), date) && !DateRaises(Get(s, q, BuyDateCol))
    ensures FindDateRowFrom(s, date, from) == RowFound(row)
    decreases row - from
  {
    if from < row {
      FindDateRowAt(s, date, from + 1, row);
    }
  }

  /** The date search of `buy_funds`, from row 9. */
  function FindDateRow(s: Sheet, date: string): RowSearch {
    FindDateRowFrom(s, date, FirstPriceRow)
  }

  /** The result of `buy_funds` and the sheet it leaves, written to or not. */
  datatype BuyResult = BuyResult(ok: bool, sheet: Sheet)

  /**
   * The writes of `buy_funds` once the column is known: `float(amount)` at
   * (row, col - 3) and, for a new column, 1.0 below the fund's cell. A date
   * that is not found, an amount `float` rejects, or a column left of D
   * ends the call with False.
   */
  function Purchase(s: Sheet, col: int, isNew: bool, amount: string, date: string): (r: BuyResult)
    ensures r.ok <==> FindDateRow(s, date).RowFound? && ParseFloat(amount).Some? && col - 3 >= 1
    ensures !r.ok ==> r.sheet == s
    ensures r.ok ==> Get(r.sheet, FindDateRow(s, date).row, col - 3) == Num(ParseFloat(amount).value)
    ensures r.ok && isNew ==> Get(r.sheet, FindDateRow(s, date).row + 1, col) == Num(1.0)
    ensures r.ok ==> forall row, c ::
      Pos(row, c) != Pos(FindDateRow(s, date).row, col - 3) &&
      (!isNew || Pos(row, c) != Pos(FindDateRow(s, date).row + 1, col)) ==>
        Get(r.sheet, row, c) == Get(s, row, c)
  {
    match FindDateRow(s, date)
    case RowFound(row) =>
      if ParseFloat(amount).None? || col - 3 < 1 then BuyResult(false, s)
      else
        var t := Set(s, row, col - 3, Num(ParseFloat(amount).value));
        BuyResult(true, if isNew then Set(t, row + 1, col, Num(1.0)) else t)
    case _ => BuyResult(false, s)
  }

  /** A purchase on a found date writes exactly the amount cell and, into a new column, the 1.0 below the fund's cell. */
  lemma PurchaseFound(s: Sheet, col: int, isNew: bool, amount: string, date: string, row: int)
    requires FindDateRow(s, date) == RowFound(row) && ParseFloat(amount).Some? && col >= 4
    ensures var t := Set(s, row, col - 3, Num(ParseFloat(amount).value));
      Purchase(s, col, isNew, amount, date) == BuyResult(true, if isNew then Set(t, row + 1, col, Num(1.0)) else t)
  {
  }

  /**
   * `buy_funds(id, amount, date)`: find the fund's column (creating one when
   * the id is not found), then the row of the date, then record the amount.
   * `name` is what the fund page's title gives for the new column's link.
   * An exception while creating the column ends the call with False and
   * leaves whatever the copy had assigned.
   */
  function BuyFunds(s: Sheet, id: string, amount: string, date: string, name: string): (r: BuyResult)
    ensures FindColumn(s, id).Found? ==> r == Purchase(s, FindColumn(s, id).col, false, amount, date)
    ensures FindColumn(s, id).CreateColumn? && MaxCol(s) < 8 ==> !r.ok && r.sheet == s
    ensures FindColumn(s, id).CreateColumn? && NewFundsColumn(s, id, name).CopyFailed? ==>
      r == BuyResult(false, NewFundsColumn(s, id, name).sheet)
    ensures FindColumn(s, id).CreateColumn? && NewFundsColumn(s, id, name).Created? ==>
      r == Purchase(NewFundsColumn(s, id, name).sheet, MaxCol(s) - 4, true, amount, date)
  {
    match FindColumn(s, id)
    case Found(col) => Purchase(s, col, false, amount, date)
    case CreateColumn =>
      match NewFundsColumn(s, id, name)
      case CopyFailed(t) => BuyResult(false, t)
      case Created(t, col) => Purchase(t, col, true, amount, date)
  }

  /**
   * With the id already in row 1 before the last column, a purchase on a listed date writes the amount in that single cell, three
   * columns left of the id, and touches nothing else.
   */
  lemma BuyExistingFund(s: Sheet, id: string, amount: string, date: string, name: string, col: int, row: int)
    requires 4 <= col < MaxCol(s) && Get(s, 1, col) == Str(id)
    requires forall c :: 1 <= c < col ==> Get(s, 1, c) != Str(id)
    requires row >= FirstPriceRow && (row == FirstPriceRow || row < MaxRow(s))
    requires DateMatches(Get(s, row, BuyDateCol), date)
    requires forall q :: FirstPriceRow <= q < row ==>
      !DateMatches(Get(s, q, BuyDateCol), date) && !DateRaises(Get(s, q, BuyDateCol))
    requires ParseFloat(amount).Some?
    ensures BuyFunds(s, id, amount, date, name).ok
    ensures forall r, c :: (Get(BuyFunds(s, id, amount, date, name).sheet, r, c) ==
      if (r, c) == (row, col - 3) then Num(ParseFloat(amount).value) else Get(s, r, c))
  {
    FindColumnAt(s, id, col);
    FindDateRowAt(s, date, FirstPriceRow, row);
    PurchaseFound(s, col, false, amount, date, row);
  }

  /**
   * With the id nowhere before the last column and a template the
   * translator accepts, `buy_funds` first creates a column; a purchase on a
   * listed date then writes the amount three columns left of the new fund
   * column and 1.0 below the fund's cell.
   */
  lemma BuyNewFund(s: Sheet, id: string, amount: string, date: string, name: string)
    requires forall c :: 1 <= c < MaxCol(s) || c == 1 ==> Get(s, 1, c) != Str(id)
    requires MaxCol(s) >= 8
    requires forall p :: TemplateRange(s).Contains(p) ==> !RaisesAt(s, p)
    requires FindDateRow(NewFundsColumn(s, id, name).sheet, date).RowFound?
    requires ParseFloat(amount).Some?
    ensures var r := BuyFunds(s, id, amount, date, name);
      var t := NewFundsColumn(s, id, name).sheet;
      var row := FindDateRow(t, date).row;
      var col := MaxCol(s) - 4;
      r.ok && Get(r.sheet, 1, col) == Str(id) &&
      Get(r.sheet, row, col - 3) == Num(ParseFloat(amount).value) &&
      Get(r.sheet, row + 1, col) == Num(1.0)
  {
    CopyTemplateOk(s);
    var t := NewFundsColumn(s, id, name).sheet;
    var row := FindDateRow(t, date).row;
    var col := MaxCol(s) - 4;
    NewFundsColumnAt(s, id, name, 1, col);
    PurchaseFound(t, col, true, amount, date, row);
    assert row >= FirstPriceRow;
    assert FindColumn(s, id).CreateColumn?;
    var t1 := Set(t, row, col - 3, Num(ParseFloat(amount).value));
    var t2 := Set(t1, row + 1, col, Num(1.0));
    assert BuyFunds(s, id, amount, date, name) == BuyResult(true, t2);
    assert Get(t1, 1, col) == Str(id) && Get(t2, 1, col) == Get(t1, 1, col);
    assert Get(t2, row, col - 3) == Get(t1, row, col - 3);
  }

  /**
   * With the id nowhere before the last column and a non-zero number or a
   * date in the template, `buy_funds` returns False: no amount is recorded
   * and the id is not written, whatever the date and the amount.
   */
  lemma BuyNewFundRaises(s: Sheet, id: string, amount: string, date: string, name: string, q: Pos)
    requires forall c :: 1 <= c < MaxCol(s) || c == 1 ==> Get(s, 1, c) != Str(id)
    requires MaxCol(s) >= 8
    requires TemplateRange(s).Contains(q) && RaisesAt(s, q)
    ensures var r := BuyFunds(s, id, amount, date, name);
      !r.ok && forall row, c :: c <= MaxCol(s) ==> Get(r.sheet, row, c) == Get(s, row, c)
  {
    CopyTemplateOk(s);
    assert FindColumn(s, id).CreateColumn?;
    var t := NewFundsColumn(s, id, name).sheet;
    forall row, c | c <= MaxCol(s)
      ensures Get(t, row, c) == Get(s, row, c)
    {
      CopyTemplateAt(s, row, c);
    }
  }
}
