/**
 * The job orchestration of the controller: the three jobs (funds, rankings,
 * one top-50 category) and `start`, which runs them in order and saves.
 *
 * The model is a sequential state machine. The cancel flag is written by
 * another thread, so each poll reads the next value of an arbitrary flag
 * stream; each page load draws the next jitter and shows the next page of
 * an arbitrary page stream. Progress signals, fetches, writes, the export
 * and the save are recorded as events of a trace.
 */
module Controller {
  import opened Wrappers
  import opened Sheets
  import opened WebScraper
  import FundsSheet
  import RankingSheet
  import TopSheet
  import Calendar

  // ---------------------------------------------------------------- environment

  /** One page as the parsers see it, whichever parser reads it. */
  datatype PageView = PageView(load: Load, table: Option<seq<Row>>, ranking: Option<RankingPage>, top: Option<seq<TopRow>>)

  /**
   * Everything outside the controller: the scraper's settings, the flag
   * value of each poll, the jitter and the page of each load, and the link
   * names `_get_name_from_id` looks up for the in-place ranking branch.
   * `today` is what `datetime.now()` reads before the top categories.
   */
  datatype Env = Env(cfg: Config, flag: nat -> bool, jitter: nat -> Jitter, pages: nat -> PageView, nameOf: Cell -> string,
                     today: Calendar.DateFields)

  // ---------------------------------------------------------------- state

  /** The manager's workbook and the results of its last successful reads. */
  datatype Manager = Manager(book: Workbook, missingFunds: Option<seq<FundsSheet.MissingFund>>, rankingIds: Option<seq<RankingSheet.RankingId>>)

  /** What a fetch loop fetches: the funds page or the ranking page of an id. */
  datatype Target = FundOf(id: Cell) | RankingOf(id: Cell)

  /** What the controller does that can be observed. */
  datatype Event =
    | Total(n: nat)                                        // progress_callback_num.emit(len(...))
    | Tick                                                 // progress_callback_num.emit(-1)
    | Fetched(target: Target)                              // parse_funding_page / parse_ranking_page
    | FetchedTop(hash: string)                             // parse_top of one category
    | WroteFunds(ok: bool)                                 // write_funds returned
    | WroteRankings(sheet: string, ids: seq<TopEntry>, ok: bool)  // write_rankings returned
    | Exported(data: ScrapeData)                           // export_data
    | Closed(book: Workbook)                               // the workbook saved and closed

  /** How the run stands: still going, returned from `start`, ended by an exception, or stuck in a loop. */
  datatype Exit = Running | Returns(value: bool) | Throws | Hangs

  /** The whole state: polls and loads count how much of each stream has been used. */
  datatype Run = Run(exit: Exit, mgr: Manager, data: ScrapeData, polls: nat, loads: nat, trace: seq<Event>)

  /** Read the flag: the next value of the stream. */
  function Poll(env: Env, r: Run): (res: (bool, Run))
    ensures res.0 == env.flag(r.polls) && res.1 == r.(polls := r.polls + 1)
  {
    (env.flag(r.polls), r.(polls := r.polls + 1))
  }

  /** Append an event. */
  function Emit(r: Run, e: Event): Run {
    r.(trace := r.trace + [e])
  }

  // ---------------------------------------------------------------- trace measures

  /** The sum of a weight over the events of a trace. */
  function Weight(t: seq<Event>, w: Event -> nat): nat
    decreases |t|
  {
    if t == [] then 0 else w(t[0]) + Weight(t[1..], w)
  }

  /** The concatenation of what each event of a trace contributes. */
  function Collect<U>(t: seq<Event>, f: Event -> seq<U>): seq<U>
    decreases |t|
  {
    if t == [] then [] else f(t[0]) + Collect(t[1..], f)
  }

  lemma {:induction false} WeightAppend(a: seq<Event>, b: seq<Event>, w: Event -> nat)
    ensures Weight(a + b, w) == Weight(a, w) + Weight(b, w)
    decreases |a|
  {
    if a == [] {
      assert a + b == b;
    } else {
      assert (a + b)[0] == a[0];
      assert (a + b)[1..] == a[1..] + b;
      WeightAppend(a[1..], b, w);
    }
  }

  lemma {:induction false} CollectAppend<U>(a: seq<Event>, b: seq<Event>, f: Event -> seq<U>)
    ensures Collect(a + b, f) == Collect(a, f) + Collect(b, f)
    decreases |a|
  {
    if a == [] {
      assert a + b == b;
    } else {
      assert (a + b)[0] == a[0];
      assert (a + b)[1..] == a[1..] + b;
      CollectAppend(a[1..], b, f);
    }
  }

  function TickWeight(e: Event): nat { if e.Tick? then 1 else 0 }
  function TotalWeight(e: Event): nat { if e.Total? then e.n else 0 }
  function WriteWeight(e: Event): nat { if e.WroteFunds? || e.WroteRankings? then 1 else 0 }
  function SaveWeight(e: Event): nat { if e.Exported? || e.Closed? then 1 else 0 }
  function FetchOf(e: Event): seq<Target> { if e.Fetched? then [e.target] else [] }
  function HashOf(e: Event): seq<string> { if e.FetchedTop? then [e.hash] else [] }

  /** The number of `-1` increments. */
  function Ticks(t: seq<Event>): nat { Weight(t, TickWeight) }

  /** The sum of the announced totals. */
  function Announced(t: seq<Event>): nat { Weight(t, TotalWeight) }

  /** The number of sheet writes. */
  function Writes(t: seq<Event>): nat { Weight(t, WriteWeight) }

  /** The number of exports and saves. */
  function Saves(t: seq<Event>): nat { Weight(t, SaveWeight) }

  /** The page fetches, in order. */
  function Fetches(t: seq<Event>): seq<Target> { Collect(t, FetchOf) }

  /** The top-list hashes fetched, in order. */
  function TopHashes(t: seq<Event>): seq<string> { Collect(t, HashOf) }

  /** Every measure of a trace grown by one event. */
  lemma EmitMeasures(t: seq<Event>, e: Event)
    ensures Ticks(t + [e]) == Ticks(t) + TickWeight(e)
    ensures Announced(t + [e]) == Announced(t) + TotalWeight(e)
    ensures Writes(t + [e]) == Writes(t) + WriteWeight(e)
    ensures Saves(t + [e]) == Saves(t) + SaveWeight(e)
    ensures Fetches(t + [e]) == Fetches(t) + FetchOf(e)
    ensures TopHashes(t + [e]) == TopHashes(t) + HashOf(e)
  {
    WeightAppend(t, [e], TickWeight);
    WeightAppend(t, [e], TotalWeight);
    WeightAppend(t, [e], WriteWeight);
    WeightAppend(t, [e], SaveWeight);
    CollectAppend(t, [e], FetchOf);
    CollectAppend(t, [e], HashOf);
  }

  /** A trace with no export or save holds neither event anywhere. */
  lemma {:induction false} NoSaveAnywhere(t: seq<Event>, i: int)
    requires Saves(t) == 0 && 0 <= i < |t|
    ensures !t[i].Exported? && !t[i].Closed?
    decreases |t|
  {
    assert Saves(t) == SaveWeight(t[0]) + Saves(t[1..]);
    if i > 0 {
      NoSaveAnywhere(t[1..], i - 1);
    }
  }

  // ---------------------------------------------------------------- manager calls

  /** The sheet `read_funds` and `write_funds` use. */
  const FundsSheetName := "基金日记"

  /** The sheet `read_rankings` and the in-place `write_rankings` use. */
  const RankingsSheetName := "基金排队"

  /** How `read_funds` ended: stuck in the scan, or returned. */
  datatype ReadOutcome = ReadHangs | ReadDone(mgr: Manager, ok: bool)

  /**
   * `read_funds`: a missing sheet or a failing scan is caught and returns
   * False, leaving `missing_funds` as it was; a scan that never ends hangs.
   */
  function ManagerReadFunds(m: Manager): (o: ReadOutcome)
    ensures o.ReadHangs? <==> FundsSheetName in m.book && FundsSheet.ReadFunds(m.book[FundsSheetName]).ScanHangs?
    ensures o.ReadDone? ==> o.mgr.book == m.book && o.mgr.rankingIds == m.rankingIds
    ensures o.ReadDone? ==> (o.ok <==> FundsSheetName in m.book && FundsSheet.ReadFunds(m.book[FundsSheetName]).Scanned?)
    ensures o.ReadDone? && o.ok ==> o.mgr.missingFunds == Some(FundsSheet.ReadFunds(m.book[FundsSheetName]).funds)
    ensures o.ReadDone? && !o.ok ==> o.mgr == m
  {
    if FundsSheetName !in m.book then ReadDone(m, false)
    else
      match FundsSheet.ReadFunds(m.book[FundsSheetName])
      case Scanned(fs) => ReadDone(m.(missingFunds := Some(fs)), true)
      case ScanFailed => ReadDone(m, false)
      case ScanHangs => ReadHangs
  }

  /** `read_rankings`: a missing sheet returns False; otherwise the kept id cells are stored. */
  function ManagerReadRankings(m: Manager): (res: (Manager, bool))
    ensures res.0.book == m.book && res.0.missingFunds == m.missingFunds
    ensures res.1 <==> RankingsSheetName in m.book
    ensures res.1 ==> res.0.rankingIds == Some(RankingSheet.ReadRankings(m.book[RankingsSheetName]))
    ensures !res.1 ==> res.0 == m
  {
    if RankingsSheetName !in m.book then (m, false)
    else (m.(rankingIds := Some(RankingSheet.ReadRankings(m.book[RankingsSheetName]))), true)
  }

  /**
   * `write_funds`: a missing sheet, or `missing_funds` still None, is caught
   * and returns False with nothing written; otherwise only the funds sheet
   * changes, to what the sheet-level write leaves.
   */
  function ManagerWriteFunds(m: Manager, data: FundsSheet.FundsData): (res: (Manager, bool))
    ensures res.0.missingFunds == m.missingFunds && res.0.rankingIds == m.rankingIds
    ensures res.1 <==> FundsSheetName in m.book && m.missingFunds.Some?
    ensures !res.1 ==> res.0 == m
    ensures res.1 ==> res.0.book == m.book[FundsSheetName :=
      FundsSheet.WriteFunds(m.book[FundsSheetName], m.missingFunds.value, data).sheet]
  {
    if FundsSheetName !in m.book || m.missingFunds.None? then (m, false)
    else
      var w := FundsSheet.WriteFunds(m.book[FundsSheetName], m.missingFunds.value, data);
      (m.(book := m.book[FundsSheetName := w.sheet]), true)
  }

  // ---------------------------------------------------------------- fetch loops

  /** One page fetch: the next load of the page stream, read by the target's parser; its result is dropped. */
  function FetchOne(env: Env, r: Run, t: Target): (res: Run)
    requires r.exit == Running
    ensures res.exit == Running || res.exit == Throws
    ensures res.exit == Throws <==> Pause(env.cfg, env.jitter(r.loads)) < 0
    ensures res.mgr == r.mgr && res.polls == r.polls && res.loads == r.loads + 1
    ensures res.data.top == r.data.top
    ensures res.trace == r.trace + [Fetched(t)]
  {
    var page := env.pages(r.loads);
    var jitter := env.jitter(r.loads);
    var f := match t
      case FundOf(id) => ParseFundingPage(r.data, id, env.cfg, jitter, page.load, page.table)
      case RankingOf(id) => ParseRankingPage(r.data, id, env.cfg, jitter, page.load, page.ranking);
    var r1 := Emit(r.(loads := r.loads + 1), Fetched(t));
    if f.Raised? then r1.(exit := Throws) else r1.(data := f.data)
  }

  /**
   * `scrape_funds` and `scrape_rankings`: fetch each target in order,
   * ignoring the result; poll the flag after each fetch and return on
   * False before the `-1` increment, else emit it and go on.
   */
  function ScrapeFrom(env: Env, r: Run, targets: seq<Target>): (res: Run)
    ensures r.exit != Running ==> res == r
    ensures r.exit == Running ==> res.exit == Running || res.exit == Throws
    ensures res.mgr == r.mgr && res.data.top == r.data.top && res.polls >= r.polls
    decreases |targets|
  {
    if r.exit != Running || targets == [] then r
    else
      var r1 := FetchOne(env, r, targets[0]);
      if r1.exit != Running then r1
      else if !env.flag(r1.polls) then r1.(polls := r1.polls + 1)
      else ScrapeFrom(env, Emit(r1.(polls := r1.polls + 1), Tick), targets[1..])
  }

  /**
   * The loop adds only fetches and increments, at most one increment per
   * target: no total, write, export, save or top-list fetch.
   */
  lemma {:induction false} ScrapeMeasures(env: Env, r: Run, targets: seq<Target>)
    ensures var res := ScrapeFrom(env, r, targets);
      Ticks(res.trace) <= Ticks(r.trace) + |targets| &&
      Announced(res.trace) == Announced(r.trace) && Writes(res.trace) == Writes(r.trace) &&
      Saves(res.trace) == Saves(r.trace) && TopHashes(res.trace) == TopHashes(r.trace)
    decreases |targets|
  {
    if r.exit == Running && targets != [] {
      var r1 := FetchOne(env, r, targets[0]);
      EmitMeasures(r.trace, Fetched(targets[0]));
      if r1.exit == Running && env.flag(r1.polls) {
        EmitMeasures(r1.trace, Tick);
        ScrapeMeasures(env, Emit(r1.(polls := r1.polls + 1), Tick), targets[1..]);
      }
    }
  }

  /** Reference: how many polls from `from` on read True before the first False, at most n. */
  function LeadingTrue(flag: nat -> bool, from: nat, n: nat): (k: nat)
    ensures k <= n
    ensures forall j :: from <= j < from + k ==> flag(j)
    ensures k < n ==> !flag(from + k)
    decreases n
  {
    if n == 0 || !flag(from) then 0 else 1 + LeadingTrue(flag, from + 1, n - 1)
  }

  /** How many of n targets a loop polling from `from` fetches: all, or up to the first False poll. */
  function Reached(flag: nat -> bool, from: nat, n: nat): (m: nat)
    ensures m <= n
    ensures (forall j :: from <= j < from + n ==> flag(j)) ==> m == n
  {
    var k := LeadingTrue(flag, from, n);
    if k == n then n else k + 1
  }

  /** The events of fetch rounds run to the end: each fetch followed by its increment. */
  function Rounds(ts: seq<Target>): seq<Event>
    decreases |ts|
  {
    if ts == [] then [] else [Fetched(ts[0]), Tick] + Rounds(ts[1..])
  }

  lemma {:induction false} RoundsMeasures(ts: seq<Target>)
    ensures Fetches(Rounds(ts)) == ts && Ticks(Rounds(ts)) == |ts|
    decreases |ts|
  {
    if ts != [] {
      RoundsMeasures(ts[1..]);
      EmitMeasures([Fetched(ts[0])], Tick);
      assert [Fetched(ts[0])] + [Tick] == [Fetched(ts[0]), Tick];
      WeightAppend([Fetched(ts[0]), Tick], Rounds(ts[1..]), TickWeight);
      CollectAppend([Fetched(ts[0]), Tick], Rounds(ts[1..]), FetchOf);
    }
  }

  /** One full round in front of the rest of the rounds. */
  lemma RoundsStep(t: seq<Event>, ts: seq<Target>)
    requires ts != []
    ensures t + [Fetched(ts[0])] + [Tick] + Rounds(ts[1..]) == t + Rounds(ts)
  {
  }

  /** One full round in front of a stopped rest: the rounds before the stop, then the last fetch. */
  lemma RoundsStoppedStep(t: seq<Event>, ts: seq<Target>, k: nat)
    requires 0 < k < |ts|
    ensures t + [Fetched(ts[0])] + [Tick] + Rounds(ts[1..][..k - 1]) + [Fetched(ts[1..][k - 1])] ==
      t + Rounds(ts[..k]) + [Fetched(ts[k])]
  {
    assert ts[..k][1..] == ts[1..][..k - 1];
    assert Rounds(ts[..k]) == [Fetched(ts[0]), Tick] + Rounds(ts[1..][..k - 1]);
  }

  /** Stopped at the first poll: only the first fetch. */
  lemma StoppedAtFirst(t: seq<Event>, ts: seq<Target>)
    requires ts != []
    ensures t + Rounds(ts[..0]) + [Fetched(ts[0])] == t + [Fetched(ts[0])]
  {
    assert ts[..0] == [];
  }

  /** A round followed by a run stopped after k - 1 more rounds is a run stopped after k rounds. */
  lemma StoppedStepShape(r: Run, r3: Run, res: Run, ts: seq<Target>, k: nat)
    requires 0 < k < |ts|
    requires r3.trace == r.trace + [Fetched(ts[0])] + [Tick] && r3.polls == r.polls + 1 && r3.loads == r.loads + 1
    requires res.polls == r3.polls + (k - 1) + 1 && res.loads == r3.loads + (k - 1) + 1
    requires res.trace == r3.trace + Rounds(ts[1..][..k - 1]) + [Fetched(ts[1..][k - 1])]
    ensures res.polls == r.polls + k + 1 && res.loads == r.loads + k + 1
    ensures res.trace == r.trace + Rounds(ts[..k]) + [Fetched(ts[k])]
  {
    RoundsStoppedStep(r.trace, ts, k);
  }

  /** The measures of a trace followed by complete rounds. */
  lemma RoundsAppended(t: seq<Event>, ts: seq<Target>)
    ensures Fetches(t + Rounds(ts)) == Fetches(t) + ts
    ensures Ticks(t + Rounds(ts)) == Ticks(t) + |ts|
  {
    WeightAppend(t, Rounds(ts), TickWeight);
    CollectAppend(t, Rounds(ts), FetchOf);
    RoundsMeasures(ts);
  }

  /** The measures of a trace followed by k complete rounds and the fetch of the next target. */
  lemma RoundsStopped(t: seq<Event>, ts: seq<Target>, k: nat)
    requires k < |ts|
    ensures Fetches(t + Rounds(ts[..k]) + [Fetched(ts[k])]) == Fetches(t) + ts[..k + 1]
    ensures Ticks(t + Rounds(ts[..k]) + [Fetched(ts[k])]) == Ticks(t) + k
  {
    RoundsAppended(t, ts[..k]);
    EmitMeasures(t + Rounds(ts[..k]), Fetched(ts[k]));
    assert ts[..k] + [ts[k]] == ts[..k + 1];
  }

  /** With every poll True, the loop fetches every target once, in order, each followed by its increment. */
  lemma {:induction false} ScrapeComplete(env: Env, r: Run, targets: seq<Target>)
    requires r.exit == Running
    requires forall j :: r.polls <= j < r.polls + |targets| ==> env.flag(j)
    ensures var res := ScrapeFrom(env, r, targets);
      res.exit == Running ==>
        res.polls == r.polls + |targets| && res.loads == r.loads + |targets| &&
        res.trace == r.trace + Rounds(targets)
    decreases |targets|
  {
    if targets != [] {
      var r1 := FetchOne(env, r, targets[0]);
      if r1.exit == Running {
        assert env.flag(r1.polls);
        var r3 := Emit(r1.(polls := r1.polls + 1), Tick);
        assert ScrapeFrom(env, r, targets) == ScrapeFrom(env, r3, targets[1..]);
        ScrapeComplete(env, r3, targets[1..]);
        RoundsStep(r.trace, targets);
      }
    }
  }

  /** With a False first poll, the loop fetches the first target only and returns. */
  lemma ScrapeStoppedFirst(env: Env, r: Run, targets: seq<Target>)
    requires r.exit == Running && 0 < |targets|
    requires !env.flag(r.polls)
    ensures var res := ScrapeFrom(env, r, targets);
      res.exit == Running ==>
        res.polls == r.polls + 1 && res.loads == r.loads + 1 &&
        res.trace == r.trace + Rounds(targets[..0]) + [Fetched(targets[0])]
  {
    var r1 := FetchOne(env, r, targets[0]);
    if r1.exit == Running {
      assert ScrapeFrom(env, r, targets) == r1.(polls := r1.polls + 1);
      StoppedAtFirst(r.trace, targets);
    }
  }

  /**
   * With k True polls and then a False one, the loop fetches k + 1 targets
   * and returns without the last fetch's increment.
   */
  lemma {:induction false} ScrapeStopped(env: Env, r: Run, targets: seq<Target>, k: nat)
    requires r.exit == Running && k < |targets|
    requires forall j :: r.polls <= j < r.polls + k ==> env.flag(j)
    requires !env.flag(r.polls + k)
    ensures var res := ScrapeFrom(env, r, targets);
      res.exit == Running ==>
        res.polls == r.polls + k + 1 && res.loads == r.loads + k + 1 &&
        res.trace == r.trace + Rounds(targets[..k]) + [Fetched(targets[k])]
    decreases k
  {
    if k == 0 {
      ScrapeStoppedFirst(env, r, targets);
    } else {
      var r1 := FetchOne(env, r, targets[0]);
      if r1.exit == Running {
        assert env.flag(r1.polls);
        var r3 := Emit(r1.(polls := r1.polls + 1), Tick);
        assert ScrapeFrom(env, r, targets) == ScrapeFrom(env, r3, targets[1..]);
        ScrapeStopped(env, r3, targets[1..], k - 1);
        var res := ScrapeFrom(env, r3, targets[1..]);
        if res.exit == Running {
          StoppedStepShape(r, r3, res, targets, k);
        }
      }
    }
  }

  /**
   * The fetch loop is decided by the flags alone: it fetches the first
   * `Reached` targets in order, one load and one poll each, and emits one
   * increment per leading True poll. A page that fails to load or parse
   * changes none of this.
   */
  lemma ScrapeFromSpec(env: Env, r: Run, targets: seq<Target>)
    requires r.exit == Running
    ensures var res := ScrapeFrom(env, r, targets);
      var n := Reached(env.flag, r.polls, |targets|);
      res.exit == Running ==>
        Fetches(res.trace) == Fetches(r.trace) + targets[..n] &&
        Ticks(res.trace) == Ticks(r.trace) + LeadingTrue(env.flag, r.polls, |targets|) &&
        res.polls == r.polls + n && res.loads == r.loads + n
  {
    var res := ScrapeFrom(env, r, targets);
    var k := LeadingTrue(env.flag, r.polls, |targets|);
    if res.exit == Running {
      if k == |targets| {
        ScrapeComplete(env, r, targets);
        CompleteShape(r, res, targets);
      } else {
        ScrapeStopped(env, r, targets, k);
        StoppedShape(r, res, targets, k);
      }
    }
  }

  /** The measures of a run that went through every round. */
  lemma CompleteShape(r: Run, res: Run, targets: seq<Target>)
    requires res.polls == r.polls + |targets| && res.loads == r.loads + |targets|
    requires res.trace == r.trace + Rounds(targets)
    ensures Fetches(res.trace) == Fetches(r.trace) + targets[..|targets|]
    ensures Ticks(res.trace) == Ticks(r.trace) + |targets|
  {
    RoundsAppended(r.trace, targets);
    assert targets[..|targets|] == targets;
  }

  /** The measures of a run stopped after k rounds and one more fetch. */
  lemma StoppedShape(r: Run, res: Run, targets: seq<Target>, k: nat)
    requires k < |targets|
    requires res.trace == r.trace + Rounds(targets[..k]) + [Fetched(targets[k])]
    ensures Fetches(res.trace) == Fetches(r.trace) + targets[..k + 1]
    ensures Ticks(res.trace) == Ticks(r.trace) + k
  {
    RoundsStopped(r.trace, targets, k);
  }

  /** Runs that differ only in the fetched data. */
  predicate SameButData(a: Run, b: Run) {
    a.exit == b.exit && a.mgr == b.mgr && a.polls == b.polls && a.loads == b.loads && a.trace == b.trace
  }

  /** One fetch: what the page holds changes the fetched data and nothing else. */
  lemma FetchIgnoresPages(env: Env, pages: nat -> PageView, r: Run, r': Run, t: Target)
    requires SameButData(r, r') && r.exit == Running
    ensures SameButData(FetchOne(env, r, t), FetchOne(env.(pages := pages), r', t))
  {
  }

  /**
   * Fetch results are ignored: what the pages hold changes the fetched data
   * and nothing else, not the fetches, the polls, the increments or the
   * outcome.
   */
  lemma {:induction false} ScrapeIgnoresPages(env: Env, pages: nat -> PageView, r: Run, r': Run, targets: seq<Target>)
    requires SameButData(r, r')
    ensures SameButData(ScrapeFrom(env, r, targets), ScrapeFrom(env.(pages := pages), r', targets))
    decreases |targets|
  {
    var env' := env.(pages := pages);
    if r.exit == Running && targets != [] {
      var r1 := FetchOne(env, r, targets[0]);
      var r1' := FetchOne(env', r', targets[0]);
      FetchIgnoresPages(env, pages, r, r', targets[0]);
      if r1.exit == Running && env.flag(r1.polls) {
        var r2 := Emit(r1.(polls := r1.polls + 1), Tick);
        var r2' := Emit(r1'.(polls := r1'.polls + 1), Tick);
        assert ScrapeFrom(env, r, targets) == ScrapeFrom(env, r2, targets[1..]);
        assert ScrapeFrom(env', r', targets) == ScrapeFrom(env', r2', targets[1..]);
        ScrapeIgnoresPages(env, pages, r2, r2', targets[1..]);
      }
    }
  }

  /** The targets of `scrape_funds`: each fund of the scan, in scan order. */
  function FundTargets(fs: seq<FundsSheet.MissingFund>): (ts: seq<Target>)
    ensures |ts| == |fs|
    ensures forall k :: 0 <= k < |fs| ==> ts[k] == FundOf(fs[k].id)
    decreases |fs|
  {
    if fs == [] then [] else [FundOf(fs[0].id)] + FundTargets(fs[1..])
  }

  /** The targets of the in-place `scrape_rankings`: each kept id cell, top to bottom. */
  function RankingTargets(ids: seq<RankingSheet.RankingId>): (ts: seq<Target>)
    ensures |ts| == |ids|
    ensures forall k :: 0 <= k < |ids| ==> ts[k] == RankingOf(ids[k].id)
    decreases |ids|
  {
    if ids == [] then [] else [RankingOf(ids[0].id)] + RankingTargets(ids[1..])
  }

  /** The targets of the top `scrape_rankings`: each entry's id, in list order. */
  function TopTargets(entries: seq<TopEntry>): (ts: seq<Target>)
    ensures |ts| == |entries|
    ensures forall k :: 0 <= k < |entries| ==> ts[k] == RankingOf(Str(entries[k].id))
    decreases |entries|
  {
    if entries == [] then [] else [RankingOf(Str(entries[0].id))] + TopTargets(entries[1..])
  }

  // ---------------------------------------------------------------- jobs

  /** A top-50 category: the sheet it is written to and the hash of its list page. */
  datatype Category = Category(sheet: string, hash: string)

  /** The five categories `start` runs, in order. */
  const TopCategories := [
    Category("top50混合", "thh"),
    Category("top50股票", "tgp"),
    Category("top50指数", "tzs"),
    Category("top50债券", "tzq"),
    Category("top50QDII", "tqdii")]

  /** The three `*_thread_worker` jobs. */
  datatype Job = FundsJob | RankingsJob | TopJob(category: Category)

  /** The write a job ends with: `write_funds`, or `write_rankings` on a sheet with the fetched top list or with none. */
  datatype Writer = IntoFunds | IntoRankings(sheet: string, withTop: bool)

  /** What the steps before the fetch loop leave: the run stopped by an exception or a hang, or the loop's targets and the job's write. */
  datatype Prep = Stopped(r: Run) | Prepared(r: Run, targets: seq<Target>, w: Writer)

  /** The targets a job's loop fetches, as its read or its top-list fetch left them in the run. */
  function TargetsOf(r: Run, job: Job): seq<Target> {
    match job
    case FundsJob => if r.mgr.missingFunds.Some? then FundTargets(r.mgr.missingFunds.value) else []
    case RankingsJob => if r.mgr.rankingIds.Some? then RankingTargets(r.mgr.rankingIds.value) else []
    case TopJob(_) => TopTargets(r.data.top)
  }

  /** The write each job ends with. */
  function WriterOf(job: Job): Writer {
    match job
    case FundsJob => IntoFunds
    case RankingsJob => IntoRankings(RankingsSheetName, false)
    case TopJob(c) => IntoRankings(c.sheet, true)
  }

  /**
   * The steps between the entry poll and the total: `read_funds` and
   * `read_rankings`, whose `len` raises when the attribute is still None,
   * or `parse_top`, whose pause may raise.
   */
  function Prepare(env: Env, r: Run, job: Job): (p: Prep)
    requires r.exit == Running
    ensures p.r.polls == r.polls && p.r.mgr.book == r.mgr.book
    ensures p.Prepared? ==> p.r.exit == Running && p.targets == TargetsOf(p.r, job) && p.w == WriterOf(job)
    ensures p.Stopped? ==> p.r.exit == Throws || p.r.exit == Hangs
    ensures !job.TopJob? ==> p.r.data == r.data && p.r.trace == r.trace
    ensures job.TopJob? ==> p.r.trace == r.trace + [FetchedTop(job.category.hash)]
    ensures Ticks(p.r.trace) == Ticks(r.trace) && Announced(p.r.trace) == Announced(r.trace)
    ensures Writes(p.r.trace) == Writes(r.trace) && Saves(p.r.trace) == Saves(r.trace)
    ensures TopHashes(p.r.trace) == TopHashes(r.trace) + (if job.TopJob? then [job.category.hash] else [])
    ensures Fetches(p.r.trace) == Fetches(r.trace)
  {
    EmitMeasures(r.trace, FetchedTop(if job.TopJob? then job.category.hash else ""));
    match job
    case FundsJob =>
      (match ManagerReadFunds(r.mgr)
       case ReadHangs => Stopped(r.(exit := Hangs))
       case ReadDone(m, _) =>
         if m.missingFunds.None? then Stopped(r.(mgr := m, exit := Throws))
         else Prepared(r.(mgr := m), FundTargets(m.missingFunds.value), IntoFunds))
    case RankingsJob =>
      var (m, _) := ManagerReadRankings(r.mgr);
      if m.rankingIds.None? then Stopped(r.(mgr := m, exit := Throws))
      else Prepared(r.(mgr := m), RankingTargets(m.rankingIds.value), WriterOf(job))
    case TopJob(c) =>
      var page := env.pages(r.loads);
      var r1 := Emit(r.(loads := r.loads + 1), FetchedTop(c.hash));
      match ParseTop(r.data, env.cfg, env.jitter(r.loads), page.load, page.top)
      case Raised => Stopped(r1.(exit := Throws))
      case Done(d, _) => Prepared(r1.(data := d), TopTargets(d.top), WriterOf(job))
  }

  /**
   * The job's write. `write_funds` catches its own errors; `write_rankings`
   * looks its sheet up outside its `try`, so a missing sheet raises. The
   * top job hands over its fetched list in order; the rankings job hands
   * over none, which selects the in-place branch.
   */
  function ApplyWrite(env: Env, r: Run, w: Writer): (res: Run)
    requires r.exit == Running
    ensures res.exit == Running || res.exit == Throws
    ensures res.exit == Throws <==> w.IntoRankings? && w.sheet !in r.mgr.book
    ensures res.exit == Throws ==> res.mgr == r.mgr && res.trace == r.trace
    ensures res.polls == r.polls && res.loads == r.loads && res.data == r.data
    ensures res.mgr.missingFunds == r.mgr.missingFunds && res.mgr.rankingIds == r.mgr.rankingIds
    ensures res.exit == Running && w.IntoFunds? ==>
      var (m, ok) := ManagerWriteFunds(r.mgr, r.data.funds);
      res.mgr == m && res.trace == r.trace + [WroteFunds(ok)]
    ensures res.exit == Running && w.IntoRankings? ==>
      var ids := if w.withTop then r.data.top else [];
      var out := TopSheet.WriteRankings(r.mgr.book, w.sheet, r.data.ranking, ids, env.nameOf);
      out.Some? && res.mgr.book == out.value.book && res.trace == r.trace + [WroteRankings(w.sheet, ids, out.value.ok)]
  {
    match w
    case IntoFunds =>
      var (m, ok) := ManagerWriteFunds(r.mgr, r.data.funds);
      Emit(r.(mgr := m), WroteFunds(ok))
    case IntoRankings(sheet, withTop) =>
      var ids := if withTop then r.data.top else [];
      match TopSheet.WriteRankings(r.mgr.book, sheet, r.data.ranking, ids, env.nameOf)
      case None => r.(exit := Throws)
      case Some(out) => Emit(r.(mgr := r.mgr.(book := out.book)), WroteRankings(sheet, ids, out.ok))
  }

  /** The flag check after the fetch loop: on False the write is skipped. */
  function Finally(env: Env, r: Run, w: Writer): (res: Run)
    ensures r.exit != Running ==> res == r
    ensures r.exit == Running ==> res.polls == r.polls + 1 && (res.exit == Running || res.exit == Throws)
    ensures res.data == r.data && res.loads == r.loads
    ensures res.mgr.missingFunds == r.mgr.missingFunds && res.mgr.rankingIds == r.mgr.rankingIds
    ensures Writes(res.trace) == Writes(r.trace) + (if r.exit == Running && env.flag(r.polls) && res.exit == Running then 1 else 0)
    ensures Writes(res.trace) == Writes(r.trace) ==> res.mgr.book == r.mgr.book
    ensures Ticks(res.trace) == Ticks(r.trace) && Announced(res.trace) == Announced(r.trace)
    ensures Saves(res.trace) == Saves(r.trace) && TopHashes(res.trace) == TopHashes(r.trace)
    ensures Fetches(res.trace) == Fetches(r.trace)
  {
    if r.exit != Running then r
    else
      var r1 := r.(polls := r.polls + 1);
      if !env.flag(r.polls) then r1
      else
        var res := ApplyWrite(env, r1, w);
        if res.exit == Running then
          EmitMeasures(r1.trace, res.trace[|res.trace| - 1]);
          assert res.trace == r1.trace + [res.trace[|res.trace| - 1]];
          res
        else res
  }

  /** Progress never runs ahead: the increments added stay within the totals added. */
  predicate WithinTotals(r: Run, res: Run) {
    Ticks(res.trace) + Announced(r.trace) <= Ticks(r.trace) + Announced(res.trace)
  }

  /**
   * A `*_thread_worker` job: return at once if the flag is already False;
   * otherwise prepare, announce the number of targets, fetch, check the
   * flag again, and write only if it still reads True.
   */
  function RunJob(env: Env, r: Run, job: Job): (res: Run)
    requires r.exit == Running
    ensures !env.flag(r.polls) ==> res == r.(polls := r.polls + 1)
    ensures res.exit == Running || res.exit == Throws || res.exit == Hangs
    ensures res.polls > r.polls
  {
    if !env.flag(r.polls) then r.(polls := r.polls + 1)
    else AfterPrepare(env, r, Prepare(env, r.(polls := r.polls + 1), job))
  }

  /**
   * What the steps before the total leave, relative to the run before the
   * entry poll: one poll more, the workbook untouched, no progress, write
   * or save yet, and a Running state exactly when prepared.
   */
  predicate FromPrepare(r: Run, p: Prep) {
    p.r.polls == r.polls + 1 && p.r.mgr.book == r.mgr.book &&
    (p.Prepared? ==> p.r.exit == Running) &&
    (p.Stopped? ==> p.r.exit == Throws || p.r.exit == Hangs) &&
    Ticks(p.r.trace) == Ticks(r.trace) && Announced(p.r.trace) == Announced(r.trace) &&
    Writes(p.r.trace) == Writes(r.trace) && Saves(p.r.trace) == Saves(r.trace) &&
    Fetches(p.r.trace) == Fetches(r.trace)
  }

  /** A prepared job's loop runs over the targets its read or top-list fetch left, and ends with its own write. */
  predicate FitsJob(p: Prep, job: Job) {
    p.Prepared? ==> p.targets == TargetsOf(p.r, job) && p.w == WriterOf(job)
  }

  /** Past the entry poll, the preparation of every job meets both contracts. */
  lemma PrepareContract(env: Env, r: Run, job: Job)
    requires r.exit == Running
    ensures var p := Prepare(env, r.(polls := r.polls + 1), job);
      FromPrepare(r, p) && FitsJob(p, job)
  {
  }

  /** The loop of a prepared job: announce the number of targets, fetch them, then the final check and the write. */
  function RunLoop(env: Env, r: Run, ts: seq<Target>, w: Writer): (res: Run)
    requires r.exit == Running
    ensures res.exit == Running || res.exit == Throws
    ensures res.polls >= r.polls && (res.exit == Running ==> res.polls > r.polls)
  {
    var r3 := Emit(r, Total(|ts|));
    Finally(env, ScrapeFrom(env, r3, ts), w)
  }

  /** The loop announces exactly its targets, ticks at most once per target, and neither saves nor fetches a top list. */
  lemma LoopCounts(env: Env, r: Run, ts: seq<Target>, w: Writer)
    requires r.exit == Running
    ensures var res := RunLoop(env, r, ts, w);
      Saves(res.trace) == Saves(r.trace) && TopHashes(res.trace) == TopHashes(r.trace) &&
      Ticks(res.trace) <= Ticks(r.trace) + |ts| && Announced(res.trace) == Announced(r.trace) + |ts|
  {
    var r3 := Emit(r, Total(|ts|));
    EmitMeasures(r.trace, Total(|ts|));
    ScrapeMeasures(env, r3, ts);
  }

  /** The write count of a loop from the counts of its fetches and of its final check: the sequence-free step of the proof. */
  lemma WriteCountShape(env: Env, r: Run, s: Run, res: Run)
    requires Writes(s.trace) == Writes(r.trace)
    requires res.exit == Running ==> s.exit == Running && res.polls == s.polls + 1
    requires Writes(res.trace) == Writes(s.trace) + (if s.exit == Running && env.flag(s.polls) && res.exit == Running then 1 else 0)
    ensures res.exit == Running ==> res.polls >= 1 && Writes(res.trace) == Writes(r.trace) + (if env.flag(res.polls - 1) then 1 else 0)
  {
  }

  /** The loop writes once exactly when the final check read True and the write did not raise. */
  lemma LoopWrites(env: Env, r: Run, ts: seq<Target>, w: Writer)
    requires r.exit == Running
    ensures var res := RunLoop(env, r, ts, w);
      res.exit == Running ==> Writes(res.trace) == Writes(r.trace) + (if env.flag(res.polls - 1) then 1 else 0)
  {
    var r3 := Emit(r, Total(|ts|));
    EmitMeasures(r.trace, Total(|ts|));
    ScrapeMeasures(env, r3, ts);
    var s := ScrapeFrom(env, r3, ts);
    var res := Finally(env, s, w);
    assert RunLoop(env, r, ts, w) == res;
    WriteCountShape(env, r, s, res);
  }

  /** The loop changes the workbook only through its write. */
  lemma LoopBook(env: Env, r: Run, ts: seq<Target>, w: Writer)
    requires r.exit == Running
    ensures var res := RunLoop(env, r, ts, w);
      Writes(res.trace) == Writes(r.trace) ==> res.mgr.book == r.mgr.book
  {
    var r3 := Emit(r, Total(|ts|));
    EmitMeasures(r.trace, Total(|ts|));
    ScrapeMeasures(env, r3, ts);
  }

  /** The loop leaves the fetched top list and both read results as they were. */
  lemma LoopKeeps(env: Env, r: Run, ts: seq<Target>, w: Writer)
    requires r.exit == Running
    ensures var res := RunLoop(env, r, ts, w);
      res.data.top == r.data.top &&
      res.mgr.missingFunds == r.mgr.missingFunds && res.mgr.rankingIds == r.mgr.rankingIds
  {
    ScrapeMeasures(env, Emit(r, Total(|ts|)), ts);
  }

  /** The rest of a job once it is prepared: nothing if preparing stopped it, else the loop. */
  function AfterPrepare(env: Env, r: Run, p: Prep): (res: Run)
    requires FromPrepare(r, p)
    ensures res.exit == Running || res.exit == Throws || res.exit == Hangs
    ensures res.polls > r.polls
    ensures Saves(res.trace) == Saves(r.trace) && WithinTotals(r, res)
    ensures TopHashes(res.trace) == TopHashes(p.r.trace)
    ensures res.exit == Running ==> Writes(res.trace) == Writes(r.trace) + (if env.flag(res.polls - 1) then 1 else 0)
    ensures Writes(res.trace) == Writes(r.trace) ==> res.mgr.book == r.mgr.book
    ensures res.data.top == p.r.data.top
    ensures res.mgr.missingFunds == p.r.mgr.missingFunds && res.mgr.rankingIds == p.r.mgr.rankingIds
  {
    match p
    case Stopped(r2) => r2
    case Prepared(r2, ts, w) =>
      LoopCounts(env, r2, ts, w);
      LoopWrites(env, r2, ts, w);
      LoopBook(env, r2, ts, w);
      LoopKeeps(env, r2, ts, w);
      RunLoop(env, r2, ts, w)
  }

  /** No job exports or saves, and no job's increments outrun its announced total. */
  lemma JobProgress(env: Env, r: Run, job: Job)
    requires r.exit == Running
    ensures var res := RunJob(env, r, job);
      Saves(res.trace) == Saves(r.trace) && WithinTotals(r, res)
  {
  }

  /** A job fetches a top list only if it is a top job past its entry check, and then the list of its own category. */
  lemma JobTopHashes(env: Env, r: Run, job: Job)
    requires r.exit == Running
    ensures var res := RunJob(env, r, job);
      TopHashes(res.trace) == TopHashes(r.trace) + (if job.TopJob? && env.flag(r.polls) then [job.category.hash] else [])
  {
  }

  /**
   * A read that fails while `missing_funds` or `ranking_ids` is still None
   * leaves it None, and the `len` of the progress total raises.
   */
  lemma JobReadNone(env: Env, r: Run, job: Job)
    requires r.exit == Running && env.flag(r.polls)
    ensures (job == FundsJob && r.mgr.missingFunds.None? &&
             (FundsSheetName !in r.mgr.book || FundsSheet.ReadFunds(r.mgr.book[FundsSheetName]).ScanFailed?)) ==>
      RunJob(env, r, job).exit == Throws
    ensures (job == RankingsJob && r.mgr.rankingIds.None? && RankingsSheetName !in r.mgr.book) ==>
      RunJob(env, r, job).exit == Throws
  {
  }

  /** The total a loop announces is the number of its targets, and they are fetched in order up to the first False poll. */
  lemma LoopFetches(env: Env, r: Run, ts: seq<Target>, w: Writer)
    requires r.exit == Running
    ensures var res := RunLoop(env, r, ts, w);
      res.exit == Running ==> Fetches(res.trace) == Fetches(r.trace) + ts[..Reached(env.flag, r.polls, |ts|)]
  {
    var r3 := Emit(r, Total(|ts|));
    EmitMeasures(r.trace, Total(|ts|));
    assert Fetches(r3.trace) == Fetches(r.trace) && r3.polls == r.polls;
    var s := ScrapeFrom(env, r3, ts);
    ScrapeFromSpec(env, r3, ts);
    assert RunLoop(env, r, ts, w) == Finally(env, s, w);
  }

  /**
   * Past its entry poll, a job that returns announces the number of its
   * targets and fetches them in order: all of them, or up to the first
   * False poll of its loop. For a top job the targets are the ids of the
   * top list it fetched, in list order.
   */
  lemma JobFetches(env: Env, r: Run, p: Prep, job: Job)
    requires FromPrepare(r, p) && FitsJob(p, job)
    ensures var res := AfterPrepare(env, r, p);
      var ts := TargetsOf(res, job);
      res.exit == Running ==>
        Announced(res.trace) == Announced(r.trace) + |ts| &&
        Fetches(res.trace) == Fetches(r.trace) + ts[..Reached(env.flag, r.polls + 1, |ts|)]
  {
    if p.Prepared? {
      LoopFetches(env, p.r, p.targets, p.w);
      LoopCounts(env, p.r, p.targets, p.w);
      LoopKeeps(env, p.r, p.targets, p.w);
      assert TargetsOf(AfterPrepare(env, r, p), job) == TargetsOf(p.r, job);
    }
  }

  /** The run just before a job's write: the job's end state with the original workbook and without the write's event. */
  function BeforeWrite(r: Run, res: Run): Run
    requires |res.trace| > 0
  {
    res.(mgr := res.mgr.(book := r.mgr.book), trace := res.trace[..|res.trace| - 1])
  }

  /** A loop writes only as its last step, on the run its fetches and its final poll left. */
  lemma LoopWriteInput(env: Env, r: Run, ts: seq<Target>, w: Writer)
    requires r.exit == Running
    ensures var res := RunLoop(env, r, ts, w);
      Writes(res.trace) > Writes(r.trace) ==>
        |res.trace| > 0 && BeforeWrite(r, res).exit == Running && res == ApplyWrite(env, BeforeWrite(r, res), w)
  {
    var r3 := Emit(r, Total(|ts|));
    var s := ScrapeFrom(env, r3, ts);
    var res := Finally(env, s, w);
    assert RunLoop(env, r, ts, w) == res;
    if Writes(res.trace) > Writes(r.trace) {
      EmitMeasures(r.trace, Total(|ts|));
      ScrapeMeasures(env, r3, ts);
      var s1 := s.(polls := s.polls + 1);
      assert res == ApplyWrite(env, s1, w);
      assert BeforeWrite(r, res) == s1;
    }
  }

  /**
   * A job that writes hands its writer the original workbook, the ids its
   * read left and the data its fetches left: its end state is the job's
   * write applied to that.
   */
  lemma JobWriteInput(env: Env, r: Run, p: Prep, job: Job)
    requires FromPrepare(r, p) && FitsJob(p, job)
    ensures var res := AfterPrepare(env, r, p);
      Writes(res.trace) > Writes(r.trace) ==>
        |res.trace| > 0 && BeforeWrite(r, res).exit == Running && res == ApplyWrite(env, BeforeWrite(r, res), WriterOf(job))
  {
    if p.Prepared? {
      LoopWriteInput(env, p.r, p.targets, p.w);
    }
  }

  // ---------------------------------------------------------------- start

  /** What `start` clears after each top category: the fetched data and the manager's read results. */
  function Reset(r: Run): (res: Run)
    ensures res.data == NoData && res.mgr.missingFunds.None? && res.mgr.rankingIds.None?
    ensures res.mgr.book == r.mgr.book && res.trace == r.trace && res.exit == r.exit
    ensures res.polls == r.polls && res.loads == r.loads
  {
    r.(data := NoData, mgr := r.mgr.(missingFunds := None, rankingIds := None))
  }

  /** The category loop of `start`: run each top job in order, resetting after each; an exception ends it. */
  function TopLoop(env: Env, r: Run, cats: seq<Category>): (res: Run)
    ensures r.exit != Running ==> res == r
    ensures r.exit == Running ==> res.exit == Running || res.exit == Throws || res.exit == Hangs
    ensures res.polls >= r.polls
    ensures r.exit == Running && res.exit == Running && cats != [] ==>
      res.data == NoData && res.mgr.missingFunds.None? && res.mgr.rankingIds.None?
    decreases |cats|
  {
    if r.exit != Running || cats == [] then r
    else
      var r1 := RunJob(env, r, TopJob(cats[0]));
      if r1.exit != Running then r1 else TopLoop(env, Reset(r1), cats[1..])
  }

  /** The category loop neither exports nor saves, and its increments stay within its totals. */
  lemma {:induction false} TopLoopProgress(env: Env, r: Run, cats: seq<Category>)
    ensures var res := TopLoop(env, r, cats);
      Saves(res.trace) == Saves(r.trace) && WithinTotals(r, res)
    decreases |cats|
  {
    if r.exit == Running && cats != [] {
      var r1 := RunJob(env, r, TopJob(cats[0]));
      JobProgress(env, r, TopJob(cats[0]));
      if r1.exit == Running {
        TopLoopProgress(env, Reset(r1), cats[1..]);
      }
    }
  }

  /** The hashes of categories, in order. */
  function Hashes(cats: seq<Category>): (hs: seq<string>)
    ensures |hs| == |cats| && forall k :: 0 <= k < |cats| ==> hs[k] == cats[k].hash
    decreases |cats|
  {
    if cats == [] then [] else [cats[0].hash] + Hashes(cats[1..])
  }

  /** One category's hash in front of the rest's: the sequence algebra of one step of the category loop. */
  lemma HashStepShape(before: seq<string>, h: string, mid: seq<string>, rest: seq<string>, after: seq<string>)
    requires mid == before + [h] && after == mid + rest
    ensures after == before + ([h] + rest)
  {
  }

  /** With every poll True, a loop that ends normally fetched the top list of every category, in order. */
  lemma {:induction false} TopLoopOrder(env: Env, r: Run, cats: seq<Category>)
    requires forall j: nat :: env.flag(j)
    requires r.exit == Running
    ensures var res := TopLoop(env, r, cats);
      res.exit == Running ==> TopHashes(res.trace) == TopHashes(r.trace) + Hashes(cats)
    decreases |cats|
  {
    if cats == [] {
      assert TopHashes(r.trace) + Hashes(cats) == TopHashes(r.trace);
    } else {
      var r1 := RunJob(env, r, TopJob(cats[0]));
      if r1.exit == Running {
        var r2 := Reset(r1);
        assert TopHashes(r2.trace) == TopHashes(r.trace) + [cats[0].hash] by {
          assert env.flag(r.polls);
          JobTopHashes(env, r, TopJob(cats[0]));
        }
        var res := TopLoop(env, r2, cats[1..]);
        assert TopLoop(env, r, cats) == res;
        TopLoopOrder(env, r2, cats[1..]);
        assert Hashes(cats) == [cats[0].hash] + Hashes(cats[1..]);
        if res.exit == Running {
          HashStepShape(TopHashes(r.trace), cats[0].hash, TopHashes(r2.trace), Hashes(cats[1..]), TopHashes(res.trace));
        }
      }
    }
  }

  /** The list pages of the five categories, in order. */
  lemma TopCategoryHashes()
    ensures Hashes(TopCategories) == ["thh", "tgp", "tzs", "tzq", "tqdii"]
  {
    assert Hashes(TopCategories) == ["thh"] + Hashes(TopCategories[1..]);
  }

  /**
   * The read jobs `start` runs first: funds, then rankings; an exception or
   * a hang ends them. `data` is what the scraper holds when `start` is
   * called: one scraper serves every run of a driver session, and only a
   * top category resets its data, so a run starts from what earlier runs
   * fetched.
   */
  function ReadJobs(env: Env, m: Manager, data: ScrapeData, funds: bool, rankings: bool): (res: Run)
    ensures res.exit == Running || res.exit == Throws || res.exit == Hangs
  {
    var r0 := Run(Running, m, data, 0, 0, []);
    var r1 := if funds then RunJob(env, r0, FundsJob) else r0;
    if rankings && r1.exit == Running then RunJob(env, r1, RankingsJob) else r1
  }

  /**
   * The jobs `start` runs, in order: funds, rankings, the top categories;
   * an exception or a hang ends them. Before the first category the date
   * range's start is today a year earlier, which raises when that date
   * does not exist.
   */
  function Jobs(env: Env, m: Manager, data: ScrapeData, funds: bool, rankings: bool, top: bool): (res: Run)
    ensures res.exit == Running || res.exit == Throws || res.exit == Hangs
    ensures top && res.exit == Running ==> res.data == NoData
    ensures top && ReadJobs(env, m, data, funds, rankings).exit == Running && Calendar.YearBefore(env.today).None? ==>
      res == ReadJobs(env, m, data, funds, rankings).(exit := Throws)
  {
    var r := ReadJobs(env, m, data, funds, rankings);
    if top && r.exit == Running then
      if Calendar.YearBefore(env.today).None? then r.(exit := Throws)
      else TopLoop(env, r, TopCategories)
    else r
  }

  /** The read jobs neither save nor run ahead of their totals. */
  lemma ReadJobsProgress(env: Env, m: Manager, data: ScrapeData, funds: bool, rankings: bool)
    ensures var res := ReadJobs(env, m, data, funds, rankings);
      Saves(res.trace) == 0 && Ticks(res.trace) <= Announced(res.trace)
  {
    var r0 := Run(Running, m, data, 0, 0, []);
    var r1 := if funds then RunJob(env, r0, FundsJob) else r0;
    if funds { JobProgress(env, r0, FundsJob); }
    if rankings && r1.exit == Running { JobProgress(env, r1, RankingsJob); }
  }

  /** Before the final check, nothing has been exported or saved and no increment outruns the totals. */
  lemma JobsProgress(env: Env, m: Manager, data: ScrapeData, funds: bool, rankings: bool, top: bool)
    ensures var res := Jobs(env, m, data, funds, rankings, top);
      Saves(res.trace) == 0 && Ticks(res.trace) <= Announced(res.trace)
  {
    var r := ReadJobs(env, m, data, funds, rankings);
    ReadJobsProgress(env, m, data, funds, rankings);
    if top && r.exit == Running && Calendar.YearBefore(env.today).Some? { TopLoopProgress(env, r, TopCategories); }
  }

  /** The read jobs fetch no top list. */
  lemma ReadJobsTopHashes(env: Env, m: Manager, data: ScrapeData, funds: bool, rankings: bool)
    ensures TopHashes(ReadJobs(env, m, data, funds, rankings).trace) == []
  {
    var r0 := Run(Running, m, data, 0, 0, []);
    var r1 := if funds then RunJob(env, r0, FundsJob) else r0;
    if funds { JobTopHashes(env, r0, FundsJob); }
    if rankings && r1.exit == Running { JobTopHashes(env, r1, RankingsJob); }
  }

  /** With every poll True, jobs that end normally fetched the top lists of the five categories in order, or none without the top jobs. */
  lemma JobsTopOrder(env: Env, m: Manager, data: ScrapeData, funds: bool, rankings: bool, top: bool)
    requires forall j: nat :: env.flag(j)
    ensures var res := Jobs(env, m, data, funds, rankings, top);
      res.exit == Running ==> TopHashes(res.trace) == (if top then Hashes(TopCategories) else [])
  {
    var r := ReadJobs(env, m, data, funds, rankings);
    ReadJobsTopHashes(env, m, data, funds, rankings);
    if top && r.exit == Running && Calendar.YearBefore(env.today).Some? {
      assert Jobs(env, m, data, funds, rankings, top) == TopLoop(env, r, TopCategories);
      TopLoopOrder(env, r, TopCategories);
    }
  }

  /** The last step of `start`: on a False flag return False; otherwise export if asked, save and close, return True. */
  function Finish(env: Env, r: Run, saveData: bool): (res: Run)
    ensures r.exit != Running ==> res == r
    ensures r.exit == Running ==> res.exit == Returns(env.flag(r.polls)) && res.polls == r.polls + 1 && res.mgr == r.mgr
    ensures r.exit == Running && !env.flag(r.polls) ==> res.trace == r.trace
    ensures r.exit == Running && env.flag(r.polls) ==>
      res.trace == r.trace + (if saveData then [Exported(r.data)] else []) + [Closed(r.mgr.book)]
    ensures Ticks(res.trace) == Ticks(r.trace) && Announced(res.trace) == Announced(r.trace)
    ensures TopHashes(res.trace) == TopHashes(r.trace)
    ensures Saves(res.trace) == Saves(r.trace) + (if r.exit == Running && env.flag(r.polls) then (if saveData then 2 else 1) else 0)
  {
    if r.exit != Running then r
    else if !env.flag(r.polls) then r.(polls := r.polls + 1, exit := Returns(false))
    else
      var r1 := if saveData then Emit(r, Exported(r.data)) else r;
      EmitMeasures(r.trace, Exported(r.data));
      EmitMeasures(r1.trace, Closed(r.mgr.book));
      Emit(r1.(polls := r.polls + 1, exit := Returns(true)), Closed(r.mgr.book))
  }

  /** `start`: run the selected jobs on the scraper's current `data`, then the final check. */
  function Start(env: Env, m: Manager, data: ScrapeData, saveData: bool, funds: bool, rankings: bool, top: bool): (res: Run)
    ensures res.exit != Running
  {
    Finish(env, Jobs(env, m, data, funds, rankings, top), saveData)
  }

  /**
   * `start` returns False exactly when its final poll reads False, and then
   * nothing was exported or saved: cancelling skips `close`.
   */
  lemma StartCancelled(env: Env, m: Manager, data: ScrapeData, saveData: bool, funds: bool, rankings: bool, top: bool)
    ensures var res := Start(env, m, data, saveData, funds, rankings, top);
      (res.exit.Returns? ==> (res.exit.value <==> env.flag(res.polls - 1))) &&
      (res.exit == Returns(false) ==> Saves(res.trace) == 0)
  {
    JobsProgress(env, m, data, funds, rankings, top);
  }

  /**
   * On a run still in its jobs with nothing exported or saved yet, a final check that returns
   * True ends by closing the workbook as it stands, just after exporting the
   * run's data iff `save_data` is set.
   */
  lemma FinishSaved(env: Env, r: Run, saveData: bool)
    requires !r.exit.Returns? && Saves(r.trace) == 0
    ensures var res := Finish(env, r, saveData);
      var t := res.trace;
      res.exit == Returns(true) ==>
        |t| >= 1 && t[|t| - 1] == Closed(res.mgr.book) &&
        Saves(t) == (if saveData then 2 else 1) &&
        (saveData <==> |t| >= 2 && t[|t| - 2].Exported?) &&
        (saveData ==> t[|t| - 2] == Exported(r.data))
  {
    if !saveData && r.exit == Running && |r.trace| >= 1 {
      NoSaveAnywhere(r.trace, |r.trace| - 1);
    }
  }

  /**
   * When `start` returns True the run ends by closing the workbook as the
   * jobs left it, just after exporting iff `save_data` is set, and nothing
   * was exported or saved before. With the top jobs on, the data exported
   * is the empty data the last reset left.
   */
  lemma StartSaved(env: Env, m: Manager, data: ScrapeData, saveData: bool, funds: bool, rankings: bool, top: bool)
    ensures var res := Start(env, m, data, saveData, funds, rankings, top);
      var t := res.trace;
      res.exit == Returns(true) ==>
        |t| >= 1 && t[|t| - 1] == Closed(res.mgr.book) &&
        Saves(t) == (if saveData then 2 else 1) &&
        (saveData <==> |t| >= 2 && t[|t| - 2].Exported?) &&
        (saveData && top ==> t[|t| - 2] == Exported(NoData))
  {
    JobsProgress(env, m, data, funds, rankings, top);
    FinishSaved(env, Jobs(env, m, data, funds, rankings, top), saveData);
  }

  /** `start`'s increments never outrun its announced totals. */
  lemma StartProgress(env: Env, m: Manager, data: ScrapeData, saveData: bool, funds: bool, rankings: bool, top: bool)
    ensures var res := Start(env, m, data, saveData, funds, rankings, top);
      Ticks(res.trace) <= Announced(res.trace)
  {
    JobsProgress(env, m, data, funds, rankings, top);
  }

  /** A final check that returns True was reached by a run that ended normally, and fetches no top list. */
  lemma FinishTopHashes(env: Env, r: Run, saveData: bool)
    requires !r.exit.Returns?
    ensures var res := Finish(env, r, saveData);
      res.exit == Returns(true) ==> r.exit == Running && TopHashes(res.trace) == TopHashes(r.trace)
  {
  }

  /**
   * With every poll True, a `start` that returns True fetched the top lists
   * of thh, tgp, tzs, tzq and tqdii in that order when the top jobs are on,
   * and none otherwise.
   */
  lemma StartTopOrder(env: Env, m: Manager, data: ScrapeData, saveData: bool, funds: bool, rankings: bool, top: bool)
    requires forall j: nat :: env.flag(j)
    ensures var res := Start(env, m, data, saveData, funds, rankings, top);
      res.exit == Returns(true) ==>
        TopHashes(res.trace) == (if top then ["thh", "tgp", "tzs", "tzq", "tqdii"] else [])
  {
    JobsTopOrder(env, m, data, funds, rankings, top);
    TopCategoryHashes();
    FinishTopHashes(env, Jobs(env, m, data, funds, rankings, top), saveData);
  }

  /**
   * The scraper's data outlives a run: with no job selected, a run that
   * returns True exports exactly the data the scraper already held, then
   * closes the workbook it was given.
   */
  lemma StartExportsHeldData(env: Env, m: Manager, data: ScrapeData)
    ensures var res := Start(env, m, data, true, false, false, false);
      res.exit == Returns(true) ==> res.trace == [Exported(data), Closed(m.book)]
  {
  }

  /**
   * `start` with the top jobs on 29 February: once the read jobs are past,
   * the year-earlier date raises, so no top list is fetched, nothing is
   * exported or saved, and `start` returns no value.
   */
  lemma StartLeapDay(env: Env, m: Manager, data: ScrapeData, saveData: bool, funds: bool, rankings: bool)
    requires Calendar.IsDate(env.today) && env.today.month == 2 && env.today.day == 29
    ensures var res := Start(env, m, data, saveData, funds, rankings, true);
      ReadJobs(env, m, data, funds, rankings).exit == Running ==>
        res.exit == Throws && Saves(res.trace) == 0 && TopHashes(res.trace) == []
  {
    Calendar.YearBeforeRaises(env.today);
    ReadJobsProgress(env, m, data, funds, rankings);
    ReadJobsTopHashes(env, m, data, funds, rankings);
  }
}
