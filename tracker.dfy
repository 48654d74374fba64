/**
 * One monitoring cycle of the OI tracker (display_tables): for the calls and
 * then the puts, every strike of the ladder is resolved to a contract, its
 * current open interest is compared with the first sample of each look-back
 * window, every cell is classified, and at the end the alert is decided.
 * The market data the broker would return is given as a value.
 */
module Tracker {
  import opened Optional
  import opened Ladder
  import opened Catalog
  import opened Delta
  import opened Alerts

  /**
   * The configuration values (strat_var_*). indexSymbol only keys the index
   * quote, which is the indexPrice of MarketData here, so the model never reads it.
   */
  datatype Config = Config(
    indexSymbol: string,
    symbolInitials: string,
    strikeDifference: int,
    strikesToTrack: int,
    timeIntervals: seq<int>,
    colorThresholds: map<int, real>,
    alertThresholdPercentage: real)

  /**
   * What the broker answers during one cycle: the index quote, the OI samples
   * of the last minute for a token, the OI samples of the one-minute range
   * starting a given number of minutes ago, and the index closes of that range.
   */
  datatype MarketData = MarketData(
    indexPrice: real,
    latestOi: int -> seq<int>,
    pastOi: (int, int) -> seq<int>,
    pastClose: int -> seq<real>)

  /** One table row: the strike, its current OI ("N/A" is None) and one change per window. */
  datatype Row = Row(strike: int, currentOi: Option<int>, cells: seq<Change>)

  /** The rows of one side so far and the counters after them. */
  datatype Table = Table(rows: seq<Row>, counters: Counters)

  /** The cells of one row so far and the counters after them. */
  datatype Tally = Tally(cells: seq<Change>, counters: Counters)

  /**
   * A cycle either completes or stops at the TypeError raised for a resolved
   * strike whose current OI is "N/A" while there is at least one window.
   */
  datatype Outcome<T> = Done(value: T) | MissingCurrentOi(side: Side, strike: int)

  /** Everything a completed cycle produces: both tables, the index row, the counters and the alert. */
  datatype CycleResult = CycleResult(
    callRows: seq<Row>,
    putRows: seq<Row>,
    indexPrice: real,
    indexRow: seq<Option<Change>>,
    counters: Counters,
    alert: bool)

  // ---------------------------------------------------------------------------
  // The cycle as functions of its inputs. The flag countReset says whether the
  // second get_color(0, 0, side) call of every cell is counted (as the code is
  // written) or not (as evidently intended).
  // ---------------------------------------------------------------------------

  /** The get_color calls made for one cell. */
  function ColorCell(c: Counters, thresholds: map<int, real>, d: Change, minutes: int, side: Side, countReset: bool): Counters
  {
    var c1 := GetColor(c, thresholds, d.pct, minutes, side);
    if countReset then GetColor(c1, thresholds, 0.0, 0, side) else c1
  }

  /** The inner loop over the windows for one resolved strike. */
  function RowCells(current: int, token: int, md: MarketData, windows: seq<int>, thresholds: map<int, real>,
                    side: Side, c: Counters, countReset: bool): Tally
    decreases |windows|
  {
    if |windows| == 0 then Tally([], c)
    else
      var prev := RowCells(current, token, md, windows[..|windows| - 1], thresholds, side, c, countReset);
      var minutes := windows[|windows| - 1];
      var d := OiChange(current, md.pastOi(token, minutes));
      Tally(prev.cells + [d], ColorCell(prev.counters, thresholds, d, minutes, side, countReset))
  }

  /** One strike of one side: no row when unresolved (or token 0), else its row. */
  function StrikeRow(cfg: Config, catalog: seq<Instrument>, today: int, md: MarketData, side: Side,
                     strike: int, c: Counters, countReset: bool): Outcome<Table>
  {
    var inst := Resolve(catalog, cfg.symbolInitials, TypeCode(side), strike, today);
    if inst.None? || inst.value.token == 0 then Done(Table([], c))
    else
      var token := inst.value.token;
      var data := md.latestOi(token);
      if |data| == 0 then
        if |cfg.timeIntervals| == 0 then Done(Table([Row(strike, None, [])], c))
        else MissingCurrentOi(side, strike)
      else
        var current := data[|data| - 1];
        var tally := RowCells(current, token, md, cfg.timeIntervals, cfg.colorThresholds, side, c, countReset);
        Done(Table([Row(strike, Some(current), tally.cells)], tally.counters))
  }

  /** The outer loop over the ladder for one side, stopping at the first missing current OI. */
  function SideTable(cfg: Config, catalog: seq<Instrument>, today: int, md: MarketData, side: Side,
                     ladder: seq<int>, c0: Counters, countReset: bool): Outcome<Table>
    decreases |ladder|
  {
    if |ladder| == 0 then Done(Table([], c0))
    else
      match SideTable(cfg, catalog, today, md, side, ladder[..|ladder| - 1], c0, countReset)
      case MissingCurrentOi(s, k) => MissingCurrentOi(s, k)
      case Done(t) =>
        match StrikeRow(cfg, catalog, today, md, side, ladder[|ladder| - 1], t.counters, countReset)
        case MissingCurrentOi(s, k) => MissingCurrentOi(s, k)
        case Done(r) => Done(Table(t.rows + r.rows, r.counters))
  }

  /** The index row: get_nifty_change for every window. */
  function IndexRow(indexToken: Option<int>, md: MarketData, windows: seq<int>): (r: seq<Option<Change>>)
    ensures |r| == |windows|
    ensures forall k :: 0 <= k < |r| ==> (r[k].None? <==> indexToken.None? || indexToken.value == 0)
    ensures forall k :: 0 <= k < |r| ==> r[k] == IndexChange(indexToken, md.pastClose(windows[k]), md.indexPrice)
  {
    var r := seq(|windows|, k requires 0 <= k < |windows| => IndexChange(indexToken, md.pastClose(windows[k]), md.indexPrice));
    assert forall k :: 0 <= k < |r| ==> r[k] == IndexChange(indexToken, md.pastClose(windows[k]), md.indexPrice);
    r
  }

  /** The whole cycle: calls, then puts, then the index row and the alert decision. */
  function Cycle(cfg: Config, catalog: seq<Instrument>, indexToken: Option<int>, today: int,
                 ladder: seq<int>, md: MarketData, countReset: bool): Outcome<CycleResult>
  {
    match SideTable(cfg, catalog, today, md, Call, ladder, Counters(0, 0), countReset)
    case MissingCurrentOi(s, k) => MissingCurrentOi(s, k)
    case Done(calls) =>
      match SideTable(cfg, catalog, today, md, Put, ladder, calls.counters, countReset)
      case MissingCurrentOi(s, k) => MissingCurrentOi(s, k)
      case Done(puts) =>
        var total := CellCount(|ladder|, |cfg.timeIntervals|);
        Done(CycleResult(calls.rows, puts.rows, md.indexPrice, IndexRow(indexToken, md, cfg.timeIntervals),
                         puts.counters, AlertFires(puts.counters, total, cfg.alertThresholdPercentage)))
  }

  // ---------------------------------------------------------------------------
  // Reference counts and the lemmas connecting the cycle to them.
  // ---------------------------------------------------------------------------

  /** The number of cells k whose percentage is abnormal for window k. */
  function AbnormalCells(cells: seq<Change>, windows: seq<int>, thresholds: map<int, real>): (n: nat)
    requires |cells| == |windows|
    ensures n <= |cells|
    decreases |cells|
  {
    if |cells| == 0 then 0
    else
      var k := |cells| - 1;
      AbnormalCells(cells[..k], windows[..k], thresholds) + (if Abnormal(thresholds, cells[k].pct, windows[k]) then 1 else 0)
  }

  /** Every row has one cell per window. */
  ghost predicate RowsFit(rows: seq<Row>, windows: seq<int>)
  {
    forall r :: r in rows ==> |r.cells| == |windows|
  }

  /** The abnormal cells of all rows together. */
  function RowsAbnormal(rows: seq<Row>, windows: seq<int>, thresholds: map<int, real>): (n: nat)
    requires RowsFit(rows, windows)
    ensures n <= CellCount(|rows|, |windows|)
    decreases |rows|
  {
    if |rows| == 0 then 0
    else
      var k := |rows| - 1;
      assert rows[k] in rows;
      Distribute(k, 1, |windows|);
      RowsAbnormal(rows[..k], windows, thresholds) + AbnormalCells(rows[k].cells, windows, thresholds)
  }

  /** What the reset call adds over a number of cells: one per cell when it counts, else nothing. */
  function ResetCells(thresholds: map<int, real>, countReset: bool, cells: nat): nat
  {
    if countReset && ResetCounts(thresholds) then cells else 0
  }

  /** The inner loop yields one change per window, against the first sample of that window's range. */
  lemma {:induction false} RowCellsShape(current: int, token: int, md: MarketData, windows: seq<int>,
                                         thresholds: map<int, real>, side: Side, c: Counters, countReset: bool)
    ensures var t := RowCells(current, token, md, windows, thresholds, side, c, countReset);
            |t.cells| == |windows| &&
            forall k :: 0 <= k < |windows| ==> t.cells[k] == OiChange(current, md.pastOi(token, windows[k]))
    decreases |windows|
  {
    if |windows| > 0 {
      var n := |windows| - 1;
      RowCellsShape(current, token, md, windows[..n], thresholds, side, c, countReset);
    }
  }

  /**
   * The inner loop raises only its own side's counter, by the abnormal cells
   * (plus one per cell when the reset call counts).
   */
  lemma {:induction false} RowCellsCount(current: int, token: int, md: MarketData, windows: seq<int>,
                                         thresholds: map<int, real>, side: Side, c: Counters, countReset: bool)
    ensures var t := RowCells(current, token, md, windows, thresholds, side, c, countReset);
            |t.cells| == |windows| &&
            CountOf(t.counters, side) == CountOf(c, side) + AbnormalCells(t.cells, windows, thresholds)
                                         + ResetCells(thresholds, countReset, |windows|) &&
            CountOf(t.counters, Other(side)) == CountOf(c, Other(side))
    decreases |windows|
  {
    if |windows| > 0 {
      var n := |windows| - 1;
      var init := windows[..n];
      RowCellsCount(current, token, md, init, thresholds, side, c, countReset);
      var prev := RowCells(current, token, md, init, thresholds, side, c, countReset);
      var minutes := windows[n];
      var d := OiChange(current, md.pastOi(token, minutes));
      var t := RowCells(current, token, md, windows, thresholds, side, c, countReset);
      assert t == Tally(prev.cells + [d], ColorCell(prev.counters, thresholds, d, minutes, side, countReset));
      assert t.cells[..n] == prev.cells;
      assert AbnormalCells(t.cells, windows, thresholds)
          == AbnormalCells(prev.cells, init, thresholds) + (if Abnormal(thresholds, d.pct, minutes) then 1 else 0);
      ColorCellCount(prev.counters, thresholds, d, minutes, side, countReset);
    }
  }

  /** One cell raises its side's counter by its abnormality plus the reset call's count, and leaves the other side alone. */
  lemma ColorCellCount(c: Counters, thresholds: map<int, real>, d: Change, minutes: int, side: Side, countReset: bool)
    ensures var r := ColorCell(c, thresholds, d, minutes, side, countReset);
            CountOf(r, side) == CountOf(c, side) + (if Abnormal(thresholds, d.pct, minutes) then 1 else 0)
                                + ResetCells(thresholds, countReset, 1) &&
            CountOf(r, Other(side)) == CountOf(c, Other(side))
  {
  }

  /** One strike adds at most one row, with one cell per window, and raises only its side's counter. */
  lemma StrikeRowCount(cfg: Config, catalog: seq<Instrument>, today: int, md: MarketData,
                       side: Side, strike: int, c: Counters, countReset: bool)
    requires StrikeRow(cfg, catalog, today, md, side, strike, c, countReset).Done?
    ensures var t := StrikeRow(cfg, catalog, today, md, side, strike, c, countReset).value;
            var windows := cfg.timeIntervals;
            |t.rows| <= 1 && RowsFit(t.rows, windows) &&
            CountOf(t.counters, side) == CountOf(c, side) + RowsAbnormal(t.rows, windows, cfg.colorThresholds)
                                         + ResetCells(cfg.colorThresholds, countReset, CellCount(|t.rows|, |windows|)) &&
            CountOf(t.counters, Other(side)) == CountOf(c, Other(side))
  {
    var windows := cfg.timeIntervals;
    var th := cfg.colorThresholds;
    var t := StrikeRow(cfg, catalog, today, md, side, strike, c, countReset).value;
    var inst := Resolve(catalog, cfg.symbolInitials, TypeCode(side), strike, today);
    CellCountSmall(|windows|);
    if inst.None? || inst.value.token == 0 {
      assert t == Table([], c);
    } else {
      var token := inst.value.token;
      var data := md.latestOi(token);
      if |data| == 0 {
        assert |windows| == 0;
        assert t == Table([Row(strike, None, [])], c);
        assert [Row(strike, None, [])][..0] == [];
      } else {
        var current := data[|data| - 1];
        var tally := RowCells(current, token, md, windows, th, side, c, countReset);
        RowCellsCount(current, token, md, windows, th, side, c, countReset);
        var row := Row(strike, Some(current), tally.cells);
        assert t == Table([row], tally.counters);
        assert [row][..0] == [];
        assert RowsAbnormal(t.rows, windows, th) == AbnormalCells(row.cells, windows, th);
      }
    }
  }

  /** No rows have no cells, and one row has one cell per window. */
  lemma CellCountSmall(w: nat)
    ensures CellCount(0, w) == 0 && CellCount(1, w) == w
  {
  }

  /** Appending rows adds their abnormal cells. */
  lemma {:induction false} RowsAbnormalAppend(a: seq<Row>, b: seq<Row>, windows: seq<int>, thresholds: map<int, real>)
    requires RowsFit(a, windows) && RowsFit(b, windows)
    ensures RowsFit(a + b, windows)
    ensures RowsAbnormal(a + b, windows, thresholds) == RowsAbnormal(a, windows, thresholds) + RowsAbnormal(b, windows, thresholds)
    decreases |b|
  {
    if |b| > 0 {
      var n := |b| - 1;
      assert b[n] in b;
      RowsAbnormalAppend(a, b[..n], windows, thresholds);
      assert (a + b)[..|a| + n] == a + b[..n];
      assert (a + b)[|a| + n] == b[n];
    } else {
      assert a + b == a;
    }
  }

  /**
   * One side's table: at most one row per strike, each with one cell per
   * window, and only that side's counter rises, by its abnormal cells (plus
   * one per cell when the reset call counts).
   */
  lemma {:induction false} SideTableCount(cfg: Config, catalog: seq<Instrument>, today: int, md: MarketData,
                                          side: Side, ladder: seq<int>, c0: Counters, countReset: bool)
    requires SideTable(cfg, catalog, today, md, side, ladder, c0, countReset).Done?
    ensures var t := SideTable(cfg, catalog, today, md, side, ladder, c0, countReset).value;
            var windows := cfg.timeIntervals;
            |t.rows| <= |ladder| && RowsFit(t.rows, windows) &&
            CountOf(t.counters, side) == CountOf(c0, side) + RowsAbnormal(t.rows, windows, cfg.colorThresholds)
                                         + ResetCells(cfg.colorThresholds, countReset, CellCount(|t.rows|, |windows|)) &&
            CountOf(t.counters, Other(side)) == CountOf(c0, Other(side))
    decreases |ladder|
  {
    if |ladder| > 0 {
      var n := |ladder| - 1;
      var windows := cfg.timeIntervals;
      var th := cfg.colorThresholds;
      SideTableCount(cfg, catalog, today, md, side, ladder[..n], c0, countReset);
      var prev := SideTable(cfg, catalog, today, md, side, ladder[..n], c0, countReset).value;
      StrikeRowCount(cfg, catalog, today, md, side, ladder[n], prev.counters, countReset);
      var step := StrikeRow(cfg, catalog, today, md, side, ladder[n], prev.counters, countReset).value;
      var t := SideTable(cfg, catalog, today, md, side, ladder, c0, countReset).value;
      assert t == Table(prev.rows + step.rows, step.counters);
      RowsAbnormalAppend(prev.rows, step.rows, windows, th);
      assert |t.rows| <= |ladder|;
      assert RowsFit(t.rows, windows);
      assert |t.rows| == |prev.rows| + |step.rows|;
      ResetCellsAppend(th, countReset, |prev.rows|, |step.rows|, |windows|);
      assert CountOf(t.counters, side) == CountOf(c0, side) + RowsAbnormal(t.rows, windows, th)
                                         + ResetCells(th, countReset, CellCount(|t.rows|, |windows|));
    }
  }

  /** The reset call's count over a + b rows is its count over a rows plus that over b rows. */
  lemma ResetCellsAppend(th: map<int, real>, countReset: bool, a: nat, b: nat, w: nat)
    ensures ResetCells(th, countReset, CellCount(a + b, w))
            == ResetCells(th, countReset, CellCount(a, w)) + ResetCells(th, countReset, CellCount(b, w))
  {
    Distribute(a, b, w);
  }

  /** The number of cells of a table: rows times windows. */
  function CellCount(rows: nat, windows: nat): nat
  {
    rows * windows
  }

  /** Cells of a + b rows are the cells of a rows plus those of b rows. */
  lemma Distribute(a: nat, b: nat, w: nat)
    ensures CellCount(a + b, w) == CellCount(a, w) + CellCount(b, w)
  {
  }

  /** More rows have at least as many cells. */
  lemma MulMonotone(a: nat, b: nat, w: nat)
    requires a <= b
    ensures CellCount(a, w) <= CellCount(b, w)
  {
    Distribute(a, b - a, w);
  }

  /** There are cells exactly when there are rows and windows. */
  lemma ProductPositive(a: nat, b: nat)
    ensures CellCount(a, b) > 0 <==> a > 0 && b > 0
  {
    if a > 0 && b > 0 {
      Distribute(a - 1, 1, b);
    }
  }

  /**
   * Every row of a completed side belongs to a ladder strike whose contract
   * resolves with a non-zero token; unresolved strikes have no row.
   */
  lemma {:induction false} SideRowStrikes(cfg: Config, catalog: seq<Instrument>, today: int, md: MarketData,
                                          side: Side, ladder: seq<int>, c0: Counters, countReset: bool)
    requires SideTable(cfg, catalog, today, md, side, ladder, c0, countReset).Done?
    ensures forall row :: row in SideTable(cfg, catalog, today, md, side, ladder, c0, countReset).value.rows ==>
              row.strike in ladder &&
              var inst := Resolve(catalog, cfg.symbolInitials, TypeCode(side), row.strike, today);
              inst.Some? && inst.value.token != 0
    decreases |ladder|
  {
    if |ladder| > 0 {
      var n := |ladder| - 1;
      SideRowStrikes(cfg, catalog, today, md, side, ladder[..n], c0, countReset);
      var prev := SideTable(cfg, catalog, today, md, side, ladder[..n], c0, countReset).value;
      var step := StrikeRow(cfg, catalog, today, md, side, ladder[n], prev.counters, countReset).value;
      var t := SideTable(cfg, catalog, today, md, side, ladder, c0, countReset).value;
      assert t.rows == prev.rows + step.rows;
      forall row | row in t.rows
        ensures row.strike in ladder
      {
        if row in prev.rows {
          var j :| 0 <= j < n && ladder[..n][j] == row.strike;
          assert ladder[j] == row.strike;
        } else {
          assert row in step.rows;
          assert ladder[n] == row.strike;
        }
      }
    }
  }

  /** The strike's contract resolves, with a non-zero token (the code's `if instrument_token:`). */
  predicate Resolves(cfg: Config, catalog: seq<Instrument>, today: int, side: Side, strike: int)
  {
    var inst := Resolve(catalog, cfg.symbolInitials, TypeCode(side), strike, today);
    inst.Some? && inst.value.token != 0
  }

  /** The ladder filtered by Resolves, in ladder order. */
  function ResolvedStrikes(cfg: Config, catalog: seq<Instrument>, today: int, side: Side, ladder: seq<int>): (s: seq<int>)
    ensures |s| <= |ladder|
    decreases |ladder|
  {
    if |ladder| == 0 then []
    else
      var n := |ladder| - 1;
      ResolvedStrikes(cfg, catalog, today, side, ladder[..n])
        + (if Resolves(cfg, catalog, today, side, ladder[n]) then [ladder[n]] else [])
  }

  /** The strikes of a table's rows, in row order. */
  function RowStrikes(rows: seq<Row>): (s: seq<int>)
    ensures |s| == |rows|
    ensures forall k :: 0 <= k < |rows| ==> s[k] == rows[k].strike
  {
    seq(|rows|, k requires 0 <= k < |rows| => rows[k].strike)
  }

  /**
   * A completed side has exactly one row per resolved ladder strike, in
   * ladder order: its row strikes are the ladder filtered by Resolves.
   */
  lemma {:induction false} RowsAreResolved(cfg: Config, catalog: seq<Instrument>, today: int, md: MarketData,
                                           side: Side, ladder: seq<int>, c0: Counters, countReset: bool)
    requires SideTable(cfg, catalog, today, md, side, ladder, c0, countReset).Done?
    ensures RowStrikes(SideTable(cfg, catalog, today, md, side, ladder, c0, countReset).value.rows)
            == ResolvedStrikes(cfg, catalog, today, side, ladder)
    decreases |ladder|
  {
    if |ladder| > 0 {
      var n := |ladder| - 1;
      RowsAreResolved(cfg, catalog, today, md, side, ladder[..n], c0, countReset);
      var prev := SideTable(cfg, catalog, today, md, side, ladder[..n], c0, countReset).value;
      var step := StrikeRow(cfg, catalog, today, md, side, ladder[n], prev.counters, countReset).value;
      var t := SideTable(cfg, catalog, today, md, side, ladder, c0, countReset).value;
      assert t.rows == prev.rows + step.rows;
      StrikeRowStrikes(cfg, catalog, today, md, side, ladder[n], prev.counters, countReset);
      RowStrikesAppend(prev.rows, step.rows);
    }
  }

  /** One strike contributes its own row exactly when it resolves. */
  lemma StrikeRowStrikes(cfg: Config, catalog: seq<Instrument>, today: int, md: MarketData,
                         side: Side, strike: int, c: Counters, countReset: bool)
    requires StrikeRow(cfg, catalog, today, md, side, strike, c, countReset).Done?
    ensures RowStrikes(StrikeRow(cfg, catalog, today, md, side, strike, c, countReset).value.rows)
            == if Resolves(cfg, catalog, today, side, strike) then [strike] else []
  {
    var t := StrikeRow(cfg, catalog, today, md, side, strike, c, countReset).value;
    if Resolves(cfg, catalog, today, side, strike) {
      assert |t.rows| == 1 && t.rows[0].strike == strike;
    } else {
      assert t.rows == [];
    }
  }

  /** The row strikes of a + b are those of a followed by those of b. */
  lemma RowStrikesAppend(a: seq<Row>, b: seq<Row>)
    ensures RowStrikes(a + b) == RowStrikes(a) + RowStrikes(b)
  {
    assert forall k :: 0 <= k < |a + b| ==> RowStrikes(a + b)[k] == (RowStrikes(a) + RowStrikes(b))[k];
  }

  /**
   * A strike's step completes unless its contract resolves, has no OI sample
   * in the last minute, and at least one window is configured (the TypeError).
   */
  predicate StrikeCompletes(cfg: Config, catalog: seq<Instrument>, today: int, md: MarketData, side: Side, strike: int)
  {
    Resolves(cfg, catalog, today, side, strike) ==>
      |md.latestOi(Resolve(catalog, cfg.symbolInitials, TypeCode(side), strike, today).value.token)| > 0 ||
      |cfg.timeIntervals| == 0
  }

  /** Every strike of the ladder completes for that side. */
  predicate AllComplete(cfg: Config, catalog: seq<Instrument>, today: int, md: MarketData, side: Side, ladder: seq<int>)
  {
    forall s :: s in ladder ==> StrikeCompletes(cfg, catalog, today, md, side, s)
  }

  /** One strike's step completes exactly under StrikeCompletes, whatever the counters. */
  lemma StrikeDoneIff(cfg: Config, catalog: seq<Instrument>, today: int, md: MarketData,
                      side: Side, strike: int, c: Counters, countReset: bool)
    ensures StrikeRow(cfg, catalog, today, md, side, strike, c, countReset).Done?
            <==> StrikeCompletes(cfg, catalog, today, md, side, strike)
  {
  }

  /** A side completes exactly when every strike of its ladder completes. */
  lemma {:induction false} SideDoneIff(cfg: Config, catalog: seq<Instrument>, today: int, md: MarketData,
                                       side: Side, ladder: seq<int>, c0: Counters, countReset: bool)
    ensures SideTable(cfg, catalog, today, md, side, ladder, c0, countReset).Done?
            <==> AllComplete(cfg, catalog, today, md, side, ladder)
    decreases |ladder|
  {
    if |ladder| > 0 {
      var n := |ladder| - 1;
      SideDoneIff(cfg, catalog, today, md, side, ladder[..n], c0, countReset);
      assert ladder == ladder[..n] + [ladder[n]];
      assert forall s :: s in ladder <==> s in ladder[..n] || s == ladder[n];
      var prev := SideTable(cfg, catalog, today, md, side, ladder[..n], c0, countReset);
      if prev.Done? {
        StrikeDoneIff(cfg, catalog, today, md, side, ladder[n], prev.value.counters, countReset);
      }
    }
  }

  /** A cycle completes exactly when every strike completes on both sides. */
  lemma CycleDoneIff(cfg: Config, catalog: seq<Instrument>, indexToken: Option<int>, today: int,
                     ladder: seq<int>, md: MarketData, countReset: bool)
    ensures Cycle(cfg, catalog, indexToken, today, ladder, md, countReset).Done?
            <==> AllComplete(cfg, catalog, today, md, Call, ladder) && AllComplete(cfg, catalog, today, md, Put, ladder)
  {
    SideDoneIff(cfg, catalog, today, md, Call, ladder, Counters(0, 0), countReset);
    var calls := SideTable(cfg, catalog, today, md, Call, ladder, Counters(0, 0), countReset);
    if calls.Done? {
      SideDoneIff(cfg, catalog, today, md, Put, ladder, calls.value.counters, countReset);
    }
  }

  /**
   * What a table row holds: its strike resolves, its current OI is the last
   * sample of the last minute ("N/A" only when there are no windows), and each
   * cell is that window's change against the first sample of its range.
   */
  predicate RowHolds(cfg: Config, catalog: seq<Instrument>, today: int, md: MarketData, side: Side, row: Row)
  {
    Resolves(cfg, catalog, today, side, row.strike) &&
    var token := Resolve(catalog, cfg.symbolInitials, TypeCode(side), row.strike, today).value.token;
    var data := md.latestOi(token);
    |row.cells| == |cfg.timeIntervals| &&
    if |data| == 0 then row.currentOi.None? && |cfg.timeIntervals| == 0
    else
      row.currentOi == Some(data[|data| - 1]) &&
      forall k :: 0 <= k < |row.cells| ==> row.cells[k] == OiChange(data[|data| - 1], md.pastOi(token, cfg.timeIntervals[k]))
  }

  /** The row of a completed strike step holds what RowHolds says. */
  lemma StrikeRowHolds(cfg: Config, catalog: seq<Instrument>, today: int, md: MarketData,
                       side: Side, strike: int, c: Counters, countReset: bool)
    requires StrikeRow(cfg, catalog, today, md, side, strike, c, countReset).Done?
    ensures forall row :: row in StrikeRow(cfg, catalog, today, md, side, strike, c, countReset).value.rows ==>
              RowHolds(cfg, catalog, today, md, side, row)
  {
    var inst := Resolve(catalog, cfg.symbolInitials, TypeCode(side), strike, today);
    if inst.Some? && inst.value.token != 0 {
      var token := inst.value.token;
      var data := md.latestOi(token);
      if |data| > 0 {
        RowCellsShape(data[|data| - 1], token, md, cfg.timeIntervals, cfg.colorThresholds, side, c, countReset);
      }
    }
  }

  /** Every row of a completed side holds what RowHolds says. */
  lemma {:induction false} SideRowsHold(cfg: Config, catalog: seq<Instrument>, today: int, md: MarketData,
                                        side: Side, ladder: seq<int>, c0: Counters, countReset: bool)
    requires SideTable(cfg, catalog, today, md, side, ladder, c0, countReset).Done?
    ensures forall row :: row in SideTable(cfg, catalog, today, md, side, ladder, c0, countReset).value.rows ==>
              RowHolds(cfg, catalog, today, md, side, row)
    decreases |ladder|
  {
    if |ladder| > 0 {
      var n := |ladder| - 1;
      SideRowsHold(cfg, catalog, today, md, side, ladder[..n], c0, countReset);
      var prev := SideTable(cfg, catalog, today, md, side, ladder[..n], c0, countReset).value;
      StrikeRowHolds(cfg, catalog, today, md, side, ladder[n], prev.counters, countReset);
      var step := StrikeRow(cfg, catalog, today, md, side, ladder[n], prev.counters, countReset).value;
      assert SideTable(cfg, catalog, today, md, side, ladder, c0, countReset).value.rows == prev.rows + step.rows;
    }
  }

  /** Every row of both tables of a completed cycle holds what RowHolds says for its side. */
  lemma CycleRowsHold(cfg: Config, catalog: seq<Instrument>, indexToken: Option<int>, today: int,
                      ladder: seq<int>, md: MarketData, countReset: bool)
    requires Cycle(cfg, catalog, indexToken, today, ladder, md, countReset).Done?
    ensures var r := Cycle(cfg, catalog, indexToken, today, ladder, md, countReset).value;
            (forall row :: row in r.callRows ==> RowHolds(cfg, catalog, today, md, Call, row)) &&
            (forall row :: row in r.putRows ==> RowHolds(cfg, catalog, today, md, Put, row))
  {
    var calls := SideTable(cfg, catalog, today, md, Call, ladder, Counters(0, 0), countReset);
    assert calls.Done?;
    SideRowsHold(cfg, catalog, today, md, Call, ladder, Counters(0, 0), countReset);
    SideRowsHold(cfg, catalog, today, md, Put, ladder, calls.value.counters, countReset);
  }

  /** Extending the ladder prefix by one strike appends that strike's outcome. */
  lemma SideTableSnoc(cfg: Config, catalog: seq<Instrument>, today: int, md: MarketData,
                      side: Side, ladder: seq<int>, i: nat, c0: Counters, countReset: bool, t: Table)
    requires i < |ladder|
    requires SideTable(cfg, catalog, today, md, side, ladder[..i], c0, countReset) == Done(t)
    ensures SideTable(cfg, catalog, today, md, side, ladder[..i + 1], c0, countReset)
            == match StrikeRow(cfg, catalog, today, md, side, ladder[i], t.counters, countReset)
               case MissingCurrentOi(s, k) => MissingCurrentOi(s, k)
               case Done(r) => Done(Table(t.rows + r.rows, r.counters))
  {
    assert ladder[..i + 1][..i] == ladder[..i];
    assert ladder[..i + 1][i] == ladder[i];
  }

  /** A missing current OI at some strike is the outcome of the whole side. */
  lemma {:induction false} MissingPersists(cfg: Config, catalog: seq<Instrument>, today: int, md: MarketData,
                                           side: Side, ladder: seq<int>, i: nat, c0: Counters, countReset: bool)
    requires i <= |ladder|
    requires SideTable(cfg, catalog, today, md, side, ladder[..i], c0, countReset).MissingCurrentOi?
    ensures SideTable(cfg, catalog, today, md, side, ladder, c0, countReset)
            == SideTable(cfg, catalog, today, md, side, ladder[..i], c0, countReset)
    decreases |ladder| - i
  {
    if i < |ladder| {
      assert ladder[..i + 1][..i] == ladder[..i];
      MissingPersists(cfg, catalog, today, md, side, ladder, i + 1, c0, countReset);
    } else {
      assert ladder[..i] == ladder;
    }
  }

  /**
   * The counters of a completed cycle: each side's counter is the number of its
   * abnormal cells (plus one per cell of its rows when the reset call counts).
   */
  lemma CycleCounts(cfg: Config, catalog: seq<Instrument>, indexToken: Option<int>, today: int,
                    ladder: seq<int>, md: MarketData, countReset: bool)
    requires Cycle(cfg, catalog, indexToken, today, ladder, md, countReset).Done?
    ensures var r := Cycle(cfg, catalog, indexToken, today, ladder, md, countReset).value;
            var windows := cfg.timeIntervals;
            |r.callRows| <= |ladder| && |r.putRows| <= |ladder| &&
            RowsFit(r.callRows, windows) && RowsFit(r.putRows, windows) &&
            r.counters.calls == RowsAbnormal(r.callRows, windows, cfg.colorThresholds)
                                + ResetCells(cfg.colorThresholds, countReset, CellCount(|r.callRows|, |windows|)) &&
            r.counters.puts == RowsAbnormal(r.putRows, windows, cfg.colorThresholds)
                               + ResetCells(cfg.colorThresholds, countReset, CellCount(|r.putRows|, |windows|))
  {
    var calls := SideTable(cfg, catalog, today, md, Call, ladder, Counters(0, 0), countReset);
    assert calls.Done?;
    var puts := SideTable(cfg, catalog, today, md, Put, ladder, calls.value.counters, countReset);
    assert puts.Done?;
    var r := Cycle(cfg, catalog, indexToken, today, ladder, md, countReset).value;
    assert r.callRows == calls.value.rows && r.putRows == puts.value.rows && r.counters == puts.value.counters;
    SideTableCount(cfg, catalog, today, md, Call, ladder, Counters(0, 0), countReset);
    SideTableCount(cfg, catalog, today, md, Put, ladder, calls.value.counters, countReset);
    assert CountOf(calls.value.counters, Put) == 0;
    assert CountOf(puts.value.counters, Call) == calls.value.counters.calls;
  }

  /**
   * Without the reset call's count no side's counter exceeds its cells: its
   * resolved strikes times windows, hence ladder length times windows.
   */
  lemma CountersWithinCells(cfg: Config, catalog: seq<Instrument>, indexToken: Option<int>, today: int,
                            ladder: seq<int>, md: MarketData)
    requires Cycle(cfg, catalog, indexToken, today, ladder, md, false).Done?
    ensures var r := Cycle(cfg, catalog, indexToken, today, ladder, md, false).value;
            var w := |cfg.timeIntervals|;
            |r.callRows| == |ResolvedStrikes(cfg, catalog, today, Call, ladder)| &&
            |r.putRows| == |ResolvedStrikes(cfg, catalog, today, Put, ladder)| &&
            r.counters.calls <= CellCount(|ResolvedStrikes(cfg, catalog, today, Call, ladder)|, w) <= CellCount(|ladder|, w) &&
            r.counters.puts <= CellCount(|ResolvedStrikes(cfg, catalog, today, Put, ladder)|, w) <= CellCount(|ladder|, w)
  {
    CycleCounts(cfg, catalog, indexToken, today, ladder, md, false);
    var r := Cycle(cfg, catalog, indexToken, today, ladder, md, false).value;
    var calls := SideTable(cfg, catalog, today, md, Call, ladder, Counters(0, 0), false);
    assert calls.Done?;
    var puts := SideTable(cfg, catalog, today, md, Put, ladder, calls.value.counters, false);
    assert puts.Done?;
    assert r.callRows == calls.value.rows && r.putRows == puts.value.rows;
    RowsAreResolved(cfg, catalog, today, md, Call, ladder, Counters(0, 0), false);
    RowsAreResolved(cfg, catalog, today, md, Put, ladder, calls.value.counters, false);
    var w := |cfg.timeIntervals|;
    MulMonotone(|r.callRows|, |ladder|, w);
    MulMonotone(|r.putRows|, |ladder|, w);
  }

  /** When the reset call does not count, the written cycle and the intended one agree. */
  lemma {:induction false} ResetSilentAgrees(cfg: Config, catalog: seq<Instrument>, indexToken: Option<int>, today: int,
                                             ladder: seq<int>, md: MarketData)
    requires !ResetCounts(cfg.colorThresholds)
    ensures Cycle(cfg, catalog, indexToken, today, ladder, md, true) == Cycle(cfg, catalog, indexToken, today, ladder, md, false)
  {
    forall side: Side, c0: Counters
      ensures SideTable(cfg, catalog, today, md, side, ladder, c0, true) == SideTable(cfg, catalog, today, md, side, ladder, c0, false)
    {
      SideAgrees(cfg, catalog, today, md, side, ladder, c0);
    }
  }

  lemma {:induction false} SideAgrees(cfg: Config, catalog: seq<Instrument>, today: int, md: MarketData,
                                      side: Side, ladder: seq<int>, c0: Counters)
    requires !ResetCounts(cfg.colorThresholds)
    ensures SideTable(cfg, catalog, today, md, side, ladder, c0, true) == SideTable(cfg, catalog, today, md, side, ladder, c0, false)
    decreases |ladder|
  {
    if |ladder| > 0 {
      SideAgrees(cfg, catalog, today, md, side, ladder[..|ladder| - 1], c0);
      forall current: int, token: int, c: Counters
        ensures RowCells(current, token, md, cfg.timeIntervals, cfg.colorThresholds, side, c, true)
             == RowCells(current, token, md, cfg.timeIntervals, cfg.colorThresholds, side, c, false)
      {
        RowAgrees(current, token, md, cfg.timeIntervals, cfg.colorThresholds, side, c);
      }
    }
  }

  lemma {:induction false} RowAgrees(current: int, token: int, md: MarketData, windows: seq<int>,
                                     thresholds: map<int, real>, side: Side, c: Counters)
    requires !ResetCounts(thresholds)
    ensures RowCells(current, token, md, windows, thresholds, side, c, true)
         == RowCells(current, token, md, windows, thresholds, side, c, false)
    decreases |windows|
  {
    if |windows| > 0 {
      RowAgrees(current, token, md, windows[..|windows| - 1], thresholds, side, c);
    }
  }

  /**
   * The alert of a completed cycle fires exactly when the ladder and the window
   * list are both non-empty and one side's count times 100 is strictly above
   * the alert percentage of ladder length times window count; strikes without
   * a row still count in that total.
   */
  lemma CycleAlert(cfg: Config, catalog: seq<Instrument>, indexToken: Option<int>, today: int,
                   ladder: seq<int>, md: MarketData, countReset: bool, r: CycleResult)
    requires Cycle(cfg, catalog, indexToken, today, ladder, md, countReset) == Done(r)
    ensures r.alert <==> |ladder| > 0 && |cfg.timeIntervals| > 0 &&
                         (Exceeds(r.counters.calls, CellCount(|ladder|, |cfg.timeIntervals|), cfg.alertThresholdPercentage) ||
                          Exceeds(r.counters.puts, CellCount(|ladder|, |cfg.timeIntervals|), cfg.alertThresholdPercentage))
  {
    CycleAlertIs(cfg, catalog, indexToken, today, ladder, md, countReset, r);
    AlertOverCells(r.counters, |ladder|, |cfg.timeIntervals|, cfg.alertThresholdPercentage);
  }

  /** The alert of a completed cycle is the alert test on its counters over all cells of the ladder. */
  lemma CycleAlertIs(cfg: Config, catalog: seq<Instrument>, indexToken: Option<int>, today: int,
                     ladder: seq<int>, md: MarketData, countReset: bool, r: CycleResult)
    requires Cycle(cfg, catalog, indexToken, today, ladder, md, countReset) == Done(r)
    ensures r.alert == AlertFires(r.counters, CellCount(|ladder|, |cfg.timeIntervals|), cfg.alertThresholdPercentage)
  {
    var calls := SideTable(cfg, catalog, today, md, Call, ladder, Counters(0, 0), countReset);
    assert calls.Done?;
  }

  /** The alert test over strikes times windows cells, without division. */
  lemma AlertOverCells(c: Counters, strikes: nat, windows: nat, a: real)
    ensures AlertFires(c, CellCount(strikes, windows), a) <==>
              strikes > 0 && windows > 0 &&
              (Exceeds(c.calls, CellCount(strikes, windows), a) || Exceeds(c.puts, CellCount(strikes, windows), a))
  {
    AlertIff(c, CellCount(strikes, windows), a);
    ProductPositive(strikes, windows);
  }

  /** Without the reset call's count an alert percentage of 100 or more never fires. */
  lemma NoAlertAboveFull(cfg: Config, catalog: seq<Instrument>, indexToken: Option<int>, today: int,
                         ladder: seq<int>, md: MarketData)
    requires cfg.alertThresholdPercentage >= 100.0
    requires Cycle(cfg, catalog, indexToken, today, ladder, md, false).Done?
    ensures !Cycle(cfg, catalog, indexToken, today, ladder, md, false).value.alert
  {
    var r := Cycle(cfg, catalog, indexToken, today, ladder, md, false).value;
    CountersWithinCells(cfg, catalog, indexToken, today, ladder, md);
    NoAlertAtFullShare(r.counters, CellCount(|ladder|, |cfg.timeIntervals|), cfg.alertThresholdPercentage);
  }

  /** The configuration of the reset-call example: one strike, one 5-minute window, threshold -1 for window 0, alert at 50%. */
  function ResetExampleConfig(): Config
  {
    Config("NSE:NIFTY 50", "NIFTY", 50, 1, [5], map[0 := -1.0], 50.0)
  }

  /** One call and one put contract at strike 19800. */
  function ResetExampleCatalog(): seq<Instrument>
  {
    [Instrument("NIFTY19800CE", "NIFTY", "CE", 19800.0, 10, 11),
     Instrument("NIFTY19800PE", "NIFTY", "PE", 19800.0, 10, 12)]
  }

  /** OI 100 now and 100 five minutes ago for every contract. */
  function ResetExampleMarket(): MarketData
  {
    MarketData(19820.0, t => [100], (t, m) => [100], m => [19800.0])
  }

  /** Facts shared by both halves of the reset-call example. */
  lemma ResetExampleCells()
    ensures OiChange(100, [100]) == Change(0.0, 0.0)
    ensures Resolve(ResetExampleCatalog(), "NIFTY", "CE", 19800, 0) == Some(ResetExampleCatalog()[0])
    ensures Resolve(ResetExampleCatalog(), "NIFTY", "PE", 19800, 0) == Some(ResetExampleCatalog()[1])
    ensures AbnormalCells([Change(0.0, 0.0)], [5], map[0 := -1.0]) == 0
  {
    var catalog := ResetExampleCatalog();
    assert PercentChange(100.0, 100.0) == 0.0 by {
      assert (100.0 - 100.0) / 100.0 * 100.0 == 0.0;
    }
    assert Matches(catalog[0], "NIFTY", "CE", 19800, 0);
    assert !Matches(catalog[1], "NIFTY", "CE", 19800, 0);
    assert !Matches(catalog[0], "NIFTY", "PE", 19800, 0);
    assert Matches(catalog[1], "NIFTY", "PE", 19800, 0);
    assert [Change(0.0, 0.0)][..0] == [];
  }

  /** The call side of the reset-call example: one row, and the call counter rises only through the reset call. */
  lemma ResetExampleCalls(countReset: bool)
    ensures SideTable(ResetExampleConfig(), ResetExampleCatalog(), 0, ResetExampleMarket(), Call, [19800], Counters(0, 0), countReset)
            == Done(Table([Row(19800, Some(100), [Change(0.0, 0.0)])], Counters(if countReset then 1 else 0, 0)))
  {
    var cfg, catalog, md := ResetExampleConfig(), ResetExampleCatalog(), ResetExampleMarket();
    ResetExampleCells();
    var d := Change(0.0, 0.0);
    var n := if countReset then 1 else 0;
    assert [19800][..0] == [] && [5][..0] == [];
    assert RowCells(100, 11, md, [5], cfg.colorThresholds, Call, Counters(0, 0), countReset) == Tally([d], Counters(n, 0));
    var row := Row(19800, Some(100), [d]);
    assert StrikeRow(cfg, catalog, 0, md, Call, 19800, Counters(0, 0), countReset) == Done(Table([row], Counters(n, 0)));
    assert SideTable(cfg, catalog, 0, md, Call, [19800][..0], Counters(0, 0), countReset) == Done(Table([], Counters(0, 0)));
    assert [] + [row] == [row];
  }

  /** The put side of the reset-call example, after any call counters. */
  lemma ResetExamplePuts(countReset: bool, c: Counters)
    ensures SideTable(ResetExampleConfig(), ResetExampleCatalog(), 0, ResetExampleMarket(), Put, [19800], c, countReset)
            == Done(Table([Row(19800, Some(100), [Change(0.0, 0.0)])], Counters(c.calls, c.puts + if countReset then 1 else 0)))
  {
    var cfg, catalog, md := ResetExampleConfig(), ResetExampleCatalog(), ResetExampleMarket();
    ResetExampleCells();
    var d := Change(0.0, 0.0);
    var n := if countReset then 1 else 0;
    assert [19800][..0] == [] && [5][..0] == [];
    assert RowCells(100, 12, md, [5], cfg.colorThresholds, Put, c, countReset) == Tally([d], Counters(c.calls, c.puts + n));
    var row := Row(19800, Some(100), [d]);
    assert StrikeRow(cfg, catalog, 0, md, Put, 19800, c, countReset) == Done(Table([row], Counters(c.calls, c.puts + n)));
    assert SideTable(cfg, catalog, 0, md, Put, [19800][..0], c, countReset) == Done(Table([], c));
    assert [] + [row] == [row];
  }

  /**
   * As written, the reset call get_color(0, 0, side) counts when window 0 has a
   * negative threshold: with one strike, one window and OI unchanged, no cell is
   * abnormal, yet both counters reach 1 of 1 cell and a 50% alert fires.
   */
  lemma ResetCallOvercounts()
    ensures var written := Cycle(ResetExampleConfig(), ResetExampleCatalog(), None, 0, [19800], ResetExampleMarket(), true);
            written.Done? &&
            RowsAbnormal(written.value.callRows, [5], map[0 := -1.0]) == 0 &&
            RowsAbnormal(written.value.putRows, [5], map[0 := -1.0]) == 0 &&
            written.value.counters == Counters(1, 1) && written.value.alert
  {
    ResetExampleCells();
    ResetExampleCalls(true);
    ResetExamplePuts(true, Counters(1, 0));
    var row := Row(19800, Some(100), [Change(0.0, 0.0)]);
    assert [row][..0] == [];
    assert CellCount(1, 1) == 1;
    assert Share(1, 1) == 100.0;
  }

  /** The same example without the reset call's count: both counters stay 0 and no alert fires. */
  lemma ResetCallCorrected()
    ensures var intended := Cycle(ResetExampleConfig(), ResetExampleCatalog(), None, 0, [19800], ResetExampleMarket(), false);
            intended.Done? && intended.value.counters == Counters(0, 0) && !intended.value.alert
  {
    ResetExampleCalls(false);
    ResetExamplePuts(false, Counters(0, 0));
    assert CellCount(1, 1) == 1;
    assert Share(0, 1) == 0.0;
  }

  // ---------------------------------------------------------------------------
  // The tracker object.
  // ---------------------------------------------------------------------------

  /** OiTracker: its configuration, the catalog, the index token and the current ladder. */
  class OiTracker {
    const config: Config
    const instruments: seq<Instrument>
    const indexToken: Option<int>
    var strikesToTrack: seq<int>

    /** __init__: keep the catalog and look up the index token. */
    constructor (config: Config, instruments: seq<Instrument>)
      ensures this.config == config && this.instruments == instruments
      ensures indexToken == IndexToken(instruments)
      ensures strikesToTrack == []
    {
      this.config := config;
      this.instruments := instruments;
      indexToken := IndexToken(instruments);
      strikesToTrack := [];
    }

    /** The first step of every pass of run: rebuild the ladder from the index quote. */
    method RefreshStrikes(indexPrice: real)
      requires config.strikeDifference != 0
      modifies this`strikesToTrack
      ensures strikesToTrack == StrikesToTrack(indexPrice, config.strikeDifference, config.strikesToTrack)
    {
      strikesToTrack := StrikesToTrack(indexPrice, config.strikeDifference, config.strikesToTrack);
    }

    /** The loop over the windows of one resolved strike (lines 114-124 and 141-151). */
    method WindowCells(current: int, token: int, md: MarketData, side: Side, c: Counters)
      returns (cells: seq<Change>, counters: Counters)
      ensures Tally(cells, counters) == RowCells(current, token, md, config.timeIntervals, config.colorThresholds, side, c, true)
    {
      var windows := config.timeIntervals;
      var thresholds := config.colorThresholds;
      cells, counters := [], c;
      var j := 0;
      while j < |windows|
        invariant 0 <= j <= |windows|
        invariant Tally(cells, counters) == RowCells(current, token, md, windows[..j], thresholds, side, c, true)
      {
        var minutes := windows[j];
        var d := OiChange(current, md.pastOi(token, minutes));
        counters := GetColor(counters, thresholds, d.pct, minutes, side);
        counters := GetColor(counters, thresholds, 0.0, 0, side);
        cells := cells + [d];
        assert windows[..j + 1][..j] == windows[..j];
        j := j + 1;
      }
      assert windows[..j] == windows;
    }

    /** One strike of one side: resolve it, read its current OI and run the window loop (lines 105-125 and 132-152). */
    method StrikeStep(today: int, md: MarketData, side: Side, strike: int, c: Counters) returns (out: Outcome<Table>)
      ensures out == StrikeRow(config, instruments, today, md, side, strike, c, true)
    {
      var inst := Resolve(instruments, config.symbolInitials, TypeCode(side), strike, today);
      if inst.None? || inst.value.token == 0 {
        return Done(Table([], c));
      }
      var token := inst.value.token;
      var data := md.latestOi(token);
      if |data| == 0 {
        if |config.timeIntervals| > 0 {
          return MissingCurrentOi(side, strike);
        }
        return Done(Table([Row(strike, None, [])], c));
      }
      var current := data[|data| - 1];
      var cells, counters := WindowCells(current, token, md, side, c);
      out := Done(Table([Row(strike, Some(current), cells)], counters));
    }

    /** The loop over the ladder for one side (lines 104-125 and 131-152). */
    method SideRows(today: int, md: MarketData, side: Side, c0: Counters) returns (out: Outcome<Table>)
      ensures out == SideTable(config, instruments, today, md, side, strikesToTrack, c0, true)
    {
      var ladder := strikesToTrack;
      var rows: seq<Row> := [];
      var counters := c0;
      var i := 0;
      while i < |ladder|
        invariant 0 <= i <= |ladder|
        invariant SideTable(config, instruments, today, md, side, ladder[..i], c0, true) == Done(Table(rows, counters))
      {
        SideTableSnoc(config, instruments, today, md, side, ladder, i, c0, true, Table(rows, counters));
        var step := StrikeStep(today, md, side, ladder[i], counters);
        if step.MissingCurrentOi? {
          MissingPersists(config, instruments, today, md, side, ladder, i + 1, c0, true);
          return step;
        }
        rows, counters := rows + step.value.rows, step.value.counters;
        i := i + 1;
      }
      assert ladder[..i] == ladder;
      out := Done(Table(rows, counters));
    }

    /** The index row (lines 158-161). */
    method IndexChanges(md: MarketData) returns (row: seq<Option<Change>>)
      ensures row == IndexRow(indexToken, md, config.timeIntervals)
    {
      var windows := config.timeIntervals;
      row := [];
      var k := 0;
      while k < |windows|
        invariant 0 <= k <= |windows|
        invariant |row| == k
        invariant forall j :: 0 <= j < k ==> row[j] == IndexChange(indexToken, md.pastClose(windows[j]), md.indexPrice)
      {
        row := row + [IndexChange(indexToken, md.pastClose(windows[k]), md.indexPrice)];
        k := k + 1;
      }
    }

    /** display_tables: one cycle; the returned alert stands for the single play_alert_sound call. */
    method DisplayTables(today: int, md: MarketData) returns (out: Outcome<CycleResult>)
      ensures out == Cycle(config, instruments, indexToken, today, strikesToTrack, md, true)
    {
      var calls := SideRows(today, md, Call, Counters(0, 0));
      if calls.MissingCurrentOi? {
        return MissingCurrentOi(calls.side, calls.strike);
      }
      var puts := SideRows(today, md, Put, calls.value.counters);
      if puts.MissingCurrentOi? {
        return MissingCurrentOi(puts.side, puts.strike);
      }
      var indexRow := IndexChanges(md);
      var counters := puts.value.counters;
      var totalCells := CellCount(|strikesToTrack|, |config.timeIntervals|);
      var alert := false;
      if totalCells > 0 {
        if Share(counters.calls, totalCells) > config.alertThresholdPercentage ||
           Share(counters.puts, totalCells) > config.alertThresholdPercentage {
          alert := true;
        }
      }
      assert alert == AlertFires(counters, totalCells, config.alertThresholdPercentage);
      out := Done(CycleResult(calls.value.rows, puts.value.rows, md.indexPrice, indexRow, counters, alert));
    }
  }
}
