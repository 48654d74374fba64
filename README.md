# OI tracker decision engine

A Dafny model of the decision core of `oi_tracker.py`, an option-chain monitor
for the NIFTY index. Each cycle the tracker:

1. builds a ladder of strikes around the at-the-money (ATM) strike, which is the
   index price rounded to the nearest strike increment;
2. resolves every strike, for calls (`CE`) and puts (`PE`), to the contract with
   the nearest expiry strictly after today;
3. compares each contract's current open interest (OI) with the first OI sample
   of several look-back windows, with a zero-guarded percentage;
4. counts, per side, the cells whose percentage is above the window's threshold
   (default 1000), and raises one alert when either side's share of
   `len(ladder) * len(windows)` cells is strictly above the alert percentage.

The broker's answers (index quote, catalog, OI and close samples) and today's
date are parameters. Modules:

- `Optional` (`option.dfy`): the `Option` datatype.
- `Ladder` (`ladder.dfy`): Python's `round`, the ATM strike and `_get_strikes_to_track`.
- `Catalog` (`catalog.dfy`): catalog rows, `_get_instrument_token` and the index-token lookup.
- `Delta` (`delta.dfy`): the zero-guarded windowed change for OI and for the index price.
- `Alerts` (`alerts.dfy`): `get_color`, thresholds and the alert decision.
- `Tracker` (`tracker.dfy`): one cycle as functions of its inputs, the lemmas about it, and the
  class `OiTracker`. Its methods run the loops of `display_tables`, and each method's `ensures`
  equates its result with those functions.

A cycle ends as `Done(result)` or `MissingCurrentOi(side, strike)`. The second case is the
`TypeError` the code raises when a resolved contract has no OI sample in the last minute
(`"N/A" - past_oi`) and at least one window is configured. The call table is built before the
put table, so the first such strike in that order raises it and no alert is raised. Nothing in the
code catches it, neither `run` nor the program's entry point, so it ends the whole program and not
just the cycle. `SideDoneIff` and `CycleDoneIff` state exactly when it does not happen.

Two consequences of the code as written:
- An even `strikes_to_track` gives a ladder of `count - 1` strikes, not `count`.
- A token of 0 counts as unresolved, because the code tests `if instrument_token:`.

## Model

| member | source | states |
|---|---|---|
| Ladder.RoundHalfEven | oi_tracker.py:34 | the result is within 1/2 of the argument, and an exact tie goes to the even integer |
| Ladder.RoundIsNearest | oi_tracker.py:34 | no integer is closer to the argument than its rounding |
| Ladder.AtmStrike | oi_tracker.py:33-34 | the ATM strike is a multiple of the increment and lies within half an increment of the price |
| Ladder.StrikesToTrack | oi_tracker.py:32-39 | the ladder has `LadderLength((count - 1) // 2)` strikes |
| Ladder.LadderLengthOfCount | oi_tracker.py:36-38 | for every price and increment the ladder is empty for count <= 0, has 2*((count-1)//2)+1 strikes otherwise, which is count for odd counts and count - 1 for even ones |
| Ladder.LadderShape | oi_tracker.py:38 | consecutive strikes differ by exactly the increment |
| Ladder.MiddleIsAtm | oi_tracker.py:33-38 | the middle strike of every non-empty ladder (count >= 1) is the ATM strike, so a one-strike ladder (count 1 or 2) is exactly [ATM] |
| Ladder.LadderAscending | oi_tracker.py:38 | with a positive increment the ladder is strictly ascending |
| Ladder.LadderExample | oi_tracker.py:33-38 | price 19820, increment 50, five strikes: ATM 19800 and ladder [19700, 19750, 19800, 19850, 19900] |
| Catalog.Matches | oi_tracker.py:44-49 | the four filter conditions: name, option type, strike, and an expiry strictly after today |
| Catalog.Candidates | oi_tracker.py:44-49 | the filtered rows are exactly the catalog rows with the requested name, type and strike and an expiry after today |
| Catalog.NearestIndex | oi_tracker.py:54 | the chosen row has the minimum expiry, and every earlier row expires strictly later |
| Catalog.Resolve | oi_tracker.py:41-55 | None exactly when no catalog row matches; otherwise a catalog row that matches all four conditions and has an expiry no later than any other match |
| Catalog.IndexToken | oi_tracker.py:21-25 | the token of the first row whose trading symbol is `NIFTY 50`, or None exactly when there is no such row |
| Catalog.ResolveExample | oi_tracker.py:44-55 | expiries T+16, T+9, T+2 and T at date T: the T+2 contract is chosen |
| Delta.PastOi | oi_tracker.py:116-117 | the first OI sample of a window's range, or 0 when the range has none |
| Delta.PastClose | oi_tracker.py:74-75 | the first close of a window's range, or 0 when the range has none |
| Delta.PercentChange | oi_tracker.py:80 | 0 when the past value is 0, whatever the current value |
| Delta.PercentScaled | oi_tracker.py:80 | with a non-zero past value, pct * past is 100 times the change |
| Delta.OiChange | oi_tracker.py:116-120 | change = current - first past sample (0 for an empty range); pct is 0 for a zero or missing baseline and otherwise the zero-guarded percentage of that baseline |
| Delta.IndexChange | oi_tracker.py:67-82 | "N/A" (None) exactly when the index token is missing or 0; otherwise the change against the first past close, 0% for an empty range |
| Delta.PercentSign | oi_tracker.py:80 | with a positive baseline the percentage is positive, zero or negative exactly as the value rose, stayed or fell |
| Alerts.Threshold | oi_tracker.py:90-91 | the configured threshold of the window, or 1000 when it has none |
| Alerts.GetColor | oi_tracker.py:88-97 | the side's counter rises by one exactly when pct is strictly above the window's threshold; the other side's counter is unchanged |
| Alerts.AlertFires | oi_tracker.py:164-168 | the alert decision: cells exist and one side's share of them, in percent, is strictly above the alert percentage; its division-free meaning is AlertIff |
| Alerts.ShareAbove | oi_tracker.py:166-167 | count / total * 100 > a exactly when count * 100 > a * total |
| Alerts.AlertIff | oi_tracker.py:164-168 | the alert fires exactly when total > 0 and one side's count * 100 exceeds the alert percentage of total |
| Alerts.NoAlertAtFullShare | oi_tracker.py:164-168 | counters no larger than the total never fire an alert percentage of 100 or more |
| Alerts.AlertExample | oi_tracker.py:164-168 | 15 cells at 20%: 3 abnormal cells (exactly 20%) do not fire, 4 do, on either side |
| Tracker.ColorCell | oi_tracker.py:123-124 | the two get_color calls of one cell, the second counted only when countReset holds; its counts are ColorCellCount |
| Tracker.RowCells | oi_tracker.py:114-124 | the window loop of one resolved strike as a recursion on the last window; its cells and counts are RowCellsShape and RowCellsCount |
| Tracker.StrikeRow | oi_tracker.py:105-125 | one strike: no row when unresolved or token 0, a row without cells when there are no windows and no current OI, the missing-OI error when there are windows, else the window loop on the last sample; its effect is StrikeRowCount, StrikeRowStrikes, StrikeDoneIff and StrikeRowHolds |
| Tracker.SideTable | oi_tracker.py:103-125 | the strike loop of one side, stopping at the first missing current OI; its rows and counts are RowsAreResolved, SideRowsHold and SideTableCount, and when it completes is SideDoneIff |
| Tracker.Cycle | oi_tracker.py:84-168 | display_tables: calls from zero counters, puts on the shared counters, the index row and the alert over ladder times windows cells; its counts and alert are CycleCounts and CycleAlert |
| Tracker.IndexRow | oi_tracker.py:157-161 | one entry per window, each the index change of that window: "N/A" exactly when the index token is missing or 0, otherwise the change against the window's first close |
| Tracker.RowCellsShape | oi_tracker.py:114-120 | a resolved strike gets one change per window, each against the first sample of that window's range |
| Tracker.RowCellsCount | oi_tracker.py:114-124 | the window loop raises only its own side's counter, by its abnormal cells, plus one per cell when the reset call counts |
| Tracker.ColorCellCount | oi_tracker.py:123-124 | one cell raises its side's counter by its abnormality plus the reset call's count, and leaves the other side unchanged |
| Tracker.StrikeRowCount | oi_tracker.py:104-125 | one strike adds at most one row, with one cell per window, and changes only its side's counter |
| Tracker.SideTableCount | oi_tracker.py:104-152 | a side's table has at most one row per strike; its counter rises by the abnormal cells of its rows (plus one per cell when the reset call counts); the other counter is unchanged |
| Tracker.SideRowStrikes | oi_tracker.py:104-106 | every row belongs to a ladder strike whose contract resolves with a non-zero token |
| Tracker.StrikeRowStrikes | oi_tracker.py:105-106 | a completed strike step adds a row for that strike exactly when its contract resolves with a non-zero token |
| Tracker.RowsAreResolved | oi_tracker.py:104-106 | a completed side has one row per resolved strike in ladder order: its row strikes are the ladder filtered by "resolves with a non-zero token" |
| Tracker.StrikeDoneIff | oi_tracker.py:105-119 | a strike step completes exactly unless its contract resolves with a non-zero token, has no OI sample in the last minute and at least one window is configured (the `"N/A" - past_oi` TypeError) |
| Tracker.SideDoneIff | oi_tracker.py:104-119 | a side completes exactly when every strike of its ladder completes in that sense |
| Tracker.CycleDoneIff | oi_tracker.py:104-146 | a cycle completes exactly when every ladder strike completes for calls and for puts |
| Tracker.StrikeRowHolds | oi_tracker.py:105-125 | the row of a completed strike: its strike resolves, its current OI is the last sample of the last minute ("N/A" only without windows), one cell per window, each that window's change against the first sample of its range |
| Tracker.SideRowsHold | oi_tracker.py:104-125 | every row of a completed side holds what StrikeRowHolds says |
| Tracker.CycleRowsHold | oi_tracker.py:104-152 | every row of both tables of a completed cycle holds it for its side |
| Tracker.MissingPersists | oi_tracker.py:111-119 | a missing current OI at one strike is the outcome of the whole side |
| Tracker.CycleCounts | oi_tracker.py:85-152 | each side's final counter is the number of abnormal cells of its rows (plus its cell count when the reset call counts) |
| Tracker.CountersWithinCells | oi_tracker.py:88-97 | without the reset call's count, each side has one row per resolved strike, and its counter is at most resolved strikes times windows, hence at most ladder length times windows |
| Tracker.ResetSilentAgrees | oi_tracker.py:124 | when window 0 has no negative threshold, the cycle as written equals the cycle without the reset call's count |
| Tracker.CycleAlert | oi_tracker.py:164-168 | the alert fires exactly when ladder and windows are non-empty and a side's count * 100 exceeds the alert percentage of ladder length times windows, unresolved strikes included |
| Tracker.AlertOverCells | oi_tracker.py:164-166 | the alert test over strikes times windows cells, without division |
| Tracker.NoAlertAboveFull | oi_tracker.py:164-168 | without the reset call's count, an alert percentage of 100 or more never fires |
| Tracker.ResetCallOvercounts | oi_tracker.py:123-124 | with threshold -1 for window 0, one strike, one window and OI unchanged, no cell is abnormal, yet both counters are 1 and a 50% alert fires |
| Tracker.ResetCallCorrected | oi_tracker.py:123-124 | the same example with the reset call not counted: both counters stay 0 and no alert fires |
| Tracker.OiTracker.constructor | oi_tracker.py:12-26 | keeps configuration and catalog, and sets the index token to the `NIFTY 50` lookup |
| Tracker.OiTracker.RefreshStrikes | oi_tracker.py:59 | the tracked ladder becomes the ladder of the index price |
| Tracker.OiTracker.WindowCells | oi_tracker.py:114-124 | the window loop, with its two get_color calls per cell, equals RowCells |
| Tracker.OiTracker.StrikeStep | oi_tracker.py:105-125 | one strike: resolve, read the last OI sample, run the window loop; equals StrikeRow |
| Tracker.OiTracker.SideRows | oi_tracker.py:104-125 | the strike loop of one side equals SideTable, stopping at the first missing current OI |
| Tracker.OiTracker.IndexChanges | oi_tracker.py:158-161 | the index row loop equals IndexRow |
| Tracker.OiTracker.DisplayTables | oi_tracker.py:84-168 | one cycle: calls, then puts, then the index row and the alert, equal to Cycle as written |

## Left out

- Broker I/O (`download_instruments`, `get_quote`, `get_historical_data`): foreign network calls. Their answers are the `catalog` and `MarketData` parameters.
- The run loop (`run`), `datetime.now()`, `timedelta` ranges and `time.sleep`: timing is outside the model. `RefreshStrikes` models the ladder step of one pass, with today's date and the samples of each range as parameters.
- Current quotes: the code fetches the index quote several times per cycle. The model uses one quote value per cycle.
- Printing: DataFrames, ANSI colours and `f"{x:.2f}%"` formatting are display only. Rows carry the numbers they would show.
- `play_alert_sound`: an OS-specific beep. It is the returned `alert` boolean.
- Configuration input: `setattr` injection, YAML, argparse, broker login and the `historical_data_interval` parameter passed to the broker. `Config` holds the values the core reads.
- Floating point: Python's `round` and the percentage arithmetic are exact on reals here, so binary rounding is not modelled. At the 3-of-15 example the float computation also gives exactly 20.0.
- Ladder.AtmStrike: a negative increment is allowed. The ladder is then descending, and it is proved ascending only for a positive increment. An increment of 0 is excluded because the code divides by it.
- Catalog.Resolve: among several matches with the same earliest expiry, the contract does not say which one is returned. The body picks the first in catalog order (`NearestIndex`). The code's pandas sort is not guaranteed stable, so it makes no promise either.
- Dates are day numbers, and catalog strikes are reals compared with the integer ladder strike.
- `strikes_to_track` before the first pass: the code has no such attribute until `run` sets it. The constructor starts it empty.

## Findings

| source | as written | input that shows it | evidently intended | confidence | as-written member | corrected member |
|---|---|---|---|---|---|---|
| oi_tracker.py:124 | every cell also calls `get_color(0, 0, side)` for the reset colour. That call counts an abnormal cell whenever `0 > thresholds.get(0, 1000)` | `color_thresholds = {0: -1}`, one strike, window `[5]`, OI 100 now and 5 minutes ago, alert at 50%: no cell is abnormal, yet both counters are 1 of 1 cell and the alert fires | the reset call only returns the reset colour and never counts | medium, not executed | Tracker.ResetCallOvercounts | Tracker.CountersWithinCells |

`Cycle(…, countReset)` carries a flag for this call. `false` is the corrected cycle. `CountersWithinCells` and `NoAlertAboveFull` are proved about it, and `ResetCallCorrected` proves the example's outcome under it. `DisplayTables` follows the code as written (`true`). `ResetSilentAgrees` proves that the two agree for every threshold map that gives window 0 no negative threshold.
