/**
 * Classification of one table cell as abnormal (get_color) and the alert
 * decision taken at the end of a cycle.
 */
module Alerts {
  import Ladder

  /** The two option sides; their instrument_type codes are "CE" and "PE". */
  datatype Side = Call | Put

  function TypeCode(side: Side): string
  {
    match side
    case Call => "CE"
    case Put => "PE"
  }

  /** The opposite side. */
  function Other(side: Side): Side
  {
    match side
    case Call => Put
    case Put => Call
  }

  /** The two counters of abnormal cells, one per side. */
  datatype Counters = Counters(calls: nat, puts: nat)

  /** The threshold used for a window length that has none configured. */
  const DefaultThreshold: real := 1000.0

  /** thresholds.get(minutes, 1000). */
  function Threshold(thresholds: map<int, real>, minutes: int): (t: real)
    ensures minutes !in thresholds ==> t == DefaultThreshold
    ensures minutes in thresholds ==> t == thresholds[minutes]
  {
    if minutes in thresholds then thresholds[minutes] else DefaultThreshold
  }

  /** A cell is abnormal when its percentage is strictly above the window's threshold. */
  predicate Abnormal(thresholds: map<int, real>, pct: real, minutes: int)
  {
    pct > Threshold(thresholds, minutes)
  }

  /** The count of one side. */
  function CountOf(c: Counters, side: Side): nat
  {
    match side
    case Call => c.calls
    case Put => c.puts
  }

  /**
   * get_color: the counter of the given side rises by one when the cell is
   * abnormal; the other side's counter never changes.
   */
  function GetColor(c: Counters, thresholds: map<int, real>, pct: real, minutes: int, side: Side): (r: Counters)
    ensures CountOf(r, side) == CountOf(c, side) + (if Abnormal(thresholds, pct, minutes) then 1 else 0)
    ensures CountOf(r, Other(side)) == CountOf(c, Other(side))
  {
    if Abnormal(thresholds, pct, minutes) then
      if side == Call then Counters(c.calls + 1, c.puts) else Counters(c.calls, c.puts + 1)
    else c
  }

  /**
   * The second get_color call made for every cell, get_color(0, 0, side),
   * which is meant only to produce the reset colour. It counts as well when
   * the thresholds give window 0 a negative threshold.
   */
  predicate ResetCounts(thresholds: map<int, real>)
  {
    Abnormal(thresholds, 0.0, 0)
  }

  /** A side's share of the cells in percent: count / total * 100. */
  function Share(count: nat, total: nat): real
    requires total > 0
  {
    count as real / total as real * 100.0
  }

  /**
   * The alert decision at the end of display_tables: there are cells and one
   * side's share is strictly above the alert percentage.
   */
  predicate AlertFires(c: Counters, total: int, alertPercentage: real)
  {
    total > 0 && (Share(c.calls, total) > alertPercentage || Share(c.puts, total) > alertPercentage)
  }

  /** x > 0 and t > 0 give x * t > 0. */
  lemma ScalePositive(x: real, t: real)
    requires x > 0.0 && t > 0.0
    ensures x * t > 0.0
  {
  }

  /** The share test without division: count * 100 > alertPercentage * total. */
  predicate Exceeds(count: nat, total: nat, alertPercentage: real)
  {
    count as real * 100.0 > alertPercentage * total as real
  }

  /** The share is above the alert percentage exactly when Exceeds holds. */
  lemma ShareAbove(count: nat, total: nat, alertPercentage: real)
    requires total > 0
    ensures Share(count, total) > alertPercentage <==> Exceeds(count, total, alertPercentage)
  {
    var t := total as real;
    var s := Share(count, total);
    assert s * t == count as real * 100.0;
    if s > alertPercentage {
      ScalePositive(s - alertPercentage, t);
    } else {
      Ladder.MulNonneg(alertPercentage - s, t);
    }
  }

  /** The alert fires exactly when there are cells and one side's count times 100 exceeds the alert percentage of the total. */
  lemma AlertIff(c: Counters, total: int, alertPercentage: real)
    ensures AlertFires(c, total, alertPercentage) <==>
              total > 0 && (Exceeds(c.calls, total, alertPercentage) || Exceeds(c.puts, total, alertPercentage))
  {
    if total > 0 {
      ShareAbove(c.calls, total, alertPercentage);
      ShareAbove(c.puts, total, alertPercentage);
    }
  }

  /** When no side has more cells than there are, an alert percentage of 100 or more never fires. */
  lemma NoAlertAtFullShare(c: Counters, total: int, alertPercentage: real)
    requires c.calls <= total && c.puts <= total
    requires alertPercentage >= 100.0
    ensures !AlertFires(c, total, alertPercentage)
  {
    AlertIff(c, total, alertPercentage);
    if total > 0 {
      var t := total as real;
      Ladder.MulNonneg(alertPercentage - 100.0, t);
      assert c.calls as real * 100.0 <= 100.0 * t;
      assert c.puts as real * 100.0 <= 100.0 * t;
    }
  }

  /** Fifteen cells per side at a 20% alert: three abnormal cells (20%) do not fire, four (26.7%) do. */
  lemma AlertExample()
    ensures !AlertFires(Counters(3, 0), 15, 20.0)
    ensures !AlertFires(Counters(0, 3), 15, 20.0)
    ensures AlertFires(Counters(4, 0), 15, 20.0)
    ensures AlertFires(Counters(0, 4), 15, 20.0)
  {
    AlertIff(Counters(3, 0), 15, 20.0);
    AlertIff(Counters(0, 3), 15, 20.0);
    AlertIff(Counters(4, 0), 15, 20.0);
    AlertIff(Counters(0, 4), 15, 20.0);
  }
}
