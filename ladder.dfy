/**
 * The strike ladder: the at-the-money (ATM) strike is the index price rounded
 * to the nearest strike increment, and the ladder lists the strikes
 * ATM + i * increment for i in -half .. half, where half = (count - 1) // 2.
 */
module Ladder {

  /** Distance between two reals. */
  function Dist(a: real, b: real): real
  {
    if a <= b then b - a else a - b
  }

  /**
   * Python's round() on a number: the nearest integer, ties to the even one.
   * The model rounds the exact real value; binary floating point is not modelled.
   */
  function RoundHalfEven(x: real): (r: int)
    ensures Dist(r as real, x) <= 0.5
    ensures Dist(r as real, x) == 0.5 ==> r % 2 == 0
  {
    var f := x.Floor;
    assert f as real <= x < f as real + 1.0;
    var frac := x - f as real;
    if frac < 0.5 then f
    else if frac > 0.5 then f + 1
    else if f % 2 == 0 then f
    else f + 1
  }

  /** No integer is closer to x than its rounding. */
  lemma RoundIsNearest(x: real, n: int)
    ensures Dist(RoundHalfEven(x) as real, x) <= Dist(n as real, x)
  {
    var f := x.Floor;
    assert f as real <= x < f as real + 1.0;
    assert n <= f || n >= f + 1;
  }

  /** x >= 1 and d > 0 give x * d >= d. */
  lemma {:induction false} MulAtLeast(x: int, d: int)
    requires x >= 1 && d > 0
    ensures x * d >= d
    decreases x
  {
    if x > 1 {
      MulAtLeast(x - 1, d);
      assert x * d == (x - 1) * d + d;
    }
  }

  /** A multiple of d leaves no remainder: (q * d) % d == 0. */
  lemma MultipleMod(q: int, d: int)
    requires d != 0
    ensures (q * d) % d == 0
  {
    var m := q * d;
    var r := m % d;
    var t := m / d;
    assert m == t * d + r;
    assert 0 <= r < if d > 0 then d else -d;
    var x := q - t;
    assert x * d == r;
    if x >= 1 && d > 0 {
      MulAtLeast(x, d);
    } else if x >= 1 && d < 0 {
      MulAtLeast(x, -d);
    } else if x <= -1 && d > 0 {
      MulAtLeast(-x, d);
    } else if x <= -1 && d < 0 {
      MulAtLeast(-x, -d);
    }
  }

  /** The product of two non-negative reals is non-negative. */
  lemma MulNonneg(a: real, b: real)
    requires a >= 0.0 && b >= 0.0
    ensures a * b >= 0.0
  {
  }

  /** The ATM strike: round(price / increment) * increment. */
  function AtmStrike(price: real, increment: int): (atm: int)
    requires increment != 0
    ensures atm % increment == 0
    ensures Dist(atm as real, price) <= Dist(increment as real, 0.0) / 2.0
  {
    var q := RoundHalfEven(price / increment as real);
    MultipleMod(q, increment);
    AtmNear(price, increment, q);
    q * increment
  }

  /** Scaling the rounding error of price / increment back by the increment. */
  lemma AtmNear(price: real, increment: int, q: int)
    requires increment != 0
    requires Dist(q as real, price / increment as real) <= 0.5
    ensures Dist((q * increment) as real, price) <= Dist(increment as real, 0.0) / 2.0
  {
    var d := increment as real;
    var p := price / d;
    assert p * d == price;
    var e := q as real - p;
    assert -0.5 <= e <= 0.5;
    assert (q * increment) as real == q as real * d;
    assert q as real * d - price == e * d;
    if d > 0.0 {
      MulNonneg(0.5 - e, d);
      MulNonneg(e + 0.5, d);
    } else {
      MulNonneg(0.5 - e, -d);
      MulNonneg(e + 0.5, -d);
    }
  }

  /** Python's (count - 1) // 2; for the positive divisor 2 Dafny's division is the same floor division. */
  function HalfWidth(count: int): int
  {
    (count - 1) / 2
  }

  /** The number of strikes in range(-half, half + 1). */
  function LadderLength(half: int): nat
  {
    if half < 0 then 0 else 2 * half + 1
  }

  /** The ladder for the index price: _get_strikes_to_track. */
  function StrikesToTrack(price: real, increment: int, count: int): (ladder: seq<int>)
    requires increment != 0
    ensures |ladder| == LadderLength(HalfWidth(count))
  {
    var atm := AtmStrike(price, increment);
    var half := HalfWidth(count);
    seq(LadderLength(half), k => atm + (k - half) * increment)
  }

  /** Length: 2 * half + 1, which is the configured count for odd counts, and empty for count <= 0 (for every price and increment, by the length clause of StrikesToTrack). */
  lemma LadderLengthOfCount(count: int)
    ensures count <= 0 ==> LadderLength(HalfWidth(count)) == 0
    ensures count >= 1 ==> LadderLength(HalfWidth(count)) == 2 * ((count - 1) / 2) + 1
    ensures count >= 1 && count % 2 == 1 ==> LadderLength(HalfWidth(count)) == count
    ensures count >= 1 && count % 2 == 0 ==> LadderLength(HalfWidth(count)) == count - 1
  {
  }

  /** Consecutive strikes differ by exactly the increment. */
  lemma LadderShape(price: real, increment: int, count: int, k: int)
    requires increment != 0
    requires 0 < k < |StrikesToTrack(price, increment, count)|
    ensures StrikesToTrack(price, increment, count)[k] - StrikesToTrack(price, increment, count)[k - 1] == increment
  {
    var ladder := StrikesToTrack(price, increment, count);
    var half := HalfWidth(count);
    var atm := AtmStrike(price, increment);
    assert ladder[k] == atm + (k - half) * increment;
    assert ladder[k - 1] == atm + (k - 1 - half) * increment;
    assert (k - half) * increment - (k - 1 - half) * increment == increment;
  }

  /** The middle strike of every non-empty ladder (count >= 1) is the ATM strike; a one-strike ladder is just the ATM strike. */
  lemma MiddleIsAtm(price: real, increment: int, count: int)
    requires increment != 0
    requires count >= 1
    ensures StrikesToTrack(price, increment, count)[|StrikesToTrack(price, increment, count)| / 2] == AtmStrike(price, increment)
    ensures |StrikesToTrack(price, increment, count)| == 1 ==> StrikesToTrack(price, increment, count) == [AtmStrike(price, increment)]
  {
    var ladder := StrikesToTrack(price, increment, count);
    assert |ladder| / 2 == HalfWidth(count);
  }

  /** With a positive increment the ladder is strictly ascending. */
  lemma {:induction false} LadderAscending(price: real, increment: int, count: int, i: int, j: int)
    requires increment > 0
    requires 0 <= i < j < |StrikesToTrack(price, increment, count)|
    ensures StrikesToTrack(price, increment, count)[i] < StrikesToTrack(price, increment, count)[j]
    decreases j - i
  {
    LadderShape(price, increment, count, j);
    if i < j - 1 {
      LadderAscending(price, increment, count, i, j - 1);
    }
  }

  /** A price of 19820 with increment 50 and five strikes. */
  lemma LadderExample()
    ensures AtmStrike(19820.0, 50) == 19800
    ensures StrikesToTrack(19820.0, 50, 5) == [19700, 19750, 19800, 19850, 19900]
  {
    assert 19820.0 / 50.0 == 396.4;
    assert (396.4).Floor == 396;
    var ladder := StrikesToTrack(19820.0, 50, 5);
    assert |ladder| == 5;
  }
}
