/**
 * The zero-guarded windowed change used for option open interest (OI) and
 * for the index price: the past value is the first sample of the look-back
 * range (0 when the range is empty), change = current - past, and the
 * percentage is change / past * 100, or 0 when past is 0.
 */
module Delta {
  import opened Optional

  /** A change over one look-back window: the absolute change and the percentage. */
  datatype Change = Change(change: real, pct: real)

  /** past_data[0][...] if past_data else 0, for OI samples. */
  function PastOi(samples: seq<int>): int
  {
    if |samples| > 0 then samples[0] else 0
  }

  /** past_data[0]['close'] if past_data else 0, for index closes. */
  function PastClose(samples: seq<real>): real
  {
    if |samples| > 0 then samples[0] else 0.0
  }

  /** (change / past) * 100 if past != 0 else 0. */
  function PercentChange(current: real, past: real): (pct: real)
    ensures past == 0.0 ==> pct == 0.0
  {
    if past != 0.0 then (current - past) / past * 100.0 else 0.0
  }

  /** With a non-zero baseline the percentage times the baseline is 100 times the change. */
  lemma PercentScaled(current: real, past: real)
    requires past != 0.0
    ensures PercentChange(current, past) * past == (current - past) * 100.0
  {
    var q := (current - past) / past;
    assert q * past == current - past;
    assert PercentChange(current, past) * past == q * past * 100.0;
  }

  /** The change of an OI value against the first sample of a look-back range. */
  function OiChange(current: int, pastSamples: seq<int>): (d: Change)
    ensures d.change == (current - PastOi(pastSamples)) as real
    ensures |pastSamples| == 0 ==> d.pct == 0.0
    ensures PastOi(pastSamples) == 0 ==> d.pct == 0.0
    ensures PastOi(pastSamples) != 0 ==> d.pct == PercentChange(current as real, PastOi(pastSamples) as real)
  {
    var past := PastOi(pastSamples);
    Change((current - past) as real, PercentChange(current as real, past as real))
  }

  /**
   * get_nifty_change: "N/A" (None) when the index token is missing or 0,
   * otherwise the change of the current price against the first past close.
   */
  function IndexChange(indexToken: Option<int>, pastCloses: seq<real>, currentPrice: real): (r: Option<Change>)
    ensures r.None? <==> indexToken.None? || indexToken.value == 0
    ensures r.Some? ==> r.value.change == currentPrice - PastClose(pastCloses)
    ensures r.Some? && |pastCloses| == 0 ==> r.value.change == currentPrice && r.value.pct == 0.0
    ensures r.Some? ==> r.value.pct == PercentChange(currentPrice, PastClose(pastCloses))
  {
    if indexToken.None? || indexToken.value == 0 then None
    else
      var past := PastClose(pastCloses);
      Some(Change(currentPrice - past, PercentChange(currentPrice, past)))
  }

  /** With a positive baseline the percentage has the sign of the change, and it is 0 exactly when nothing changed. */
  lemma PercentSign(current: real, past: real)
    requires past > 0.0
    ensures PercentChange(current, past) > 0.0 <==> current > past
    ensures PercentChange(current, past) == 0.0 <==> current == past
    ensures PercentChange(current, past) < 0.0 <==> current < past
  {
    var pct := PercentChange(current, past);
    PercentScaled(current, past);
    if pct > 0.0 { assert pct * past > 0.0; }
    if pct < 0.0 { assert pct * past < 0.0; }
    if current > past { assert pct * past > 0.0; }
    if current < past { assert pct * past < 0.0; }
  }
}
