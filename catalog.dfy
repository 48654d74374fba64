/**
 * The instrument catalog and the two lookups made in it: the option contract
 * for a strike and option type (_get_instrument_token) and the index
 * instrument looked up by its trading symbol when the tracker starts.
 */
module Catalog {
  import opened Optional

  /** One catalog row. Expiry dates are day numbers; the index row carries a strike of 0. */
  datatype Instrument = Instrument(
    tradingSymbol: string,
    name: string,
    instrumentType: string,
    strike: real,
    expiry: int,
    token: int)

  /** The trading symbol of the index row, fixed in the tracker. */
  const IndexSymbol: string := "NIFTY 50"

  /** The four filter conditions of _get_instrument_token: name, option type, strike, and expiry strictly after today. */
  predicate Matches(e: Instrument, name: string, optionType: string, strike: int, today: int)
  {
    e.name == name && e.instrumentType == optionType && e.strike == strike as real && e.expiry > today
  }

  /** The catalog rows passing the filter, in catalog order. */
  function Candidates(catalog: seq<Instrument>, name: string, optionType: string, strike: int, today: int): (r: seq<Instrument>)
    ensures |r| <= |catalog|
    ensures forall e :: e in r <==> e in catalog && Matches(e, name, optionType, strike, today)
  {
    if |catalog| == 0 then []
    else
      var rest := Candidates(catalog[1..], name, optionType, strike, today);
      if Matches(catalog[0], name, optionType, strike, today) then [catalog[0]] + rest else rest
  }

  /**
   * The position of the nearest-dated row: no row has an earlier expiry, and
   * every row before it expires strictly later (so ties go to catalog order).
   */
  function NearestIndex(s: seq<Instrument>): (i: nat)
    requires |s| > 0
    ensures i < |s|
    ensures forall k :: 0 <= k < |s| ==> s[i].expiry <= s[k].expiry
    ensures forall k :: 0 <= k < i ==> s[k].expiry > s[i].expiry
  {
    if |s| == 1 then 0
    else
      var j := NearestIndex(s[1..]);
      if s[0].expiry <= s[1..][j].expiry then 0 else j + 1
  }

  /**
   * _get_instrument_token: the matching contract with the earliest expiry, or
   * None exactly when no catalog row matches.
   */
  function Resolve(catalog: seq<Instrument>, name: string, optionType: string, strike: int, today: int): (r: Option<Instrument>)
    ensures r.None? <==> forall k :: 0 <= k < |catalog| ==> !Matches(catalog[k], name, optionType, strike, today)
    ensures r.Some? ==> r.value in catalog && Matches(r.value, name, optionType, strike, today)
    ensures r.Some? ==> forall k :: 0 <= k < |catalog| && Matches(catalog[k], name, optionType, strike, today) ==>
                          r.value.expiry <= catalog[k].expiry
  {
    var s := Candidates(catalog, name, optionType, strike, today);
    if |s| == 0 then
      assert forall k :: 0 <= k < |catalog| ==> !Matches(catalog[k], name, optionType, strike, today) by {
        forall k | 0 <= k < |catalog| ensures !Matches(catalog[k], name, optionType, strike, today) {
          assert catalog[k] in catalog;
        }
      }
      None
    else
      var i := NearestIndex(s);
      assert s[i] in s;
      assert forall k :: 0 <= k < |catalog| && Matches(catalog[k], name, optionType, strike, today) ==>
               s[i].expiry <= catalog[k].expiry by {
        forall k | 0 <= k < |catalog| && Matches(catalog[k], name, optionType, strike, today)
          ensures s[i].expiry <= catalog[k].expiry
        {
          assert catalog[k] in catalog;
          assert catalog[k] in s;
          var j :| 0 <= j < |s| && s[j] == catalog[k];
        }
      }
      Some(s[i])
  }

  /** The token of the first row whose trading symbol is the index symbol, or None when there is none. */
  function IndexToken(catalog: seq<Instrument>): (r: Option<int>)
    ensures r.None? <==> forall k :: 0 <= k < |catalog| ==> catalog[k].tradingSymbol != IndexSymbol
    ensures r.Some? ==> exists k :: 0 <= k < |catalog| && catalog[k].tradingSymbol == IndexSymbol &&
                          catalog[k].token == r.value &&
                          forall j :: 0 <= j < k ==> catalog[j].tradingSymbol != IndexSymbol
  {
    if |catalog| == 0 then None
    else if catalog[0].tradingSymbol == IndexSymbol then Some(catalog[0].token)
    else
      var r := IndexToken(catalog[1..]);
      if r.Some? then
        var k :| 0 <= k < |catalog[1..]| && catalog[1..][k].tradingSymbol == IndexSymbol &&
                 catalog[1..][k].token == r.value &&
                 forall j :: 0 <= j < k ==> catalog[1..][j].tradingSymbol != IndexSymbol;
        assert catalog[k + 1] == catalog[1..][k];
        assert forall j :: 0 <= j < k + 1 ==> catalog[j].tradingSymbol != IndexSymbol by {
          forall j | 0 <= j < k + 1 ensures catalog[j].tradingSymbol != IndexSymbol {
            if j > 0 { assert catalog[j] == catalog[1..][j - 1]; }
          }
        }
        r
      else
        assert forall k :: 0 <= k < |catalog| ==> catalog[k].tradingSymbol != IndexSymbol by {
          forall k | 0 <= k < |catalog| ensures catalog[k].tradingSymbol != IndexSymbol {
            if k > 0 { assert catalog[k] == catalog[1..][k - 1]; }
          }
        }
        r
  }

  /** Weekly expiries two, nine and sixteen days out: the two-day contract is chosen; one expiring today is not eligible. */
  lemma ResolveExample(today: int)
    ensures var catalog := [
              Instrument("NIFTY23OCT19800CE", "NIFTY", "CE", 19800.0, today + 16, 1016),
              Instrument("NIFTY23OCT19800CE", "NIFTY", "CE", 19800.0, today + 9, 1009),
              Instrument("NIFTY23OCT19800CE", "NIFTY", "CE", 19800.0, today + 2, 1002),
              Instrument("NIFTY23OCT19800CE", "NIFTY", "CE", 19800.0, today, 1000)];
            Resolve(catalog, "NIFTY", "CE", 19800, today) == Some(catalog[2])
  {
    var catalog := [
      Instrument("NIFTY23OCT19800CE", "NIFTY", "CE", 19800.0, today + 16, 1016),
      Instrument("NIFTY23OCT19800CE", "NIFTY", "CE", 19800.0, today + 9, 1009),
      Instrument("NIFTY23OCT19800CE", "NIFTY", "CE", 19800.0, today + 2, 1002),
      Instrument("NIFTY23OCT19800CE", "NIFTY", "CE", 19800.0, today, 1000)];
    var r := Resolve(catalog, "NIFTY", "CE", 19800, today);
    assert Matches(catalog[2], "NIFTY", "CE", 19800, today);
    assert r.Some?;
    assert r.value in catalog;
    assert r.value.expiry <= today + 2;
  }
}
