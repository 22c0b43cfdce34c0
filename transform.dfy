/** Scripts/transform.py: `process_country_prices`, a copy of the
    cleaners of Scripts/transformers/etl_transformer.py run in the same
    way, and `obtain_usd_rates`, which turns the cleaned rows into the
    country-to-rate table.  (`retrieve_steam_data` is in module Scheduler.) */
module Transform {
  import opened Common
  import opened Numbers
  import opened EtlTransformer

  /** `process_country_prices(soup)`: the converted-price loop, then the
      local-price loop, then the two columns of country cells, zipped.  It
      returns what `_consolidate_usd_rates_data` returns on the same table. */
  method ProcessCountryPrices(t: PricesTable) returns (r: Result<seq<(string, string, Num, Num)>>)
    ensures r == ConsolidateUsdRatesData(t)
  {
    var usds := ParsePriceTags(t.convertedCells);
    if usds.Err? {
      PriceTagsError(t.convertedCells);
      LocalPricesError(t.rows);
      return Err(usds.error);
    }
    var locals := ParseLocalPrices(t.rows);
    if locals.Err? {
      return Err(locals.error);
    }
    var codes := IsoCountryCodes(t.countryCells);
    var names := CountryNames(t.countryCells);
    return Ok(Zip4(codes, names, locals.value, usds.value));
  }

  /** One row of the cleaned table: code, name, local price, usd price. */
  type CountryPrice = (string, string, Num, Num)

  /** The dictionary `obtain_usd_rates` builds from the first rows, or the
      ZeroDivisionError of a row whose usd price is zero. */
  function UsdRates(data: seq<CountryPrice>): Result<map<string, Num>> {
    if data == [] then Ok(map[])
    else match UsdRates(data[..|data| - 1])
      case Err(e) => Err(e)
      case Ok(rates) =>
        var row := data[|data| - 1];
        match Divide(row.2, row.3)
        case Err(e) => Err(e)
        case Ok(q) => Ok(rates[row.0 := RoundNum(q)])
  }

  /** `obtain_usd_rates(price_data)`. */
  method ObtainUsdRates(data: seq<CountryPrice>) returns (r: Result<map<string, Num>>)
    ensures r == UsdRates(data)
  {
    var rates: map<string, Num> := map[];
    var i := 0;
    while i < |data|
      invariant 0 <= i <= |data|
      invariant UsdRates(data[..i]) == Ok(rates)
    {
      assert data[..i + 1][..i] == data[..i];
      var (code, _, local, usd) := data[i];
      var q := Divide(local, usd);
      if q.Err? {
        UsdRatesErrorStays(data, i + 1);
        return Err(q.error);
      }
      rates := rates[code := RoundNum(q.value)];
      i := i + 1;
    }
    assert data[..i] == data;
    return Ok(rates);
  }

  lemma {:induction false} UsdRatesErrorStays(data: seq<CountryPrice>, k: nat)
    requires k <= |data| && UsdRates(data[..k]).Err?
    ensures UsdRates(data) == UsdRates(data[..k])
    decreases |data| - k
  {
    if k < |data| {
      assert data[..k + 1][..k] == data[..k];
      UsdRatesErrorStays(data, k + 1);
    } else {
      assert data[..k] == data;
    }
  }

  /** The loop raises exactly when some row has a usd price of zero (even
      when its local price is nan), and then raises ZeroDivisionError. */
  lemma {:induction false} UsdRatesError(data: seq<CountryPrice>)
    ensures UsdRates(data).Err? <==> exists k :: 0 <= k < |data| && data[k].3 == Value(0.0)
    ensures UsdRates(data).Err? ==> UsdRates(data).error == ZeroDivisionError
  {
    if data != [] {
      var p := data[..|data| - 1];
      UsdRatesError(p);
      assert forall k :: 0 <= k < |p| ==> p[k] == data[k];
      if UsdRates(p).Err? {
        var k :| 0 <= k < |p| && p[k].3 == Value(0.0);
        assert data[k] == p[k];
      }
    }
  }

  /** Without an error, one key per distinct country code. */
  lemma {:induction false} UsdRatesKeys(data: seq<CountryPrice>)
    requires UsdRates(data).Ok?
    ensures UsdRates(data).value.Keys == set k | 0 <= k < |data| :: data[k].0
  {
    if data != [] {
      var p := data[..|data| - 1];
      UsdRatesKeys(p);
      assert forall k :: 0 <= k < |p| ==> p[k] == data[k];
      assert (set k | 0 <= k < |data| :: data[k].0) == (set k | 0 <= k < |p| :: p[k].0) + {data[|data| - 1].0};
    }
  }

  /** Without an error, each code's rate comes from its LAST row: that
      row's local price over its usd price, rounded to cents (nan stays
      nan). */
  lemma {:induction false} UsdRatesLastWins(data: seq<CountryPrice>, k: nat)
    requires UsdRates(data).Ok?
    requires k < |data| && forall l :: k < l < |data| ==> data[l].0 != data[k].0
    ensures data[k].0 in UsdRates(data).value
    ensures Divide(data[k].2, data[k].3).Ok?
    ensures UsdRates(data).value[data[k].0] == RoundNum(Divide(data[k].2, data[k].3).value)
  {
    var p := data[..|data| - 1];
    if k < |data| - 1 {
      assert forall l :: 0 <= l < |p| ==> p[l] == data[l];
      UsdRatesLastWins(p, k);
    }
  }

  /** Every rate in the table is nan or a whole number of cents. */
  lemma {:induction false} UsdRatesRounded(data: seq<CountryPrice>)
    requires UsdRates(data).Ok?
    ensures forall c :: c in UsdRates(data).value ==> UsdRates(data).value[c].NaN? || IsCents(UsdRates(data).value[c].v)
  {
    if data != [] {
      UsdRatesRounded(data[..|data| - 1]);
    }
  }
}
