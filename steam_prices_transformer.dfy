/** Scripts/transformers/steam_prices_transformer.py: the exchange-rate
    table, the price parser and the per-app price collector of
    `SteamPricesETL`.  The two web APIs are replaced by their answers: the
    rate API by the dictionary it returned, the store API by an oracle
    function from (app, country code) to the (price text, currency) pair it
    returns, or None when the call raises. */
module SteamPricesTransformer {
  import opened Common
  import opened Text
  import opened Regex
  import opened Numbers
  import opened PriceString

  /** `get_currency_rates`: the rates the API returned with "USD" set to 1.
      `get_ex_rates` returns None when the answer has no "rates" member, and
      `None.update(..)` raises. */
  function GetCurrencyRates(apiRates: Option<map<string, real>>): (r: Result<map<string, real>>)
    ensures r.Err? <==> apiRates.None?
    ensures r.Ok? ==> "USD" in r.value && r.value["USD"] == 1.0
    ensures r.Ok? ==> forall c :: c != "USD" ==> (c in r.value <==> c in apiRates.value)
    ensures r.Ok? ==> forall c :: c != "USD" && c in apiRates.value ==> r.value[c] == apiRates.value[c]
  {
    match apiRates
    case None => Err(AttributeError)
    case Some(rates) => Ok(rates["USD" := 1.0])
  }

  /** `parse_app_price(price_str, ex_rate, currency_name)`; `exRate` is None
      when the caller's `ex_rates.get(..)` found nothing. */
  function ParseAppPrice(priceStr: string, exRate: Option<real>, currencyName: string): (r: (string, Num))
    ensures r.0 == currencyName
  {
    (currencyName, Normalise(priceStr, if exRate.Some? then Some(Value(exRate.value)) else None))
  }

  /** One element of the list `get_prices_per_app` builds. */
  datatype PriceRecord = PriceRecord(app: nat, country: string, currency: string, price: Num)

  /** The record for one (app, country) call of the store API, None when the
      call raised (the loop then skips to the next country).  The rate is
      looked up under the upper-cased currency; a missing one reaches the
      parser as None. */
  function RecordFor(app: nat, cc: string, exRates: map<string, real>, quote: Option<(string, string)>): Option<PriceRecord> {
    match quote
    case None => None
    case Some((priceStr, currency)) =>
      var key := Upper(currency);
      var rate := if key in exRates then Some(exRates[key]) else None;
      Some(PriceRecord(app, Lower(cc), Lower(currency), ParseAppPrice(priceStr, rate, currency).1))
  }

  function OptionList(o: Option<PriceRecord>): seq<PriceRecord> {
    if o.Some? then [o.value] else []
  }

  /** The records of one app, in the order of `ccs`. */
  function AppPrices(app: nat, ccs: seq<string>, exRates: map<string, real>,
                     getAppPrice: (nat, string) -> Option<(string, string)>): seq<PriceRecord>
  {
    if ccs == [] then []
    else AppPrices(app, ccs[..|ccs| - 1], exRates, getAppPrice) +
         OptionList(RecordFor(app, ccs[|ccs| - 1], exRates, getAppPrice(app, ccs[|ccs| - 1])))
  }

  /** All records, app after app. */
  function PricesPerApp(apps: seq<nat>, ccs: seq<string>, exRates: map<string, real>,
                        getAppPrice: (nat, string) -> Option<(string, string)>): seq<PriceRecord>
  {
    if apps == [] then []
    else PricesPerApp(apps[..|apps| - 1], ccs, exRates, getAppPrice) +
         AppPrices(apps[|apps| - 1], ccs, exRates, getAppPrice)
  }

  function CountryCodes(currencies: seq<(string, string)>): (r: seq<string>)
    ensures |r| == |currencies| && forall i :: 0 <= i < |r| ==> r[i] == currencies[i].0
  {
    if currencies == [] then [] else [currencies[0].0] + CountryCodes(currencies[1..])
  }

  /** `get_prices_per_app(app_ids, currencies, ex_rates)`: `currencies` is
      the dictionary's items in iteration order. */
  method GetPricesPerApp(apps: seq<nat>, currencies: seq<(string, string)>, exRates: map<string, real>,
                         getAppPrice: (nat, string) -> Option<(string, string)>)
    returns (prices: seq<PriceRecord>)
    ensures prices == PricesPerApp(apps, CountryCodes(currencies), exRates, getAppPrice)
  {
    var ccs := CountryCodes(currencies);
    prices := [];
    var i := 0;
    while i < |apps|
      invariant 0 <= i <= |apps|
      invariant prices == PricesPerApp(apps[..i], ccs, exRates, getAppPrice)
    {
      prices := AppendAppPrices(prices, apps[i], currencies, exRates, getAppPrice);
      assert apps[..i + 1][..i] == apps[..i];
      i := i + 1;
    }
    assert apps[..i] == apps;
  }

  /** The inner loop of `get_prices_per_app`: the records of one app,
      appended to `prices`. */
  method AppendAppPrices(prices0: seq<PriceRecord>, app: nat, currencies: seq<(string, string)>,
                         exRates: map<string, real>, getAppPrice: (nat, string) -> Option<(string, string)>)
    returns (prices: seq<PriceRecord>)
    ensures prices == prices0 + AppPrices(app, CountryCodes(currencies), exRates, getAppPrice)
  {
    var ccs := CountryCodes(currencies);
    prices := prices0;
    var j := 0;
    while j < |currencies|
      invariant 0 <= j <= |currencies|
      invariant prices == prices0 + AppPrices(app, ccs[..j], exRates, getAppPrice)
    {
      var cc := currencies[j].0;
      AppPricesStep(prices0, prices, app, ccs, j, exRates, getAppPrice);
      var quote := getAppPrice(app, cc);
      if quote.Some? {
        var (priceStr, currency) := quote.value;
        var key := Upper(currency);
        var rate := if key in exRates then Some(exRates[key]) else None;
        var (_, usdPrice) := ParseAppPrice(priceStr, rate, currency);
        assert OptionList(RecordFor(app, cc, exRates, quote)) == [PriceRecord(app, Lower(cc), Lower(currency), usdPrice)];
        prices := prices + [PriceRecord(app, Lower(cc), Lower(currency), usdPrice)];
      } else {
        assert prices + OptionList(RecordFor(app, cc, exRates, quote)) == prices;
      }
      j := j + 1;
    }
    assert ccs[..j] == ccs;
  }

  lemma AppPricesStep(prices0: seq<PriceRecord>, prices: seq<PriceRecord>, app: nat, ccs: seq<string>, j: nat,
                      exRates: map<string, real>, getAppPrice: (nat, string) -> Option<(string, string)>)
    requires j < |ccs| && prices == prices0 + AppPrices(app, ccs[..j], exRates, getAppPrice)
    ensures prices + OptionList(RecordFor(app, ccs[j], exRates, getAppPrice(app, ccs[j]))) ==
            prices0 + AppPrices(app, ccs[..j + 1], exRates, getAppPrice)
  {
    assert ccs[..j + 1][..j] == ccs[..j];
  }

  lemma {:induction false} AppPricesBound(app: nat, ccs: seq<string>, exRates: map<string, real>,
                                          getAppPrice: (nat, string) -> Option<(string, string)>)
    ensures |AppPrices(app, ccs, exRates, getAppPrice)| <= |ccs|
    ensures forall r :: r in AppPrices(app, ccs, exRates, getAppPrice) ==>
      r.app == app && exists j :: 0 <= j < |ccs| && Some(r) == RecordFor(app, ccs[j], exRates, getAppPrice(app, ccs[j]))
  {
    if ccs != [] {
      var init := ccs[..|ccs| - 1];
      AppPricesBound(app, init, exRates, getAppPrice);
      forall r | r in AppPrices(app, ccs, exRates, getAppPrice)
        ensures exists j :: 0 <= j < |ccs| && Some(r) == RecordFor(app, ccs[j], exRates, getAppPrice(app, ccs[j]))
      {
        if r in AppPrices(app, init, exRates, getAppPrice) {
          var j :| 0 <= j < |init| && Some(r) == RecordFor(app, init[j], exRates, getAppPrice(app, init[j]));
          assert init[j] == ccs[j];
        } else {
          assert Some(r) == RecordFor(app, ccs[|ccs| - 1], exRates, getAppPrice(app, ccs[|ccs| - 1]));
        }
      }
    }
  }

  /** At most one record per (app, country) pair, each for an app of the
      input and coming from one store-API answer; a call that raised leaves
      no record. */
  lemma {:induction false} PricesPerAppBound(apps: seq<nat>, ccs: seq<string>, exRates: map<string, real>,
                                             getAppPrice: (nat, string) -> Option<(string, string)>)
    ensures |PricesPerApp(apps, ccs, exRates, getAppPrice)| <= |apps| * |ccs|
    ensures forall r :: r in PricesPerApp(apps, ccs, exRates, getAppPrice) ==> r.app in apps
  {
    if apps != [] {
      var init := apps[..|apps| - 1];
      var last := apps[|apps| - 1];
      PricesPerAppBound(init, ccs, exRates, getAppPrice);
      AppPricesBound(last, ccs, exRates, getAppPrice);
      MulSucc(|init|, |ccs|);
      forall r | r in PricesPerApp(apps, ccs, exRates, getAppPrice)
        ensures r.app in apps
      {
        if r in PricesPerApp(init, ccs, exRates, getAppPrice) {
          assert r.app in init;
        }
      }
    }
  }

  lemma MulSucc(n: nat, c: nat)
    ensures (n + 1) * c == n * c + c
  {
  }

  lemma MulIndex(i: nat, j: nat, n: nat, c: nat)
    requires i <= n && j < c
    ensures i * c + j < (n + 1) * c
    ensures i < n ==> i * c + j < n * c
    ensures i == n ==> i * c == n * c
  {
    if i < n {
      assert (i + 1) * c <= n * c;
    }
  }

  lemma {:induction false} AppPricesAllSucceed(app: nat, ccs: seq<string>, exRates: map<string, real>,
                                               getAppPrice: (nat, string) -> Option<(string, string)>)
    requires forall j :: 0 <= j < |ccs| ==> getAppPrice(app, ccs[j]).Some?
    ensures |AppPrices(app, ccs, exRates, getAppPrice)| == |ccs|
    ensures forall j :: 0 <= j < |ccs| ==>
      Some(AppPrices(app, ccs, exRates, getAppPrice)[j]) == RecordFor(app, ccs[j], exRates, getAppPrice(app, ccs[j]))
  {
    if ccs != [] {
      var init := ccs[..|ccs| - 1];
      AppPricesAllSucceed(app, init, exRates, getAppPrice);
    }
  }

  lemma {:induction false} PricesPerAppLength(apps: seq<nat>, ccs: seq<string>, exRates: map<string, real>,
                                              getAppPrice: (nat, string) -> Option<(string, string)>)
    requires forall a, c :: getAppPrice(a, c).Some?
    ensures |PricesPerApp(apps, ccs, exRates, getAppPrice)| == |apps| * |ccs|
  {
    if apps != [] {
      PricesPerAppLength(apps[..|apps| - 1], ccs, exRates, getAppPrice);
      AppPricesAllSucceed(apps[|apps| - 1], ccs, exRates, getAppPrice);
      MulSucc(|apps| - 1, |ccs|);
    }
  }

  /** When no call raises there is exactly one record per (app, country),
      app-major: the record of `apps[i]` and `ccs[j]` sits at `i * |ccs| + j`. */
  lemma {:induction false} PricesPerAppAt(apps: seq<nat>, ccs: seq<string>, exRates: map<string, real>,
                                          getAppPrice: (nat, string) -> Option<(string, string)>, i: nat, j: nat)
    requires forall a, c :: getAppPrice(a, c).Some?
    requires i < |apps| && j < |ccs|
    ensures i * |ccs| + j < |PricesPerApp(apps, ccs, exRates, getAppPrice)|
    ensures Some(PricesPerApp(apps, ccs, exRates, getAppPrice)[i * |ccs| + j]) ==
            RecordFor(apps[i], ccs[j], exRates, getAppPrice(apps[i], ccs[j]))
  {
    var n := |apps| - 1;
    PricesPerAppSplit(apps, ccs, exRates, getAppPrice);
    MulIndex(i, j, n, |ccs|);
    MulSucc(n, |ccs|);
    if i < n {
      PricesPerAppAt(apps[..n], ccs, exRates, getAppPrice, i, j);
      assert apps[..n][i] == apps[i];
    } else {
      AppPricesAllSucceed(apps[n], ccs, exRates, getAppPrice);
    }
  }

  /** The records of all apps but the last, then those of the last. */
  lemma PricesPerAppSplit(apps: seq<nat>, ccs: seq<string>, exRates: map<string, real>,
                          getAppPrice: (nat, string) -> Option<(string, string)>)
    requires forall a, c :: getAppPrice(a, c).Some?
    requires apps != []
    ensures PricesPerApp(apps, ccs, exRates, getAppPrice) ==
      PricesPerApp(apps[..|apps| - 1], ccs, exRates, getAppPrice) + AppPrices(apps[|apps| - 1], ccs, exRates, getAppPrice)
    ensures |PricesPerApp(apps[..|apps| - 1], ccs, exRates, getAppPrice)| == (|apps| - 1) * |ccs|
    ensures |AppPrices(apps[|apps| - 1], ccs, exRates, getAppPrice)| == |ccs|
  {
    PricesPerAppLength(apps[..|apps| - 1], ccs, exRates, getAppPrice);
    AppPricesAllSucceed(apps[|apps| - 1], ccs, exRates, getAppPrice);
  }

  lemma {:induction false} AppPricesAllFail(app: nat, ccs: seq<string>, exRates: map<string, real>,
                                            getAppPrice: (nat, string) -> Option<(string, string)>)
    requires forall c :: getAppPrice(app, c).None?
    ensures AppPrices(app, ccs, exRates, getAppPrice) == []
  {
    if ccs != [] {
      AppPricesAllFail(app, ccs[..|ccs| - 1], exRates, getAppPrice);
    }
  }

  /** With the repository's `SteamWebApi`, whose `get_app_price` takes no
      `country_code` keyword, every call raises, and the list is empty. */
  lemma {:induction false} PricesPerAppAllFail(apps: seq<nat>, ccs: seq<string>, exRates: map<string, real>,
                                               getAppPrice: (nat, string) -> Option<(string, string)>)
    requires forall a, c :: getAppPrice(a, c).None?
    ensures PricesPerApp(apps, ccs, exRates, getAppPrice) == []
  {
    if apps != [] {
      PricesPerAppAllFail(apps[..|apps| - 1], ccs, exRates, getAppPrice);
      AppPricesAllFail(apps[|apps| - 1], ccs, exRates, getAppPrice);
    }
  }

  /** A currency missing from the rate table still gives a record, priced NaN. */
  lemma MissingRateGivesNaN(app: nat, cc: string, exRates: map<string, real>, priceStr: string, currency: string)
    requires Upper(currency) !in exRates
    ensures RecordFor(app, cc, exRates, Some((priceStr, currency))) ==
            Some(PriceRecord(app, Lower(cc), Lower(currency), NaN))
  {
    NormaliseNaN(priceStr, None);
  }

  /** The prices of `parse_app_price` are exactly NaN when the text has no
      digit or the rate is missing or zero. */
  lemma ParseAppPriceNaN(priceStr: string, exRate: Option<real>, currencyName: string)
    ensures ParseAppPrice(priceStr, exRate, currencyName).1.NaN? <==>
      NoDigit(priceStr) || exRate.None? || exRate == Some(0.0)
  {
    NormaliseNaN(priceStr, if exRate.Some? then Some(Value(exRate.value)) else None);
  }

  /** Worked examples at rate 1, stated for every digit string that
      reads as the numbers shown (so "12,50", but also "012,50") and any
      text `post` after the run that does not extend it (such as " €").
      A run "12,50" is kept as 12.5 on the first reading. */
  lemma CommaDecimalKept(whole: string, fraction: string, post: string, currency: string)
    requires |whole| > 0 && AllDigits(whole) && DigitsValue(whole) == 12
    requires |fraction| == 2 && AllDigits(fraction) && DigitsValue(fraction) == 50
    requires post != [] ==> !IsDigit(post[0])
    ensures ParseAppPrice(whole + [','] + fraction + post, Some(1.0), currency) == (currency, Value(12.5))
  {
    ExampleRun(whole, Some(','), fraction, post, 1250, 12.5, 1250.0);
    NormaliseOfRun(whole + [','] + fraction + post, whole, Some(','), fraction, 1.0);
  }

  /** "12.50" reads 1250 first, which is out of range, and falls back to 12.5. */
  lemma DotDecimalFallsBack(whole: string, fraction: string, post: string, currency: string)
    requires |whole| > 0 && AllDigits(whole) && DigitsValue(whole) == 12
    requires |fraction| == 2 && AllDigits(fraction) && DigitsValue(fraction) == 50
    requires post != [] ==> !IsDigit(post[0])
    ensures ParseAppPrice(whole + ['.'] + fraction + post, Some(1.0), currency) == (currency, Value(12.5))
  {
    ExampleRun(whole, Some('.'), fraction, post, 1250, 1250.0, 12.5);
    NormaliseOfRun(whole + ['.'] + fraction + post, whole, Some('.'), fraction, 1.0);
  }

  /** Only one separator is kept: "1.234,56" is read from "1.234", which
      reads 1234 first and falls back to 1.234. */
  lemma OneSeparatorOnly(whole: string, fraction: string, sep2: char, rest: string, currency: string)
    requires |whole| > 0 && AllDigits(whole) && DigitsValue(whole) == 1
    requires |fraction| == 3 && AllDigits(fraction) && DigitsValue(fraction) == 234
    requires !IsDigit(sep2)
    ensures PriceRun(whole + ['.'] + fraction + ([sep2] + rest)) == Some(whole + ['.'] + fraction)
    ensures ParseAppPrice(whole + ['.'] + fraction + ([sep2] + rest), Some(1.0), currency) ==
            (currency, Value(1.234))
  {
    ExampleRun(whole, Some('.'), fraction, [sep2] + rest, 1234, 1234.0, 1.234);
    NormaliseOfRun(whole + ['.'] + fraction + ([sep2] + rest), whole, Some('.'), fraction, 1.0);
  }

  /** The fallback is not checked again: "5000" stays 5000. */
  lemma FallbackUnchecked(whole: string, post: string, currency: string)
    requires |whole| > 0 && AllDigits(whole) && DigitsValue(whole) == 5000
    requires post != [] ==> !IsDigit(post[0]) && post[0] !in PriceSeparators
    ensures ParseAppPrice(whole + post, Some(1.0), currency) == (currency, Value(5000.0))
  {
    ExampleRun(whole, None, "", post, 5000, 5000.0, 5000.0);
    NormaliseOfRun(whole + post, whole, None, "", 1.0);
  }

  /** The run and the two reading values of the text `whole sep fraction
      post` of a worked example, where `joined` is the value of the digits
      without the separator. */
  lemma ExampleRun(whole: string, sep: Option<char>, fraction: string, post: string,
                   joined: nat, first: real, second: real)
    requires |whole| > 0 && AllDigits(whole) && AllDigits(fraction)
    requires sep.Some? ==> sep.value in PriceSeparators
    requires sep.None? ==> fraction == [] && (post != [] ==> post[0] !in PriceSeparators)
    requires post != [] ==> !IsDigit(post[0])
    requires DigitsValue(whole) * Pow10(|fraction|) + DigitsValue(fraction) == joined
    requires first == if sep == Some(',') then DecimalValue(whole, fraction) else joined as real
    requires second == if sep == Some('.') then DecimalValue(whole, fraction) else joined as real
    ensures PriceRun(whole + SepString(sep) + fraction + post) == Some(whole + SepString(sep) + fraction)
    ensures sep.None? ==> PriceRun(whole + post) == Some(whole + SepString(sep) + fraction)
    ensures FirstReadingValue(whole, sep, fraction) == first
    ensures SecondReadingValue(whole, sep, fraction) == second
  {
    PriceRunOf("", whole, sep, fraction, post);
    assert "" + whole + SepString(sep) + fraction + post == whole + SepString(sep) + fraction + post;
    if sep.None? {
      assert whole + SepString(sep) + fraction + post == whole + post;
    }
    DigitsValueAppend(whole, fraction);
  }

  lemma NoDigitIsNaN()
    ensures ParseAppPrice("N/A", Some(1.0), "USD") == ("USD", NaN)
  {
    assert NoDigit("N/A");
    NormaliseNaN("N/A", Some(Value(1.0)));
  }
}
