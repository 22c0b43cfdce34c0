/** Scripts/extract.py: the href cleaner of `get_list_reference`, the
    checkpoint reader `checkpoint_data_extraction` and the per-country price
    fetch `get_country_prices`.  The browser, the file system and the store
    API are replaced by what they return. */
module Extract {
  import opened Common
  import opened Text
  import opened Regex
  import opened Numbers
  import opened PriceString
  import SteamPricesTransformer

  // ---------------------------------------------------------------------
  // Href cleaning

  /** The characters `rstrip("/charts")` removes: a set, not a suffix. */
  const ChartsChars: set<char> := {'/', 'c', 'h', 'a', 'r', 't', 's'}

  /** The characters `lstrip("/app/")` removes: a set, not a prefix. */
  const AppChars: set<char> := {'/', 'a', 'p'}

  const AppPrefix: string := "/app/"

  /** The `href` filter: the attribute is present, non-empty and starts
      with "/app/". */
  predicate IsAppHref(href: Option<string>) {
    href.Some? && |href.value| >= |AppPrefix| && href.value[..|AppPrefix|] == AppPrefix
  }

  /** `href.strip(" ").rstrip("/charts").lstrip("/app/")`. */
  function CleanHref(href: string): (r: string)
    ensures r != [] ==> r[0] !in AppChars && r[|r| - 1] !in ChartsChars
  {
    var s := RStrip(Strip(href, {' '}), ChartsChars);
    var r := LStrip(s, AppChars);
    assert r != [] ==> r[|r| - 1] == s[|s| - 1];
    r
  }

  /** Some tag of `hrefs` passes the filter and cleans to `x`. */
  predicate CleansTo(hrefs: seq<Option<string>>, x: string) {
    exists i :: 0 <= i < |hrefs| && IsAppHref(hrefs[i]) && x == CleanHref(hrefs[i].value)
  }

  /** The cleaned hrefs of the tags that pass the filter, in document order. */
  function CleanedAppHrefs(hrefs: seq<Option<string>>): (r: seq<string>)
    ensures forall x :: x in r <==> CleansTo(hrefs, x)
  {
    if hrefs == [] then []
    else
      var p := hrefs[..|hrefs| - 1];
      var rest := CleanedAppHrefs(p);
      var last := hrefs[|hrefs| - 1];
      var r := if IsAppHref(last) then rest + [CleanHref(last.value)] else rest;
      forall x ensures x in r <==> CleansTo(hrefs, x) {
        CleanedStep(hrefs, p, x);
      }
      r
  }

  /** A tag cleans to `x` when one of the first tags does, or the last one
      passes the filter and cleans to `x`. */
  lemma CleanedStep(hrefs: seq<Option<string>>, p: seq<Option<string>>, x: string)
    requires hrefs != [] && p == hrefs[..|hrefs| - 1]
    ensures CleansTo(hrefs, x) <==>
      CleansTo(p, x) || (IsAppHref(hrefs[|hrefs| - 1]) && x == CleanHref(hrefs[|hrefs| - 1].value))
  {
    var n := |hrefs| - 1;
    if CleansTo(p, x) {
      var i :| 0 <= i < |p| && IsAppHref(p[i]) && x == CleanHref(p[i].value);
      assert p[i] == hrefs[i];
    }
    if IsAppHref(hrefs[n]) && x == CleanHref(hrefs[n].value) {
      assert CleansTo(hrefs, x);
    }
    if CleansTo(hrefs, x) {
      var i :| 0 <= i < |hrefs| && IsAppHref(hrefs[i]) && x == CleanHref(hrefs[i].value);
      if i < n {
        assert p[i] == hrefs[i];
        assert CleansTo(p, x);
      } else {
        assert i == n;
      }
    }
  }

  /** `list(set([... for tag in tags]))`: the cleaned ids of the "/app/"
      links, each once.  A Python set has no specified order, so only the
      elements and their distinctness are stated. */
  function ListReference(hrefs: seq<Option<string>>): (r: seq<string>)
    ensures NoDuplicates(r)
    ensures forall x :: x in r <==> CleansTo(hrefs, x)
  {
    Dedup(CleanedAppHrefs(hrefs))
  }

  /** A link "/app/<digits><tail>", whose tail is made of characters of
      "/charts" (such as "/charts/" or ""), cleans to the digits. */
  lemma CleanHrefOfId(id: string, tail: string)
    requires |id| > 0 && AllDigits(id)
    requires forall k :: 0 <= k < |tail| ==> tail[k] in ChartsChars
    ensures CleanHref(AppPrefix + id + tail) == id
  {
    NoSpaceEnds(id, tail);
    RStripLink(id, tail);
    LStripAppPrefix(id);
    CleanHrefSteps(AppPrefix + id + tail, AppPrefix + id, id);
  }

  lemma CleanHrefSteps(h: string, s: string, id: string)
    requires Strip(h, {' '}) == h && RStrip(h, ChartsChars) == s && LStrip(s, AppChars) == id
    ensures CleanHref(h) == id
  {
  }

  /** Such a link starts with "/" and ends in a digit or a "/charts"
      character, so it has no space to strip. */
  lemma NoSpaceEnds(id: string, tail: string)
    requires |id| > 0 && AllDigits(id)
    requires forall k :: 0 <= k < |tail| ==> tail[k] in ChartsChars
    ensures Strip(AppPrefix + id + tail, {' '}) == AppPrefix + id + tail
  {
    var h := AppPrefix + id + tail;
    assert h[0] == '/';
    assert h[|h| - 1] != ' ' by {
      if tail == [] { assert h[|h| - 1] == id[|id| - 1]; } else { assert h[|h| - 1] == tail[|tail| - 1]; }
    }
  }

  lemma RStripLink(id: string, tail: string)
    requires |id| > 0 && AllDigits(id)
    requires forall k :: 0 <= k < |tail| ==> tail[k] in ChartsChars
    ensures RStrip(AppPrefix + id + tail, ChartsChars) == AppPrefix + id
  {
    var s := AppPrefix + id;
    assert s[|s| - 1] == id[|id| - 1];
    RStripTail(s, tail);
  }

  /** `lstrip("/app/")` of "/app/<digits>" leaves the digits. */
  lemma LStripAppPrefix(id: string)
    requires |id| > 0 && IsDigit(id[0])
    ensures LStrip(AppPrefix + id, AppChars) == id
  {
    var s := AppPrefix + id;
    assert s[0] == '/' && s[1..] == "app/" + id;
    assert s[1..][0] == 'a' && s[1..][1..] == "pp/" + id;
    assert s[2..][0] == 'p' && s[2..][1..] == "p/" + id;
    assert s[3..][0] == 'p' && s[3..][1..] == "/" + id;
    assert s[4..][0] == '/' && s[4..][1..] == id;
  }

  /** `rstrip` drops a tail made of its characters, and stops at a digit. */
  lemma {:induction false} RStripTail(s: string, tail: string)
    requires |s| > 0 && IsDigit(s[|s| - 1])
    requires forall k :: 0 <= k < |tail| ==> tail[k] in ChartsChars
    ensures RStrip(s + tail, ChartsChars) == s
  {
    if tail == [] {
      assert s + tail == s;
    } else {
      var t := tail[..|tail| - 1];
      assert (s + tail)[..|s + tail| - 1] == s + t;
      RStripTail(s, t);
    }
  }

  // ---------------------------------------------------------------------
  // Checkpoint reading

  /** A JSON value as `json.load` returns it. */
  datatype Json =
    | JNull
    | JBool(b: bool)
    | JInt(i: int)
    | JReal(x: real)
    | JString(s: string)
    | JArray(items: seq<Json>)
    | JObject(fields: map<string, Json>)

  /** Python truthiness of a loaded JSON value. */
  predicate Truthy(j: Json) {
    match j
    case JNull => false
    case JBool(b) => b
    case JInt(i) => i != 0
    case JReal(x) => x != 0.0
    case JString(s) => s != []
    case JArray(items) => items != []
    case JObject(fields) => fields != map[]
  }

  /** The checkpoint file: missing, not valid JSON, or loaded. */
  datatype CheckpointFile = Absent | Malformed | Parsed(content: Json)

  /** `d.get(key) or 0` on a JSON object. */
  function FieldOrZero(fields: map<string, Json>, key: string): (r: Json)
    ensures Truthy(r) || r == JInt(0)
    ensures key in fields && Truthy(fields[key]) ==> r == fields[key]
    ensures (key !in fields || !Truthy(fields[key])) ==> r == JInt(0)
  {
    if key in fields && Truthy(fields[key]) then fields[key] else JInt(0)
  }

  /** `checkpoint_data_extraction()`: (game id, index).  A missing file
      reads as an empty dictionary; a malformed one raises (only
      FileNotFoundError is caught); a JSON value that is not an object has
      no `.get`. */
  function CheckpointDataExtraction(file: CheckpointFile): (r: Result<(Json, Json)>)
    ensures r.Err? <==> file.Malformed? || (file.Parsed? && !file.content.JObject?)
    ensures file.Malformed? ==> r == Err(JsonDecodeError)
    ensures file.Absent? ==> r == Ok((JInt(0), JInt(0)))
  {
    match file
    case Absent => Ok((FieldOrZero(map[], "game_id"), FieldOrZero(map[], "index")))
    case Malformed => Err(JsonDecodeError)
    case Parsed(j) =>
      if j.JObject? then Ok((FieldOrZero(j.fields, "game_id"), FieldOrZero(j.fields, "index")))
      else Err(AttributeError)
  }

  /** The object `retrieve_steam_data` writes after every completed future. */
  function CheckpointJson(index: int, gameId: int): Json {
    JObject(map["index" := JInt(index), "game_id" := JInt(gameId)])
  }

  /** Reading back a written checkpoint gives the written values (a zero
      reads as the default 0, which is the same value). */
  lemma CheckpointRoundTrip(index: int, gameId: int)
    ensures CheckpointDataExtraction(Parsed(CheckpointJson(index, gameId))) == Ok((JInt(gameId), JInt(index)))
  {
    var f := map["index" := JInt(index), "game_id" := JInt(gameId)];
    assert f["game_id"] == JInt(gameId) && f["index"] == JInt(index);
  }

  /** The two fields default independently: the game id read depends only
      on the "game_id" member and the index only on the "index" member. */
  lemma CheckpointFieldsIndependent(f1: map<string, Json>, f2: map<string, Json>)
    ensures ("game_id" in f1 <==> "game_id" in f2) && ("game_id" in f1 ==> f1["game_id"] == f2["game_id"]) ==>
      CheckpointDataExtraction(Parsed(JObject(f1))).value.0 == CheckpointDataExtraction(Parsed(JObject(f2))).value.0
    ensures ("index" in f1 <==> "index" in f2) && ("index" in f1 ==> f1["index"] == f2["index"]) ==>
      CheckpointDataExtraction(Parsed(JObject(f1))).value.1 == CheckpointDataExtraction(Parsed(JObject(f2))).value.1
  {
  }

  /** A missing or falsy member reads as 0, a truthy one as itself. */
  lemma CheckpointDefaults(fields: map<string, Json>)
    ensures var r := CheckpointDataExtraction(Parsed(JObject(fields)));
      r.Ok? &&
      (r.value.0 == JInt(0) <==> "game_id" !in fields || !Truthy(fields["game_id"]) || fields["game_id"] == JInt(0)) &&
      (r.value.1 == JInt(0) <==> "index" !in fields || !Truthy(fields["index"]) || fields["index"] == JInt(0))
  {
  }

  // ---------------------------------------------------------------------
  // Per-country prices

  /** The `price_overview` member of the store's answer. */
  datatype PriceOverview = PriceOverview(finalFormatted: Option<string>)

  /** The `data` member of a successful store answer (`isFree` is false
      when the member is missing). */
  datatype AppData = AppData(isFree: bool, priceOverview: Option<PriceOverview>)

  /** What `send_request` does: `requests.get` raises (outside its `try`),
      or it returns `{}` (unparsable answer, "success" false, any lookup
      failure), or the game's data, a non-empty dictionary. */
  datatype Response = RequestFailed | NoData | Data(data: AppData)

  /** `get_country_prices(usd_rates, params)` for `params["cc"] == cc`,
      where `resp` is what `send_request(params)` did. */
  function GetCountryPrices(usdRates: map<string, Num>, cc: string, resp: Response): (r: Result<(string, Num)>)
    ensures r.Err? <==> resp.RequestFailed?
    ensures r.Err? ==> r.error == RequestError
    ensures r.Ok? ==> r.value.0 == cc
  {
    match resp
    case RequestFailed => Err(RequestError)
    case NoData => Ok((cc, NaN))
    case Data(d) =>
      match d.priceOverview
      case None => Ok((cc, NaN))
      case Some(po) =>
        match po.finalFormatted
        case None => Ok((cc, NaN))
        case Some(text) => Ok((cc, Normalise(text, if cc in usdRates then Some(usdRates[cc]) else None)))
  }

  /** The formatted price text of an answer, when it has one. */
  function FinalFormatted(resp: Response): Option<string> {
    if resp.Data? && resp.data.priceOverview.Some? then resp.data.priceOverview.value.finalFormatted else None
  }

  /** The price is NaN exactly when the answer is empty, lacks the price
      text, the text has no digit, or the country's rate is missing, nan
      or zero. */
  lemma GetCountryPricesNaN(usdRates: map<string, Num>, cc: string, resp: Response)
    requires !resp.RequestFailed?
    ensures GetCountryPrices(usdRates, cc, resp) == Ok((cc, NaN)) <==>
      FinalFormatted(resp).None? || NoDigit(FinalFormatted(resp).value) ||
      cc !in usdRates || usdRates[cc] == NaN || usdRates[cc] == Value(0.0)
  {
    var text := FinalFormatted(resp);
    if text.Some? {
      NormaliseNaN(text.value, if cc in usdRates then Some(usdRates[cc]) else None);
    }
  }

  /** The same two-reading rule as `parse_app_price`, with the rate looked
      up by country code: first reading when it lands in [0.1, 100],
      otherwise the second reading, unchecked. */
  lemma GetCountryPricesRule(usdRates: map<string, Num>, cc: string, resp: Response,
                             whole: string, sep: Option<char>, fraction: string)
    requires FinalFormatted(resp).Some?
    requires |whole| > 0 && AllDigits(whole) && AllDigits(fraction)
    requires sep.Some? ==> sep.value in PriceSeparators
    requires sep.None? ==> fraction == []
    requires PriceRun(FinalFormatted(resp).value) == Some(whole + SepString(sep) + fraction)
    requires cc in usdRates && usdRates[cc].Value? && usdRates[cc].v != 0.0
    ensures GetCountryPrices(usdRates, cc, resp) ==
      Ok((cc, Value(EnvelopeRule(FirstReadingValue(whole, sep, fraction), SecondReadingValue(whole, sep, fraction), usdRates[cc].v))))
  {
    NormaliseOfRun(FinalFormatted(resp).value, whole, sep, fraction, usdRates[cc].v);
  }

  /** The two copies of the normaliser agree: for the same text and a
      usable rate, `get_country_prices` yields the price `parse_app_price`
      yields. */
  lemma SameRuleAsParseAppPrice(usdRates: map<string, Num>, cc: string, resp: Response, currency: string)
    requires FinalFormatted(resp).Some?
    requires cc in usdRates && usdRates[cc].Value?
    ensures GetCountryPrices(usdRates, cc, resp) ==
      Ok((cc, SteamPricesTransformer.ParseAppPrice(FinalFormatted(resp).value, Some(usdRates[cc].v), currency).1))
  {
  }
}
