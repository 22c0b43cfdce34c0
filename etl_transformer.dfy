/** Scripts/transformers/etl_transformer.py: the cleaners that turn the
    scraped price table into (code, name, local price, usd price) rows.  The
    HTML navigation is replaced by the strings it yields: for every `td`
    carrying `data-cc`, its attribute and its text; for every `tr`, the texts
    of its `td` cells; for every `td.table-prices-converted`, its text. */
module EtlTransformer {
  import opened Common
  import opened Text
  import opened Regex
  import opened Numbers
  import opened PriceString
  import Extract

  /** A `td` cell carrying `data-cc`. */
  datatype CountryCell = CountryCell(code: string, text: string)

  /** What the cleaners read from the `div.table-responsive` table. */
  datatype PricesTable = PricesTable(countryCells: seq<CountryCell>, rows: seq<seq<string>>, convertedCells: seq<string>)

  /** The separator class of `[0-9]+\.?[0-9]*`. */
  const DecimalPoint: set<char> := {'.'}

  /** The separator class of `[0-9]+[,\.]?[0-9]*`. */
  const LocalSeparators: set<char> := {',', '.'}

  // ---------------------------------------------------------------------
  // Readings of single cells

  /** A run of `[0-9]+\.?[0-9]*` is valid `float(..)` input. */
  lemma RunIsDecimal(m: string)
    requires IsRun(m, DecimalPoint)
    ensures IsDecimal(m)
  {
    var d :| 0 < d <= |m| && AllDigits(m[..d]) && (d == |m| || (m[d] in DecimalPoint && AllDigits(m[d + 1..])));
    if d < |m| {
      assert !IsDigit(m[d]);
    }
    DigitRunUnique(m, d);
  }

  /** A run of `[0-9]+[,\.]?[0-9]*` with its comma turned into a point is a
      run of `[0-9]+\.?[0-9]*`. */
  lemma ReplacedRunIsDecimal(m: string)
    requires IsRun(m, LocalSeparators)
    ensures IsRun(Replace(m, ',', '.'), DecimalPoint) && IsDecimal(Replace(m, ',', '.'))
  {
    var r := Replace(m, ',', '.');
    var d :| 0 < d <= |m| && AllDigits(m[..d]) && (d == |m| || (m[d] in LocalSeparators && AllDigits(m[d + 1..])));
    assert AllDigits(r[..d]) by {
      forall k | 0 <= k < d ensures IsDigit(r[..d][k]) {
        assert r[..d][k] == r[k] && m[..d][k] == m[k];
      }
    }
    if d < |m| {
      assert r[d] == '.';
      var u, v := r[d + 1..], m[d + 1..];
      assert AllDigits(u) by {
        forall k | 0 <= k < |u| ensures IsDigit(u[k]) {
          assert u[k] == r[d + 1 + k] && v[k] == m[d + 1 + k];
        }
      }
    }
    RunIsDecimal(r);
  }

  /** One converted (usd) price cell that is not skipped: "N/A" is nan,
      anything else the first `[0-9]+\.?[0-9]*` run read by `float(..)`;
      a cell with no digit raises on `[0]`. */
  function ConvertedPrice(text: string): (r: Result<Num>)
    ensures r.Err? <==> text != "N/A" && NoDigit(text)
    ensures r.Err? ==> r.error == IndexError
    ensures r.Ok? ==> (r.value.NaN? <==> text == "N/A")
  {
    if text == "N/A" then Ok(NaN)
    else match FirstRun(text, DecimalPoint)
      case None => Err(IndexError)
      case Some(m) =>
        RunIsDecimal(m);
        Ok(Value(ParseFloat(m).value))
  }

  /** One local price cell: the first `[0-9]+[,\.]?[0-9]*` run with its
      comma turned into a point, or nan when there is none. */
  function LocalPrice(text: string): (r: Num)
    ensures r.NaN? <==> NoDigit(text)
  {
    match FirstRun(text, LocalSeparators)
    case None => NaN
    case Some(m) =>
      ReplacedRunIsDecimal(m);
      Value(ParseFloat(Replace(m, ',', '.')).value)
  }

  /** A converted price is the decimal its run spells, the point (if any)
      being the decimal point. */
  lemma ConvertedPriceOfRun(text: string, whole: string, point: bool, fraction: string)
    requires text != "N/A"
    requires |whole| > 0 && AllDigits(whole) && AllDigits(fraction) && (!point ==> fraction == [])
    requires FirstRun(text, DecimalPoint) == Some(whole + (if point then ['.'] else []) + fraction)
    ensures ConvertedPrice(text) == Ok(Value(DecimalValue(whole, fraction)))
  {
    var m := whole + (if point then ['.'] else []) + fraction;
    if point {
      assert m == whole + ['.'] + fraction;
      PointedDecimal(whole, fraction);
      ConvertedPriceRun(text, m, DecimalValue(whole, fraction));
    } else {
      assert m == whole;
      DigitsReadings(whole);
      DecimalNoFraction(whole);
      ConvertedPriceRun(text, m, DigitsValue(whole) as real);
    }
  }

  lemma ConvertedPriceRun(text: string, m: string, x: real)
    requires text != "N/A" && FirstRun(text, DecimalPoint) == Some(m) && ParseFloat(m) == Some(x)
    ensures ConvertedPrice(text) == Ok(Value(x))
  {
  }

  /** A local price is the decimal its run spells, a comma and a point
      both being the decimal point. */
  lemma LocalPriceOfRun(text: string, whole: string, sep: Option<char>, fraction: string)
    requires |whole| > 0 && AllDigits(whole) && AllDigits(fraction)
    requires sep.Some? ==> sep.value in LocalSeparators
    requires sep.None? ==> fraction == []
    requires FirstRun(text, LocalSeparators) == Some(whole + SepString(sep) + fraction)
    ensures LocalPrice(text) == Value(DecimalValue(whole, fraction))
  {
    var m := whole + SepString(sep) + fraction;
    if sep == Some(',') {
      assert m == whole + [','] + fraction;
      ReplaceAppendPoint(whole, fraction);
      PointedDecimal(whole, fraction);
      LocalPriceRun(text, m, DecimalValue(whole, fraction));
    } else if sep == Some('.') {
      assert m == whole + ['.'] + fraction;
      DigitsHaveNo(whole, ','); DigitsHaveNo(fraction, ',');
      ReplaceAbsent(m, ',', '.');
      PointedDecimal(whole, fraction);
      LocalPriceRun(text, m, DecimalValue(whole, fraction));
    } else {
      assert m == whole;
      DigitsReadings(whole);
      DecimalNoFraction(whole);
      LocalPriceRun(text, m, DigitsValue(whole) as real);
    }
  }

  lemma LocalPriceRun(text: string, m: string, x: real)
    requires FirstRun(text, LocalSeparators) == Some(m) && ParseFloat(Replace(m, ',', '.')) == Some(x)
    ensures LocalPrice(text) == Value(x)
  {
  }

  // ---------------------------------------------------------------------
  // `_parse_price_tags`

  /** A converted cell the loop reads: one without "%". */
  predicate IsPriceCell(cell: string) {
    '%' !in cell
  }

  /** The converted cells the loop does not skip: those without "%". */
  function KeptCells(cells: seq<string>): (r: seq<string>)
    ensures forall k :: 0 <= k < |r| ==> '%' !in r[k]
  {
    if cells == [] then []
    else
      var rest := KeptCells(cells[..|cells| - 1]);
      if '%' in cells[|cells| - 1] then rest else rest + [cells[|cells| - 1]]
  }

  /** Every cell without "%" is kept, in document order, and no other. */
  lemma KeptCellsFilter(cells: seq<string>)
    ensures forall x :: x in KeptCells(cells) <==> x in cells && '%' !in x
    ensures IsFilter(KeptCells(cells), cells, IsPriceCell)
  {
    KeptCellsIsFilter(cells);
    FilterMembers(KeptCells(cells), cells, IsPriceCell);
  }

  lemma {:induction false} KeptCellsIsFilter(cells: seq<string>)
    ensures IsFilter(KeptCells(cells), cells, IsPriceCell)
  {
    if cells == [] {
      FilterEmpty(IsPriceCell);
    } else {
      var init, last := cells[..|cells| - 1], cells[|cells| - 1];
      var rest := KeptCells(init);
      KeptCellsIsFilter(init);
      FilterSnoc(rest, init, IsPriceCell, last);
      SnocSplit(cells);
      FilterSame(if IsPriceCell(last) then rest + [last] else rest, init + [last], KeptCells(cells), cells, IsPriceCell);
    }
  }

  /** The list `_parse_price_tags` returns, or the error its loop raises. */
  function PriceTags(cells: seq<string>): Result<seq<Num>> {
    if cells == [] then Ok([])
    else match PriceTags(cells[..|cells| - 1])
      case Err(e) => Err(e)
      case Ok(vs) =>
        var c := cells[|cells| - 1];
        if '%' in c then Ok(vs)
        else match ConvertedPrice(c)
          case Err(e) => Err(e)
          case Ok(v) => Ok(vs + [v])
  }

  method ParsePriceTags(cells: seq<string>) returns (r: Result<seq<Num>>)
    ensures r == PriceTags(cells)
  {
    var prices: seq<Num> := [];
    var i := 0;
    while i < |cells|
      invariant 0 <= i <= |cells|
      invariant PriceTags(cells[..i]) == Ok(prices)
    {
      assert cells[..i + 1][..i] == cells[..i];
      var text := cells[i];
      if '%' !in text {
        var v := ConvertedPrice(text);
        if v.Err? {
          PriceTagsErrorStays(cells, i + 1);
          return Err(v.error);
        }
        prices := prices + [v.value];
      }
      i := i + 1;
    }
    assert cells[..i] == cells;
    return Ok(prices);
  }

  /** Once a prefix raises, the loop raises that error and reads no further. */
  lemma {:induction false} PriceTagsErrorStays(cells: seq<string>, k: nat)
    requires k <= |cells| && PriceTags(cells[..k]).Err?
    ensures PriceTags(cells) == PriceTags(cells[..k])
    decreases |cells| - k
  {
    if k < |cells| {
      assert cells[..k + 1][..k] == cells[..k];
      PriceTagsErrorStays(cells, k + 1);
    } else {
      assert cells[..k] == cells;
    }
  }

  /** The loop raises exactly when a kept cell is neither "N/A" nor holds a
      digit, and then raises IndexError. */
  lemma {:induction false} PriceTagsError(cells: seq<string>)
    ensures PriceTags(cells).Err? <==>
      exists k :: 0 <= k < |cells| && '%' !in cells[k] && cells[k] != "N/A" && NoDigit(cells[k])
    ensures PriceTags(cells).Err? ==> PriceTags(cells).error == IndexError
  {
    if cells != [] {
      var p := cells[..|cells| - 1];
      PriceTagsError(p);
      assert forall k :: 0 <= k < |p| ==> p[k] == cells[k];
      if PriceTags(p).Err? {
        var k :| 0 <= k < |p| && '%' !in p[k] && p[k] != "N/A" && NoDigit(p[k]);
        assert cells[k] == p[k];
      }
    }
  }

  /** Without an error, one price per kept cell, in order, each the reading
      of its cell. */
  lemma {:induction false} PriceTagsValues(cells: seq<string>)
    requires PriceTags(cells).Ok?
    ensures |PriceTags(cells).value| == |KeptCells(cells)|
    ensures forall k :: 0 <= k < |KeptCells(cells)| ==> ConvertedPrice(KeptCells(cells)[k]) == Ok(PriceTags(cells).value[k])
  {
    if cells != [] {
      PriceTagsValues(cells[..|cells| - 1]);
    }
  }

  // ---------------------------------------------------------------------
  // `_parse_local_prices`

  /** A row the loop reads: one with `td` cells. */
  predicate HasCells(row: seq<string>) {
    row != []
  }

  /** The rows that have `td` cells. */
  function CellRows(rows: seq<seq<string>>): (r: seq<seq<string>>)
    ensures forall k :: 0 <= k < |r| ==> r[k] != []
  {
    if rows == [] then []
    else
      var rest := CellRows(rows[..|rows| - 1]);
      if rows[|rows| - 1] == [] then rest else rest + [rows[|rows| - 1]]
  }

  /** Every row with `td` cells is kept, in document order, and no other. */
  lemma CellRowsFilter(rows: seq<seq<string>>)
    ensures forall row :: row in CellRows(rows) <==> row in rows && row != []
    ensures IsFilter(CellRows(rows), rows, HasCells)
  {
    CellRowsIsFilter(rows);
    FilterMembers(CellRows(rows), rows, HasCells);
  }

  lemma {:induction false} CellRowsIsFilter(rows: seq<seq<string>>)
    ensures IsFilter(CellRows(rows), rows, HasCells)
  {
    if rows == [] {
      FilterEmpty(HasCells);
    } else {
      var init, last := rows[..|rows| - 1], rows[|rows| - 1];
      var rest := CellRows(init);
      CellRowsIsFilter(init);
      FilterSnoc(rest, init, HasCells, last);
      SnocSplit(rows);
      FilterSame(if HasCells(last) then rest + [last] else rest, init + [last], CellRows(rows), rows, HasCells);
    }
  }

  /** The list `_parse_local_prices` returns, or the IndexError of a row
      with a single cell. */
  function LocalPrices(rows: seq<seq<string>>): Result<seq<Num>> {
    if rows == [] then Ok([])
    else match LocalPrices(rows[..|rows| - 1])
      case Err(e) => Err(e)
      case Ok(vs) =>
        var row := rows[|rows| - 1];
        if row == [] then Ok(vs)
        else if |row| < 2 then Err(IndexError)
        else Ok(vs + [LocalPrice(row[1])])
  }

  method ParseLocalPrices(rows: seq<seq<string>>) returns (r: Result<seq<Num>>)
    ensures r == LocalPrices(rows)
  {
    var prices: seq<Num> := [];
    var i := 0;
    while i < |rows|
      invariant 0 <= i <= |rows|
      invariant LocalPrices(rows[..i]) == Ok(prices)
    {
      assert rows[..i + 1][..i] == rows[..i];
      var cells := rows[i];
      if cells != [] {
        if |cells| < 2 {
          LocalPricesErrorStays(rows, i + 1);
          return Err(IndexError);
        }
        prices := prices + [LocalPrice(cells[1])];
      }
      i := i + 1;
    }
    assert rows[..i] == rows;
    return Ok(prices);
  }

  lemma {:induction false} LocalPricesErrorStays(rows: seq<seq<string>>, k: nat)
    requires k <= |rows| && LocalPrices(rows[..k]).Err?
    ensures LocalPrices(rows) == LocalPrices(rows[..k])
    decreases |rows| - k
  {
    if k < |rows| {
      assert rows[..k + 1][..k] == rows[..k];
      LocalPricesErrorStays(rows, k + 1);
    } else {
      assert rows[..k] == rows;
    }
  }

  /** The loop raises exactly when some row has a single cell. */
  lemma {:induction false} LocalPricesError(rows: seq<seq<string>>)
    ensures LocalPrices(rows).Err? <==> exists k :: 0 <= k < |rows| && |rows[k]| == 1
    ensures LocalPrices(rows).Err? ==> LocalPrices(rows).error == IndexError
  {
    if rows != [] {
      var p := rows[..|rows| - 1];
      LocalPricesError(p);
      assert forall k :: 0 <= k < |p| ==> p[k] == rows[k];
      if LocalPrices(p).Err? {
        var k :| 0 <= k < |p| && |p[k]| == 1;
        assert |rows[k]| == 1;
        assert LocalPrices(rows) == LocalPrices(p);
      } else {
        assert LocalPrices(rows).Err? <==> |rows[|rows| - 1]| == 1;
      }
    }
  }

  /** Without an error, exactly one price per row with cells, read from its
      second cell. */
  lemma {:induction false} LocalPricesValues(rows: seq<seq<string>>)
    requires LocalPrices(rows).Ok?
    ensures |LocalPrices(rows).value| == |CellRows(rows)|
    ensures forall k :: 0 <= k < |CellRows(rows)| ==>
      |CellRows(rows)[k]| >= 2 && LocalPrices(rows).value[k] == LocalPrice(CellRows(rows)[k][1])
  {
    if rows != [] {
      LocalPricesValues(rows[..|rows| - 1]);
    }
  }

  // ---------------------------------------------------------------------
  // `_parse_iso_country_code`, `_parse_country_names`

  /** `s.strip("\n").strip(" ")`. */
  function CleanCell(s: string): (r: string)
    ensures r != [] ==> r[0] != ' ' && r[|r| - 1] != ' '
  {
    Strip(Strip(s, {'\n'}), {' '})
  }

  /** A cleaned cell is a slice of the cell whose dropped ends are newlines
      and spaces. */
  lemma CleanCellSlice(s: string)
    ensures exists a, b :: 0 <= a <= b <= |s| && CleanCell(s) == s[a..b] && StrippedEnds(s, a, b, {'\n', ' '})
  {
    var m := Strip(s, {'\n'});
    var a1, b1 := StripBounds(s, {'\n'});
    var a2, b2 := StripBounds(m, {' '});
    SliceOfSlice(s, a1, b1, a2, b2);
    StrippedTwice(s, a1, b1, m, a2, b2);
  }

  /** Dropping newlines, then spaces, drops newlines and spaces. */
  lemma StrippedTwice(s: string, a1: nat, b1: nat, m: string, a2: nat, b2: nat)
    requires a1 <= b1 <= |s| && m == s[a1..b1] && a2 <= b2 <= |m|
    requires StrippedEnds(s, a1, b1, {'\n'}) && StrippedEnds(m, a2, b2, {' '})
    ensures StrippedEnds(s, a1 + a2, a1 + b2, {'\n', ' '})
  {
    forall k | 0 <= k < a1 + a2 || a1 + b2 <= k < |s|
      ensures s[k] in {'\n', ' '}
    {
      if a1 <= k < b1 {
        assert s[k] == m[k - a1];
      }
    }
  }

  function IsoCountryCodes(cells: seq<CountryCell>): (r: seq<string>)
    ensures |r| == |cells| && forall k :: 0 <= k < |r| ==> r[k] == CleanCell(cells[k].code)
  {
    if cells == [] then [] else [CleanCell(cells[0].code)] + IsoCountryCodes(cells[1..])
  }

  function CountryNames(cells: seq<CountryCell>): (r: seq<string>)
    ensures |r| == |cells| && forall k :: 0 <= k < |r| ==> r[k] == CleanCell(cells[k].text)
  {
    if cells == [] then [] else [CleanCell(cells[0].text)] + CountryNames(cells[1..])
  }

  /** The newline is stripped before the space, so a newline behind a
      leading space survives: " \nUS" cleans to "\nUS". */
  lemma InnerNewlineSurvives(code: string)
    requires code != [] && code[|code| - 1] != ' ' && code[|code| - 1] != '\n'
    ensures CleanCell([' ', '\n'] + code) == ['\n'] + code
  {
    var s := [' ', '\n'] + code;
    assert s[|s| - 1] == code[|code| - 1];
    assert Strip(s, {'\n'}) == s by {
      assert LStrip(s, {'\n'}) == s;
      assert RStrip(s, {'\n'}) == s;
    }
    assert s[1..] == ['\n'] + code;
    assert LStrip(s, {' '}) == s[1..] by {
      assert LStrip(s[1..], {' '}) == s[1..];
    }
    assert RStrip(s[1..], {' '}) == s[1..];
  }

  // ---------------------------------------------------------------------
  // `_consolidate_usd_rates_data`

  function Min(a: int, b: int): int {
    if a <= b then a else b
  }

  /** `list(zip(a, b, c, d))`: as long as the shortest list. */
  function Zip4<A, B, C, D>(a: seq<A>, b: seq<B>, c: seq<C>, d: seq<D>): (r: seq<(A, B, C, D)>)
    ensures |r| == Min(Min(|a|, |b|), Min(|c|, |d|))
    ensures forall k :: 0 <= k < |r| ==> r[k] == (a[k], b[k], c[k], d[k])
  {
    if a == [] || b == [] || c == [] || d == [] then []
    else [(a[0], b[0], c[0], d[0])] + Zip4(a[1..], b[1..], c[1..], d[1..])
  }

  /** `_consolidate_usd_rates_data(soup)`: the four cleaned columns zipped;
      the two loops raise IndexError, whichever runs first. */
  function ConsolidateUsdRatesData(t: PricesTable): (r: Result<seq<(string, string, Num, Num)>>)
    ensures r.Err? <==> LocalPrices(t.rows).Err? || PriceTags(t.convertedCells).Err?
  {
    match LocalPrices(t.rows)
    case Err(e) => Err(e)
    case Ok(locals) =>
      match PriceTags(t.convertedCells)
      case Err(e) => Err(e)
      case Ok(usds) => Ok(Zip4(IsoCountryCodes(t.countryCells), CountryNames(t.countryCells), locals, usds))
  }

  /** The consolidated table has one row per position present in all
      columns: as many as the fewest of country cells, rows with cells and
      kept converted cells; row k pairs the k-th of each. */
  lemma ConsolidateShape(t: PricesTable)
    requires ConsolidateUsdRatesData(t).Ok?
    ensures |ConsolidateUsdRatesData(t).value| == Min(|t.countryCells|, Min(|CellRows(t.rows)|, |KeptCells(t.convertedCells)|))
    ensures forall k :: 0 <= k < |ConsolidateUsdRatesData(t).value| ==>
      var row := ConsolidateUsdRatesData(t).value[k];
      k < |t.countryCells| && k < |CellRows(t.rows)| && k < |KeptCells(t.convertedCells)| &&
      row.0 == CleanCell(t.countryCells[k].code) && row.1 == CleanCell(t.countryCells[k].text) &&
      |CellRows(t.rows)[k]| >= 2 && row.2 == LocalPrice(CellRows(t.rows)[k][1]) &&
      ConvertedPrice(KeptCells(t.convertedCells)[k]) == Ok(row.3)
  {
    LocalPricesValues(t.rows);
    PriceTagsValues(t.convertedCells);
  }

  /** `_parse_videogames_ids_from_html_tags(soup)` is the href cleaner of
      `get_list_reference`. */
  function ParseVideogameIds(hrefs: seq<Option<string>>): (r: seq<string>)
    ensures NoDuplicates(r)
    ensures forall x :: x in r <==> exists i :: 0 <= i < |hrefs| && Extract.IsAppHref(hrefs[i]) && x == Extract.CleanHref(hrefs[i].value)
  {
    Extract.ListReference(hrefs)
  }
}
