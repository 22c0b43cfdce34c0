# Steam prices ETL — a Dafny model of its string, rate and batching logic

This project models the sequential core of the "steam_prices_data_engineering"
scraper. The browser, the HTTP APIs, the thread pool and the files are replaced
by inputs and oracle functions. What remains is modelled in Dafny and proved
against specifications:

- **Price-string normaliser** (`parse_app_price`, and its copy in
  `get_country_prices`):
  - it takes the leftmost match of `[0-9]+[,\. ]?[0-9]*`;
  - it first reads the match as "dot is thousands, comma is decimal" and divides
    by the rate;
  - when that result is outside [0.1, 100], it reads the match as "dot is
    decimal" instead, and does not check that second result;
  - every failure gives NaN.
- **Scraped-table cleaners** (`process_country_prices` and the `_parse_*`
  helpers of `ResourcesETL`):
  - they skip "%" cells and match "N/A" exactly;
  - they take the first regex run and turn commas into points;
  - they strip using Python's character-set semantics;
  - they `zip` the four columns, which truncates to the shortest;
  - the href-to-id cleaner is followed by `list(set(..))`.
- **Rate and checkpoint derivation**: `obtain_usd_rates`, `get_currency_rates`,
  `checkpoint_data_extraction`, and the per-app collector `get_prices_per_app`.
- **Checkpointed batch scheduler** `retrieve_steam_data`:
  - it sorts the game ids and skips those below the checkpoint game;
  - it cuts the country list into batches at `range(0, n - 1, batch)`;
  - it skips the batches below the checkpoint index for the checkpoint game;
  - it drains the shared futures list after every batch, writing one checkpoint
    per drained future;
  - at the end it collapses each game's list into a dict.

Prices are exact reals with an explicit `NaN` constructor (`Common.Num`).
Python exceptions are `Err` values of `Common.Result`, or the `failed` field of
the scheduler state.

Modules and files:

- `common.dfy`: Option, Result, the error kinds, `Num` and float division.
- `text.dfy`: `str.replace`, `strip`/`lstrip`/`rstrip` on character sets,
  ASCII `lower`/`upper`, first-occurrence deduplication.
- `regex.dfy`: the leftmost match of `[0-9]+S?[0-9]*` for a separator set `S`.
- `numbers.dfy`: `float()` on digit strings, and `round(x, 2)`.
- `price_string.dfy`: the two-reading price rule shared by both copies of the
  normaliser.
- `steam_prices_transformer.py` → `steam_prices_transformer.dfy`.
- `extract.py` → `extract.dfy`.
- `etl_transformer.py` → `etl_transformer.dfy`.
- `transform.py` → `transform.dfy` (cleaners, rates) and `scheduler.dfy`
  (`retrieve_steam_data`), with the index arithmetic of its batches in
  `batching.dfy`.

The loops of the source are Dafny methods with loop invariants. Each of them is
proved equal to a recursive specification function:
`GetPricesPerApp`/`AppendAppPrices`, `ParsePriceTags`, `ParseLocalPrices`,
`ProcessCountryPrices`, `ObtainUsdRates`, and `RetrieveSteamData` with
`ProcessGames`, `ProcessGame`, `ProcessBatches`, `SubmitBatch` and
`DrainFutures`. The lemmas then state what the source promises about those
functions.

The scheduler's oracles are fields of `Scheduler.Config`:

- the `is_free` probe;
- the per-country `get_country_prices` response;
- the order in which `as_completed` yields the futures.

Its state records:

- `game_data`;
- the shared futures list;
- the list being built for the current game;
- a log of the requests sent;
- a log of the checkpoint writes.

Three behaviours of the code that are easy to misread:

- "1.234,56" gives 1.234, not 1234.56. The comment at
  Scripts/transformers/steam_prices_transformer.py:123 suggests a country
  that writes "." for thousands is handled. But the regex at line 120 keeps
  only the first separator, so the match is "1.234"
  (`SteamPricesTransformer.OneSeparatorOnly`).
- A malformed checkpoint file raises. Only `FileNotFoundError` is caught
  around `json.load` (Scripts/extract.py:104-108), so bad JSON propagates
  (`Extract.CheckpointDataExtraction`).
- With `batch = 1` the last country is never fetched. The starts of
  `range(0, n - 1, batch)` (Scripts/transform.py:88) stop at `n - 2`
  (`Batching.LastMissed`, `Scheduler.GameMissesLast`).

Both copies of the price normaliser apply the same rule. This is because
`parse_app_price` (Scripts/transformers/steam_prices_transformer.py:119-132)
and `get_country_prices` (Scripts/extract.py:141-150) are both modelled by
the one function `PriceString.Normalise`.

## Model

| member | source | states |
|---|---|---|
| Common.Divide | Scripts/transform.py:63 | `local_price/usd_price` raises ZeroDivisionError exactly when the divisor is 0; a NaN operand gives NaN; otherwise the exact quotient |
| Text.Remove | Scripts/transformers/steam_prices_transformer.py:122 | `replace(c, "")` leaves no `c` and keeps every other character |
| Text.Replace | Scripts/transform.py:47 | `replace(c, d)` keeps the length and changes exactly the positions holding `c` to `d` |
| Text.LStrip | Scripts/extract.py:74 | `lstrip(chars)` keeps a suffix; every dropped character is in the set; the first kept one is not |
| Text.RStrip | Scripts/extract.py:74 | `rstrip(chars)` keeps a prefix; every dropped character is in the set; the last kept one is not |
| Text.Strip | Scripts/extract.py:74 | `strip(chars)`: neither end of a non-empty result is in the set |
| Text.StripSlice | Scripts/extract.py:74 | `strip(chars)` keeps a slice `s[a..b]` of its input; every character dropped before `a` or from `b` on is in the set |
| Text.Lower | Scripts/transformers/steam_prices_transformer.py:164 | `lower()` keeps the length and lowers each character |
| Text.Upper | Scripts/transformers/steam_prices_transformer.py:161 | `upper()` keeps the length and raises each character |
| Text.Dedup | Scripts/extract.py:74 | `list(set(xs))` has no duplicates and exactly the elements of `xs` |
| Regex.DigitRun | Scripts/transformers/steam_prices_transformer.py:120 | greedy `[0-9]*`: the prefix taken is all digits and the next character is not a digit |
| Regex.FirstDigit | Scripts/transformers/steam_prices_transformer.py:120 | none exactly when the text has no digit; otherwise the position of the first digit |
| Regex.FirstRunBounds | Scripts/transformers/steam_prices_transformer.py:120 | `re.findall(..)[0]`: no match exactly when there is no digit; the match starts at the first digit, has the shape digits, optional separator, digits, and cannot be extended |
| Regex.FirstRunBoundsUnique | Scripts/transformers/steam_prices_transformer.py:120 | any non-extendable run that starts at the first digit is the match, so the match is unique |
| Regex.FirstRun | Scripts/transformers/etl_transformer.py:150 | the matched text is none exactly when there is no digit, and its shape is digits, at most one separator, digits |
| Numbers.ParseFloat | Scripts/transformers/steam_prices_transformer.py:124 | `float()` succeeds exactly on `digits` or `digits.digits`, with the decimal value of those digits |
| Numbers.Round2 | Scripts/transform.py:64 | `round(x, 2)` is a whole number of cents, at most half a cent from `x`, and leaves a whole number of cents unchanged |
| PriceString.PriceRunOf | Scripts/transformers/steam_prices_transformer.py:120 | after a digit-free prefix, the match of `[0-9]+[,\. ]?[0-9]*` is exactly `whole`, separator, `fraction`, whatever non-digit text follows |
| PriceString.RunParts | Scripts/transformers/steam_prices_transformer.py:120 | every match splits into a non-empty digit string, an optional separator from ", . space" and a digit string |
| PriceString.FirstSeparatorOnly | Scripts/transformers/steam_prices_transformer.py:120 | a second separator ends the match: only the first is kept |
| PriceString.DigitsReadings | Scripts/transformers/steam_prices_transformer.py:122-126 | a separator-free match is unchanged by both readings and parses to its digit value |
| PriceString.SpaceReadings | Scripts/transformers/steam_prices_transformer.py:122-126 | both readings drop a space separator |
| PriceString.DotReadings | Scripts/transformers/steam_prices_transformer.py:122-126 | the first reading drops a dot; the second keeps it as the decimal point |
| PriceString.CommaReadings | Scripts/transformers/steam_prices_transformer.py:122-126 | the first reading turns a comma into the decimal point; the second drops it |
| PriceString.ReadingValues | Scripts/transformers/steam_prices_transformer.py:122-128 | both readings of a match parse, to the values named by `FirstReadingValue` and `SecondReadingValue` |
| PriceString.RunReadingsParse | Scripts/transformers/steam_prices_transformer.py:122-128 | `float()` never raises on either reading of a match |
| PriceString.NormaliseOfRun | Scripts/transformers/steam_prices_transformer.py:120-129 | with a non-zero rate, the price is the first reading over the rate when that lies in [0.1, 100]; otherwise the second reading over the rate, unchecked |
| PriceString.ConvertRunNaN | Scripts/transformers/steam_prices_transformer.py:124-132 | converting a match gives NaN exactly when the rate is missing, NaN or zero |
| PriceString.NormaliseNaN | Scripts/transformers/steam_prices_transformer.py:119-132 | the price is NaN exactly when the text has no digit or the rate is missing, NaN or zero |
| SteamPricesTransformer.GetCurrencyRates | Scripts/transformers/steam_prices_transformer.py:93-98 | raises exactly when the rate API returned no "rates"; otherwise "USD" maps to 1, overriding the API, and every other entry is the API's unchanged |
| SteamPricesTransformer.ParseAppPrice | Scripts/transformers/steam_prices_transformer.py:101-132 | the first component is always the `currency_name` argument |
| SteamPricesTransformer.ParseAppPriceNaN | Scripts/transformers/steam_prices_transformer.py:119-132 | the price is NaN exactly when the text has no digit or the rate is None or 0 |
| SteamPricesTransformer.NoDigitIsNaN | Scripts/transformers/steam_prices_transformer.py:119-132 | "N/A" gives ("USD", NaN) |
| SteamPricesTransformer.CommaDecimalKept | Scripts/transformers/steam_prices_transformer.py:120-124 | at rate 1, "12,50" followed by any non-digit text gives 12.5 on the first reading |
| SteamPricesTransformer.DotDecimalFallsBack | Scripts/transformers/steam_prices_transformer.py:120-128 | at rate 1, "12.50" first reads as 1250, which is out of range, and gives 12.5 |
| SteamPricesTransformer.OneSeparatorOnly | Scripts/transformers/steam_prices_transformer.py:120-128 | at rate 1, "1.234,56" matches only "1.234", reads as 1234, which is out of range, and gives 1.234 |
| SteamPricesTransformer.FallbackUnchecked | Scripts/transformers/steam_prices_transformer.py:125-129 | at rate 1, "5000" is out of range on both readings and still gives 5000 |
| SteamPricesTransformer.CountryCodes | Scripts/transformers/steam_prices_transformer.py:156 | the country codes of `currencies.items()`, in iteration order |
| SteamPricesTransformer.GetPricesPerApp | Scripts/transformers/steam_prices_transformer.py:153-173 | the nested loops build exactly the app-major list `PricesPerApp` |
| SteamPricesTransformer.AppendAppPrices | Scripts/transformers/steam_prices_transformer.py:156-170 | the inner loop appends exactly the records of one app, in country order, skipping raising calls |
| SteamPricesTransformer.AppPricesBound | Scripts/transformers/steam_prices_transformer.py:156-170 | one app yields at most one record per country; each record is (app, cc.lower(), currency.lower(), parsed price) for one of the countries |
| SteamPricesTransformer.PricesPerAppBound | Scripts/transformers/steam_prices_transformer.py:153-173 | at most `|apps| * |currencies|` records, each for one of the apps |
| SteamPricesTransformer.AppPricesAllSucceed | Scripts/transformers/steam_prices_transformer.py:156-164 | when no call raises, one app yields exactly one record per country, in order |
| SteamPricesTransformer.PricesPerAppLength | Scripts/transformers/steam_prices_transformer.py:153-173 | when no call raises there are exactly `|apps| * |currencies|` records |
| SteamPricesTransformer.PricesPerAppAt | Scripts/transformers/steam_prices_transformer.py:153-173 | when no call raises, the record of app `i` and country `j` sits at position `i * |currencies| + j` |
| SteamPricesTransformer.AppPricesAllFail | Scripts/transformers/steam_prices_transformer.py:157-170 | when every call for the app raises, it yields no record |
| SteamPricesTransformer.PricesPerAppAllFail | Scripts/transformers/steam_prices_transformer.py:158-159 | when every call raises, as with the repository's `get_app_price`, which has no `country_code` keyword, the list is empty |
| SteamPricesTransformer.MissingRateGivesNaN | Scripts/transformers/steam_prices_transformer.py:161-164 | a currency missing from `ex_rates` still yields a record, priced NaN |
| Extract.CleanHref | Scripts/extract.py:74 | a non-empty cleaned href starts outside {/, a, p} and ends outside {/, c, h, a, r, t, s} |
| Extract.CleanHrefOfId | Scripts/extract.py:74 | "/app/<digits><tail>", with a tail of "/charts" characters such as "/charts/", cleans to the digits |
| Extract.CleanedAppHrefs | Scripts/extract.py:73-74 | the comprehension holds exactly the cleaned values of the hrefs that start with "/app/" |
| Extract.ListReference | Scripts/extract.py:73-74 | `list(set(..))` of the cleaned app hrefs: no duplicates, and exactly those values |
| Extract.FieldOrZero | Scripts/extract.py:110-111 | `d.get(key) or 0`: the stored value when it is truthy, 0 otherwise |
| Extract.CheckpointDataExtraction | Scripts/extract.py:101-113 | an absent file gives (0, 0); undecodable JSON raises; so does a non-object, whose `.get` fails |
| Extract.CheckpointFieldsIndependent | Scripts/extract.py:110-111 | each of "game_id" and "index" depends only on its own entry |
| Extract.CheckpointDefaults | Scripts/extract.py:110-111 | a field reads as 0 exactly when it is missing, falsy or 0 |
| Extract.CheckpointRoundTrip | Scripts/extract.py:101-113 | reading back a file written as in Scripts/transform.py:109-112 gives the written game id and index |
| Extract.GetCountryPrices | Scripts/extract.py:131-150 | raises exactly when the request itself fails; otherwise the first component is the country code |
| Extract.GetCountryPricesNaN | Scripts/extract.py:139-150 | the price is NaN exactly when the response is empty, `price_overview` or its text is missing, the text has no digit, or the country's rate is missing, NaN or 0 |
| Extract.GetCountryPricesRule | Scripts/extract.py:142-147 | the two-reading rule, with the rate `usd_rates[cc]`, keyed by country; the fallback is not checked again |
| EtlTransformer.RunIsDecimal | Scripts/transformers/etl_transformer.py:150 | `float()` cannot raise on a match of `[0-9]+\.?[0-9]*` |
| EtlTransformer.ReplacedRunIsDecimal | Scripts/transformers/etl_transformer.py:160-162 | after `replace(",", ".")`, a match of `[0-9]+[,\.]?[0-9]*` is a decimal that `float()` accepts |
| EtlTransformer.ConvertedPrice | Scripts/transformers/etl_transformer.py:147-150 | a price cell raises IndexError exactly when it is not "N/A" and has no digit; it is NaN exactly when it is "N/A" |
| EtlTransformer.ConvertedPriceOfRun | Scripts/transformers/etl_transformer.py:150 | a cell whose first run is `whole[.fraction]` gives that decimal |
| EtlTransformer.LocalPrice | Scripts/transformers/etl_transformer.py:160-164 | a local price is NaN exactly when the cell has no digit |
| EtlTransformer.LocalPriceOfRun | Scripts/transformers/etl_transformer.py:160-162 | a cell whose first run is `whole`, separator `,` or `.`, `fraction` gives `whole.fraction` |
| EtlTransformer.KeptCells | Scripts/transformers/etl_transformer.py:146 | no kept converted-price cell contains "%" |
| EtlTransformer.KeptCellsFilter | Scripts/transformers/etl_transformer.py:145-146 | the cells read are exactly those without "%", each once and in document order: a subsequence at the increasing positions of exactly those cells |
| EtlTransformer.ParsePriceTags | Scripts/transformers/etl_transformer.py:141-152 | the loop computes the list `PriceTags`, or raises as it does |
| EtlTransformer.PriceTagsError | Scripts/transformers/etl_transformer.py:145-150 | the loop raises, with IndexError, exactly when some cell without "%" is neither "N/A" nor holds a digit |
| EtlTransformer.PriceTagsValues | Scripts/transformers/etl_transformer.py:145-152 | without an error, exactly one value per cell without "%", in order, each that cell's price |
| EtlTransformer.CellRows | Scripts/transformers/etl_transformer.py:159 | rows without `td` cells are dropped |
| EtlTransformer.CellRowsFilter | Scripts/transformers/etl_transformer.py:158-159 | the rows read are exactly those with at least one `td`, each once and in document order: a subsequence at the increasing positions of exactly those rows |
| EtlTransformer.ParseLocalPrices | Scripts/transformers/etl_transformer.py:154-166 | the loop computes the list `LocalPrices`, or raises as it does |
| EtlTransformer.LocalPricesError | Scripts/transformers/etl_transformer.py:159-160 | the loop raises, with IndexError, exactly when some row has a single `td`, because there is no cell `[1]` |
| EtlTransformer.LocalPricesValues | Scripts/transformers/etl_transformer.py:158-166 | without an error, exactly one value per row with `td` cells, in order, each the local price of its second cell |
| EtlTransformer.CleanCell | Scripts/transformers/etl_transformer.py:134 | `strip("\n").strip(" ")` leaves no space at either end |
| EtlTransformer.CleanCellSlice | Scripts/transformers/etl_transformer.py:134 | a cleaned cell is a slice of the cell, and every character dropped from either end is a newline or a space |
| EtlTransformer.InnerNewlineSurvives | Scripts/transformers/etl_transformer.py:134 | a "\n" behind a leading space survives the two strips |
| EtlTransformer.IsoCountryCodes | Scripts/transformers/etl_transformer.py:136-139 | one cleaned code per `data-cc` cell, in document order |
| EtlTransformer.CountryNames | Scripts/transformers/etl_transformer.py:131-134 | one cleaned name per `data-cc` cell, in document order |
| EtlTransformer.Zip4 | Scripts/transformers/etl_transformer.py:125-128 | `zip` of four lists has the length of the shortest, and its k-th tuple collects the k-th elements |
| EtlTransformer.ConsolidateUsdRatesData | Scripts/transformers/etl_transformer.py:110-129 | raises exactly when the local-price or the converted-price parser raises |
| EtlTransformer.ConsolidateShape | Scripts/transformers/etl_transformer.py:121-129 | the length is the minimum of the four columns; the k-th row is (code k, name k, local price of row k, usd price of kept cell k) |
| EtlTransformer.ParseVideogameIds | Scripts/transformers/etl_transformer.py:106-108 | the ids have no duplicates and are exactly the cleaned values of the "/app/" hrefs |
| Transform.ProcessCountryPrices | Scripts/transform.py:21-54 | the loops of `process_country_prices` give the same list, or the same error, as `_consolidate_usd_rates_data` |
| Transform.ObtainUsdRates | Scripts/transform.py:56-66 | the loop computes the dictionary `UsdRates`, or raises as it does |
| Transform.UsdRatesError | Scripts/transform.py:63 | raises, with ZeroDivisionError, exactly when some usd price is 0 |
| Transform.UsdRatesKeys | Scripts/transform.py:58-64 | without an error, the keys are exactly the country codes of the rows |
| Transform.UsdRatesLastWins | Scripts/transform.py:64 | the rate of a code is round(local / usd, 2) of its last row |
| Transform.UsdRatesRounded | Scripts/transform.py:64 | every rate is NaN or a whole number of cents |
| Batching.Starts | Scripts/transform.py:88 | `range(a, stop, b)` for b > 0: the k-th element is `a + k * b`, below `stop`, and the next would not be |
| Batching.BatchStarts | Scripts/transform.py:70-71 | `range(0, n - 1, b)`, including the counting-down case of a negative step |
| Batching.StartsIncrease | Scripts/transform.py:88 | the batch starts strictly increase |
| Batching.StartsCount | Scripts/transform.py:88-96 | the batches ask for at least `n - 1` codes, and without the last batch for fewer |
| Batching.CoverAll | Scripts/transform.py:88-96 | with `n % batch == 0` and batch >= 2, the batches ask for exactly the `n` codes |
| Batching.LastMissed | Scripts/transform.py:88-96 | with `(n - 1) % batch == 0`, they ask for the first `n - 1` codes only |
| Batching.Overflow | Scripts/transform.py:88-96 | otherwise the last batch runs past the end, while every earlier batch fits |
| Scheduler.FetchResult | Scripts/transform.py:102 | `future.result()` raises exactly when the request of that country failed; otherwise its first component is the country code |
| Scheduler.GameId | Scripts/transform.py:75 | `int(re.findall(r"[0-9]+", url)[0])` raises exactly when the url has no digit |
| Scheduler.GameIds | Scripts/transform.py:75 | the comprehension raises IndexError exactly when some url has no digit; otherwise it holds one id per url, in order |
| Scheduler.Insert | Scripts/transform.py:75 | inserting into a sorted list keeps it sorted and adds exactly the element |
| Scheduler.Sort | Scripts/transform.py:75 | `sorted(..)` is ascending and a permutation of its input |
| Scheduler.InsertNoDuplicates | Scripts/transform.py:75 | inserting a new element keeps a sorted list duplicate-free |
| Scheduler.SortNoDuplicates | Scripts/transform.py:75 | sorting distinct ids keeps them distinct |
| Scheduler.RetrieveSteamData | Scripts/transform.py:68-117 | the method, loops and all, returns exactly `Retrieve`: the result or the error, the requests sent and the checkpoint writes |
| Scheduler.ProcessGames | Scripts/transform.py:76-116 | the loop over the sorted ids, stopping at the first exception |
| Scheduler.ProcessGame | Scripts/transform.py:77-116 | one game: skip below the checkpoint, probe, then for a game that is not free the batches and the collapse into a dict |
| Scheduler.ProcessBatches | Scripts/transform.py:88-114 | the loop over the batch starts, stopping at the first exception |
| Scheduler.SubmitBatch | Scripts/transform.py:92-99 | the `range(batch)` loop submitting `country_iso_codes[i + j]` |
| Scheduler.DrainFutures | Scripts/transform.py:101-112 | the `as_completed` loop over the whole shared futures list |
| Scheduler.SubmitShape | Scripts/transform.py:92-99 | submitting batch `i` raises IndexError exactly when `i + batch > n`; it appends the codes `keys[i .. i + batch)` to the futures and their fetches to the requests, and changes nothing else |
| Scheduler.DrainFrame | Scripts/transform.py:101-112 | draining only appends results of futures of the list, each with one checkpoint (batch start, game id) |
| Scheduler.DrainOutcome | Scripts/transform.py:101-102 | draining raises RequestError exactly when some drained future's request failed; otherwise it appends one entry per future, in completion order |
| Scheduler.BatchStepFrame | Scripts/transform.py:88-112 | one batch only appends requests for this game, futures and results, and checkpoints (i, game id); a skipped batch changes nothing |
| Scheduler.BatchStepOutcome | Scripts/transform.py:88-102 | one batch raises IndexError exactly when it runs past the end; otherwise it re-appends a result for every future submitted so far for the game, not only its own |
| Scheduler.DrainAll | Scripts/transform.py:101-102 | with no failing fetch, a drain appends one result per shared future and covers every code in the list |
| Scheduler.BatchStartsIncrease | Scripts/transform.py:88 | the batch starts are increasing |
| Scheduler.SkipPrefixExact | Scripts/transform.py:89-90 | the skipped batches are exactly a leading run of the starts |
| Scheduler.BatchesFrame | Scripts/transform.py:88-112 | the batches of a game only append requests and checkpoints for this game, with checkpoints non-decreasing in batch start |
| Scheduler.BatchesOutcome | Scripts/transform.py:88-102 | after `m` batches: raises IndexError exactly when an issued batch overflows; otherwise the futures are `keys[first issued start .. m * batch)` and every one has a result |
| Scheduler.CollapseValid | Scripts/transform.py:116 | `dict(pairs)` has exactly the codes of the pairs as keys, each mapped to that country's fetched price |
| Scheduler.GameFetches | Scripts/transform.py:83-116 | a game that is not free fails exactly on overflow; otherwise it sends the probe and one fetch per code of its window once, and its dict has exactly the window's codes, each with its fetched price |
| Scheduler.GameCoversAll | Scripts/transform.py:88-96 | with `n % batch == 0` and batch >= 2, a game started from the first batch gets a price for every country |
| Scheduler.GameMissesLast | Scripts/transform.py:88-96 | with `(n - 1) % batch == 0`, every country but the last gets a price, and with distinct codes the last never does |
| Scheduler.GameOverflows | Scripts/transform.py:88-96 | otherwise the game raises IndexError |
| Scheduler.ResumeSkips | Scripts/transform.py:89-90 | for the checkpoint game, batch `k` is skipped exactly when its start `k * batch` is below the checkpoint index |
| Scheduler.ResumeAtCheckpoint | Scripts/transform.py:89-90 | when the checkpoint index is a batch start, the first batch issued for the checkpoint game is the one starting at that index |
| Scheduler.GameFrame | Scripts/transform.py:77-116 | a game below the checkpoint changes nothing; a free game adds only its probe, with no entry and no checkpoint; any other game that completes adds exactly its own key |
| Scheduler.GamesFrame | Scripts/transform.py:76-116 | the games only ever add requests, checkpoints and keys for ids at or above the checkpoint game |
| Scheduler.GamesOrdered | Scripts/transform.py:75-112 | over sorted distinct ids, the checkpoint writes are non-decreasing in (game id, index) |
| Scheduler.RetrieveFrame | Scripts/transform.py:68-117 | a url without a digit raises before any request; otherwise no id below the checkpoint is probed, fetched or checkpointed, and a completed result has exactly the ids at or above the checkpoint whose probe is not free |
| Scheduler.RetrieveOrdered | Scripts/transform.py:75-112 | with distinct ids, the checkpoint writes are lexicographically non-decreasing |

## Left out

- Browser, HTTP and API plumbing are not modelled; they are replaced by their
  answers. This covers:
  - `extract_list_videogames`, `get_game_prices` and `get_price_data`;
  - `send_request`, except for its three outcomes: a failed request raises, an
    unusable answer is `{}`, and a usable one is the game data;
  - `_get_videogames_tags` and `_get_game_prices`;
  - `SteamWebApi` and `OpenExRatesApi`.
- bs4 navigation is not modelled. Tables and hrefs are input sequences: the
  `data-cc` cells, the `td` texts of each `tr`, the converted-price cells and
  the `href` attributes. A page with no "table-responsive" div, which would
  raise AttributeError, is not modelled.
- Threads are not modelled. The `as_completed` order is an oracle, required to
  be a permutation of the submitted futures.
- `time.sleep` and logging are not modelled.
- The JSON dumps of `game_data` are not modelled. The checkpoint writes are a
  log of (index, game id).
- `int()` of the checkpoint values is not modelled: `retrieve_steam_data`
  receives them as integers.
- The iteration order of Python dicts is not modelled. `list(usd_rates.keys())`
  and `currencies.items()` are given as sequences.
- Scheduler.Config: `keys` is not derived from `usdRates`, because the order of
  the dict's keys is not modelled.
- Scheduler.Config: each request's answer is a fixed function of its
  parameters. `probe` depends on the game id only, and `fetch` on the game id
  and the country code. The source can visit the same id twice, because
  different hrefs can parse to one id: "/app/730/" cleans to "730" and
  "/app/730/agecheck" to "730/agecheck", and both give 730
  (Scripts/extract.py:74, Scripts/transform.py:75). It then sends fresh
  requests (Scripts/transform.py:83, 99), which could answer differently. The
  model gives the second visit the same answers as the first. Which answer a
  repeated request gets is not modelled.
- Scheduler.RetrieveFrame: "the result has exactly the ids whose probe is not
  free" relies on those fixed answers. If a second probe of a repeated id said
  "free", the source would keep the first visit's entry. That case is not
  covered.
- The world-map code, run.py, etl_main.py, load.py, the save helpers and
  `filter_default` are outside the modelled core.
- `process_country_prices` repeats the cleaners of `ResourcesETL`. They are
  modelled once, and `Transform.ProcessCountryPrices` is proved to agree with
  `_consolidate_usd_rates_data`.
- Numbers.Round2: it rounds the exact value half to even. Python rounds the
  binary double closest to the value, which can differ on ties. Binary floats
  are not modelled.
- Numbers.ParseFloat: it is defined on the strings the regex runs can produce
  (digits, with at most one point). It does not cover the whole syntax of
  Python's `float()`.
- Text.Lower: ASCII only. Text.Upper is ASCII only too. Python's full Unicode
  case mapping is not modelled.
- Text.Dedup: `list(set(..))` has no specified order, so only the elements and
  their distinctness are stated. The first-occurrence order of the model is not
  a promise of the source. The same holds for Extract.ListReference and
  EtlTransformer.ParseVideogameIds.
- Scheduler.RetrieveOrdered: it requires distinct ids. With a repeated id, the
  second visit of the same game starts again at batch 0, so the checkpoint
  index goes back.
- Scheduler.GameCoversAll: it requires batch >= 2. With batch 1, both
  `n % 1 == 0` and `(n - 1) % 1 == 0` hold, and the last country is missed, as
  Scheduler.GameMissesLast states.
- Scheduler.BatchStepOutcome: it assumes that no fetch fails. That assumption
  also holds for DrainAll, BatchesOutcome, GameFetches, GameCoversAll,
  GameMissesLast and GameOverflows. The failing case is stated separately:
  DrainOutcome raises RequestError exactly when some drained request failed.
- The `country_code=` keyword mismatch between `get_prices_per_app` and
  `SteamWebApi.get_app_price` is not modelled. Every real call then raises
  TypeError, which is caught and skipped. The model takes the store API as an
  oracle, and SteamPricesTransformer.PricesPerAppAllFail states this case.
