/** `retrieve_steam_data` (Scripts/transform.py:68-117): the checkpointed
    batch scheduler.  The store API is an oracle (`probe` for the "us"
    request of each game, `fetch` for each (game, country) request), the
    thread pool is replaced by the order in which `as_completed` yields the
    futures of each drain (`completion`), and the two JSON dumps are
    recorded as a log of checkpoint writes.  A raised exception is the
    `failed` field of the state; the logs keep what happened before it. */
module Scheduler {
  import opened Common
  import opened Text
  import opened Regex
  import opened Numbers
  import opened Extract
  import opened Batching

  /** A call to `send_request`, directly (the probe) or by a submitted
      `get_country_prices` (a fetch). */
  datatype Request = Probe(app: nat) | Fetch(app: nat, cc: string)

  /** One write of `{"index": i, "game_id": g}` to the checkpoint file. */
  datatype Checkpoint = Checkpoint(index: nat, gameId: nat)

  /** The arguments of `retrieve_steam_data` other than the urls, and the
      oracles.  `keys` is `list(usd_rates.keys())`; `completion(g, i, n)`
      is the order in which the `n` futures of game `g` complete when the
      batch starting at `i` is drained. */
  datatype Config = Config(keys: seq<string>, usdRates: map<string, Num>,
                           cpGame: int, cpIndex: int, batch: int,
                           probe: nat -> Response, fetch: (nat, string) -> Response,
                           completion: (nat, nat, nat) -> seq<nat>)

  /** `o` lists each of the futures `0 .. n - 1` exactly once. */
  predicate IsOrder(o: seq<nat>, n: nat) {
    |o| == n && (forall p :: 0 <= p < |o| ==> o[p] < n) && (forall k :: 0 <= k < n ==> k in o)
  }

  /** `as_completed` yields every future once. */
  ghost predicate ValidOrders(c: Config) {
    forall g, i, n :: IsOrder(c.completion(g, i, n), n)
  }

  /** The scheduler's state: the exception raised (if any), `game_data`
      for the games already collapsed, the country codes of the current
      game's `futures`, the current game's list `game_data[game_id]`, and
      the request and checkpoint logs. */
  datatype State = State(failed: Option<Error>, gameData: map<nat, map<string, Num>>,
                         futures: seq<string>, entries: seq<(string, Num)>,
                         requests: seq<Request>, checkpoints: seq<Checkpoint>)

  const Initial: State := State(None, map[], [], [], [], [])

  /** `future.result()` of the future fetching country `cc` for game `g`:
      `get_country_prices` re-raises a failed request. */
  function FetchResult(c: Config, g: nat, cc: string): (r: Result<(string, Num)>)
    ensures r.Err? <==> c.fetch(g, cc).RequestFailed?
    ensures r.Ok? ==> r.value.0 == cc
  {
    GetCountryPrices(c.usdRates, cc, c.fetch(g, cc))
  }

  /** `range(batch)` has this many elements. */
  function Width(c: Config): nat {
    if c.batch > 0 then c.batch else 0
  }

  // ---------------------------------------------------------------------
  // The specification, loop by loop

  /** The first `m` steps of `for j in range(batch)` for the batch at `i`:
      each submits the fetch of `country_iso_codes[i + j]`, which raises
      IndexError past the end. */
  function Submit(c: Config, g: nat, i: nat, s: State, m: nat): State {
    if m == 0 then s
    else
      var t := Submit(c, g, i, s, m - 1);
      if t.failed.Some? then t
      else if i + m - 1 < |c.keys| then
        var cc := c.keys[i + m - 1];
        t.(futures := t.futures + [cc], requests := t.requests + [Fetch(g, cc)])
      else t.(failed := Some(IndexError))
  }

  /** The first `m` steps of `for future in as_completed(futures)` with
      completion order `order`: each appends the future's result to the
      game's list and writes the checkpoint (i, g). */
  function Drain(c: Config, g: nat, i: nat, futs: seq<string>, order: seq<nat>, s: State, m: nat): State
    requires m <= |order|
  {
    if m == 0 then s
    else
      var t := Drain(c, g, i, futs, order, s, m - 1);
      var k := order[m - 1];
      if t.failed.Some? || k >= |futs| then t  // `k >= |futs|` cannot happen for a valid order
      else match FetchResult(c, g, futs[k])
        case Err(e) => t.(failed := Some(e))
        case Ok(p) => t.(entries := t.entries + [p], checkpoints := t.checkpoints + [Checkpoint(i, g)])
  }

  /** The batch at `i` is skipped when resuming the checkpoint game. */
  predicate Skipped(c: Config, g: nat, i: nat) {
    i < c.cpIndex && g == c.cpGame
  }

  /** One iteration of `for i in range(start, end, batch)`: submit the
      batch, then drain ALL futures submitted so far for the game. */
  function BatchStep(c: Config, g: nat, i: nat, s: State): State {
    if s.failed.Some? || Skipped(c, g, i) then s
    else
      var t := Submit(c, g, i, s, Width(c));
      if t.failed.Some? then t
      else
        var order := c.completion(g, i, |t.futures|);
        Drain(c, g, i, t.futures, order, t, |order|)
  }

  /** The first `m` batches of a game. */
  function Batches(c: Config, g: nat, starts: seq<nat>, s: State, m: nat): State
    requires m <= |starts|
  {
    if m == 0 then s else BatchStep(c, g, starts[m - 1], Batches(c, g, starts, s, m - 1))
  }

  /** `dict(pairs)`: a later pair for the same key wins. */
  function Collapse(pairs: seq<(string, Num)>): map<string, Num> {
    if pairs == [] then map[]
    else Collapse(pairs[..|pairs| - 1])[pairs[|pairs| - 1].0 := pairs[|pairs| - 1].1]
  }

  /** `json_data.get("is_free")` is truthy. */
  predicate IsFree(resp: Response) {
    resp.Data? && resp.data.isFree
  }

  /** One iteration of `for game_id in ...`: skipped below the checkpoint
      game; otherwise the probe, then (for a game that is not free) a fresh
      list and futures list, the batches, and the collapse into a dict.
      `range(..)` with a zero step raises ValueError. */
  function Game(c: Config, g: nat, s: State): State {
    if s.failed.Some? || g < c.cpGame then s
    else
      var s1 := s.(requests := s.requests + [Probe(g)]);
      var resp := c.probe(g);
      if resp.RequestFailed? then s1.(failed := Some(RequestError))
      else if IsFree(resp) then s1
      else if c.batch == 0 then s1.(failed := Some(ValueError))
      else
        var starts := BatchStarts(|c.keys|, c.batch);
        var t := Batches(c, g, starts, s1.(futures := [], entries := []), |starts|);
        if t.failed.Some? then t else t.(gameData := t.gameData[g := Collapse(t.entries)])
  }

  /** The first `m` games of `ids`. */
  function Games(c: Config, ids: seq<nat>, s: State, m: nat): State
    requires m <= |ids|
  {
    if m == 0 then s else Game(c, ids[m - 1], Games(c, ids, s, m - 1))
  }

  /** `int(re.findall(r"[0-9]+", url)[0])`. */
  function GameId(url: string): (r: Result<nat>)
    ensures r.Err? <==> NoDigit(url)
  {
    match FirstRun(url, {})
    case None => Err(IndexError)
    case Some(m) =>
      RunOfDigits(m);
      Ok(DigitsValue(m))
  }

  lemma RunOfDigits(m: string)
    requires IsRun(m, {})
    ensures AllDigits(m)
  {
    var d :| 0 < d <= |m| && AllDigits(m[..d]) && (d == |m| || m[d] in {});
    assert m[..d] == m;
  }

  /** The list comprehension over the urls: the first url without a digit
      raises. */
  function GameIds(urls: seq<string>): (r: Result<seq<nat>>)
    ensures r.Err? <==> exists k :: 0 <= k < |urls| && NoDigit(urls[k])
    ensures r.Err? ==> r.error == IndexError
    ensures r.Ok? ==> |r.value| == |urls| && forall k :: 0 <= k < |urls| ==> GameId(urls[k]) == Ok(r.value[k])
  {
    if urls == [] then Ok([])
    else
      var rest := GameIds(urls[1..]);
      assert forall k :: 1 <= k < |urls| ==> urls[1..][k - 1] == urls[k];
      match GameId(urls[0])
      case Err(e) => Err(e)
      case Ok(id) =>
        match rest
        case Err(e) =>
          var k :| 0 <= k < |urls[1..]| && NoDigit(urls[1..][k]);
          assert NoDigit(urls[k + 1]);
          Err(e)
        case Ok(ids) => Ok([id] + ids)
  }

  predicate Sorted(s: seq<nat>) {
    forall p, q :: 0 <= p < q < |s| ==> s[p] <= s[q]
  }

  /** Insert `x` into the sorted `s`. */
  function Insert(x: nat, s: seq<nat>): (r: seq<nat>)
    requires Sorted(s)
    ensures Sorted(r) && multiset(r) == multiset(s) + multiset{x}
  {
    if s == [] || x <= s[0] then
      [x] + s
    else
      var rest := Insert(x, s[1..]);
      InsertLower(x, s, rest);
      [s[0]] + rest
  }

  lemma InsertLower(x: nat, s: seq<nat>, rest: seq<nat>)
    requires Sorted(s) && |s| > 0 && s[0] < x && multiset(rest) == multiset(s[1..]) + multiset{x} && Sorted(rest)
    ensures Sorted([s[0]] + rest) && multiset([s[0]] + rest) == multiset(s) + multiset{x}
  {
    assert s == [s[0]] + s[1..];
    forall q | 0 <= q < |rest| ensures s[0] <= rest[q] {
      assert rest[q] in multiset(rest);
      if rest[q] != x {
        assert rest[q] in s[1..];
      }
    }
  }

  lemma InsertNoDuplicates(x: nat, s: seq<nat>)
    requires Sorted(s) && x !in s && NoDuplicates(s)
    ensures NoDuplicates(Insert(x, s))
  {
    var r := Insert(x, s);
    forall i, j | 0 <= i < j < |r| ensures r[i] != r[j] {
      if r[i] == r[j] {
        CountTwo(r, i, j);
        assert multiset(r)[r[i]] >= 2;
        CountOne(s, r[i]);
      }
    }
  }

  lemma CountTwo(r: seq<nat>, i: nat, j: nat)
    requires i < j < |r| && r[i] == r[j]
    ensures multiset(r)[r[i]] >= 2
  {
    assert r == r[..i] + [r[i]] + r[i+1..j] + [r[j]] + r[j+1..];
  }

  lemma {:induction false} CountOne(s: seq<nat>, y: nat)
    requires NoDuplicates(s)
    ensures multiset(s)[y] <= 1
  {
    if s != [] {
      assert s == [s[0]] + s[1..];
      CountOne(s[1..], y);
      if s[0] == y {
        assert y !in s[1..];
      }
    }
  }

  /** `sorted(ids)`. */
  function Sort(s: seq<nat>): (r: seq<nat>)
    ensures Sorted(r) && multiset(r) == multiset(s)
  {
    if s == [] then []
    else
      assert s == [s[0]] + s[1..];
      Insert(s[0], Sort(s[1..]))
  }

  /** Sorting keeps distinct ids distinct. */
  lemma {:induction false} SortNoDuplicates(s: seq<nat>)
    requires NoDuplicates(s)
    ensures NoDuplicates(Sort(s))
  {
    if s != [] {
      assert s == [s[0]] + s[1..];
      SortNoDuplicates(s[1..]);
      assert s[0] !in multiset(s[1..]);
      InsertNoDuplicates(s[0], Sort(s[1..]));
    }
  }

  /** What `retrieve_steam_data` returns or raises, with the request and
      checkpoint logs. */
  datatype Outcome = Outcome(result: Result<map<nat, map<string, Num>>>, requests: seq<Request>, checkpoints: seq<Checkpoint>)

  function Retrieve(c: Config, urls: seq<string>): Outcome {
    match GameIds(urls)
    case Err(e) => Outcome(Err(e), [], [])
    case Ok(ids) =>
      var sorted := Sort(ids);
      var s := Games(c, sorted, Initial, |sorted|);
      Outcome(if s.failed.Some? then Err(s.failed.value) else Ok(s.gameData), s.requests, s.checkpoints)
  }

  // ---------------------------------------------------------------------
  // The loops

  /** `retrieve_steam_data(videogame_urls_processed, usd_rates,
      checkpoint_game_id, checkpoint_index, batch=...)`. */
  method RetrieveSteamData(c: Config, urls: seq<string>) returns (out: Outcome)
    requires ValidOrders(c)
    ensures out == Retrieve(c, urls)
  {
    var parsed := GameIds(urls);
    if parsed.Err? {
      return Outcome(Err(parsed.error), [], []);
    }
    var ids := Sort(parsed.value);
    var s := ProcessGames(c, ids);
    return Outcome(if s.failed.Some? then Err(s.failed.value) else Ok(s.gameData), s.requests, s.checkpoints);
  }

  /** `for game_id in sorted(ids)`, up to the first exception. */
  method ProcessGames(c: Config, ids: seq<nat>) returns (s: State)
    requires ValidOrders(c)
    ensures s == Games(c, ids, Initial, |ids|)
  {
    s := Initial;
    var m := 0;
    while m < |ids|
      invariant 0 <= m <= |ids|
      invariant s == Games(c, ids, Initial, m) && s.failed.None?
    {
      s := ProcessGame(c, ids[m], s);
      m := m + 1;
      if s.failed.Some? {
        GamesFailedStays(c, ids, Initial, m, |ids|);
        return;
      }
    }
  }

  /** The body of `for game_id in ...` for one game. */
  method ProcessGame(c: Config, g: nat, s: State) returns (t: State)
    requires ValidOrders(c) && s.failed.None?
    ensures t == Game(c, g, s)
  {
    if g < c.cpGame {
      return s;
    }
    t := s.(requests := s.requests + [Probe(g)]);
    var resp := c.probe(g);
    if resp.RequestFailed? {
      return t.(failed := Some(RequestError));
    }
    if IsFree(resp) {
      return t;
    }
    if c.batch == 0 {
      return t.(failed := Some(ValueError));
    }
    var starts := BatchStarts(|c.keys|, c.batch);
    t := ProcessBatches(c, g, starts, t.(futures := [], entries := []));
    if t.failed.None? {
      t := t.(gameData := t.gameData[g := Collapse(t.entries)]);
    }
  }

  /** `for i in range(0, len(country_iso_codes) - 1, batch)`: the batches
      of one game, stopping at the first exception. */
  method ProcessBatches(c: Config, g: nat, starts: seq<nat>, s: State) returns (t: State)
    requires ValidOrders(c) && s.failed.None?
    ensures t == Batches(c, g, starts, s, |starts|)
  {
    t := s;
    var m := 0;
    while m < |starts|
      invariant 0 <= m <= |starts|
      invariant t == Batches(c, g, starts, s, m) && t.failed.None?
    {
      var i := starts[m];
      if !Skipped(c, g, i) {
        t := SubmitBatch(c, g, i, t);
        if t.failed.Some? {
          BatchesFailedStays(c, g, starts, s, m + 1, |starts|);
          return;
        }
        t := DrainFutures(c, g, i, t);
        if t.failed.Some? {
          BatchesFailedStays(c, g, starts, s, m + 1, |starts|);
          return;
        }
      }
      m := m + 1;
    }
  }

  /** `for j in range(batch)`: submit the fetches of the batch at `i`. */
  method SubmitBatch(c: Config, g: nat, i: nat, s: State) returns (t: State)
    requires s.failed.None?
    ensures t == Submit(c, g, i, s, Width(c))
  {
    t := s;
    var j := 0;
    while j < Width(c)
      invariant 0 <= j <= Width(c)
      invariant t == Submit(c, g, i, s, j) && t.failed.None?
    {
      if i + j >= |c.keys| {
        t := t.(failed := Some(IndexError));
        SubmitFailedStays(c, g, i, s, j + 1, Width(c));
        return;
      }
      var cc := c.keys[i + j];
      t := t.(futures := t.futures + [cc], requests := t.requests + [Fetch(g, cc)]);
      j := j + 1;
    }
  }

  /** `for future in as_completed(futures)`: the batch at `i` drains every
      future of the game. */
  method DrainFutures(c: Config, g: nat, i: nat, s: State) returns (t: State)
    requires ValidOrders(c) && s.failed.None?
    ensures t == Drain(c, g, i, s.futures, c.completion(g, i, |s.futures|), s, |s.futures|)
  {
    var futs := s.futures;
    var order := c.completion(g, i, |futs|);
    assert IsOrder(order, |futs|);
    t := s;
    var p := 0;
    while p < |order|
      invariant 0 <= p <= |order|
      invariant t == Drain(c, g, i, futs, order, s, p) && t.failed.None?
    {
      var k := order[p];
      var res := FetchResult(c, g, futs[k]);
      if res.Err? {
        t := t.(failed := Some(res.error));
        DrainFailedStays(c, g, i, futs, order, s, p + 1, |order|);
        return;
      }
      t := t.(entries := t.entries + [res.value], checkpoints := t.checkpoints + [Checkpoint(i, g)]);
      p := p + 1;
    }
  }

  // ---------------------------------------------------------------------
  // An exception ends every loop

  lemma {:induction false} SubmitFailedStays(c: Config, g: nat, i: nat, s: State, m: nat, m': nat)
    requires m <= m' && Submit(c, g, i, s, m).failed.Some?
    ensures Submit(c, g, i, s, m') == Submit(c, g, i, s, m)
    decreases m' - m
  {
    if m < m' {
      SubmitFailedStays(c, g, i, s, m, m' - 1);
    }
  }

  lemma {:induction false} DrainFailedStays(c: Config, g: nat, i: nat, futs: seq<string>, order: seq<nat>, s: State, m: nat, m': nat)
    requires m <= m' <= |order| && Drain(c, g, i, futs, order, s, m).failed.Some?
    ensures Drain(c, g, i, futs, order, s, m') == Drain(c, g, i, futs, order, s, m)
    decreases m' - m
  {
    if m < m' {
      DrainFailedStays(c, g, i, futs, order, s, m, m' - 1);
    }
  }

  lemma {:induction false} BatchesFailedStays(c: Config, g: nat, starts: seq<nat>, s: State, m: nat, m': nat)
    requires m <= m' <= |starts| && Batches(c, g, starts, s, m).failed.Some?
    ensures Batches(c, g, starts, s, m') == Batches(c, g, starts, s, m)
    decreases m' - m
  {
    if m < m' {
      BatchesFailedStays(c, g, starts, s, m, m' - 1);
    }
  }

  lemma {:induction false} GamesFailedStays(c: Config, ids: seq<nat>, s: State, m: nat, m': nat)
    requires m <= m' <= |ids| && Games(c, ids, s, m).failed.Some?
    ensures Games(c, ids, s, m') == Games(c, ids, s, m)
    decreases m' - m
  {
    if m < m' {
      GamesFailedStays(c, ids, s, m, m' - 1);
    }
  }

  // ---------------------------------------------------------------------
  // What one batch does

  /** The fetch requests of game `g` for the codes `ccs`, in order. */
  function Fetches(g: nat, ccs: seq<string>): (r: seq<Request>)
    ensures |r| == |ccs| && forall k :: 0 <= k < |ccs| ==> r[k] == Fetch(g, ccs[k])
  {
    seq(|ccs|, k requires 0 <= k < |ccs| => Fetch(g, ccs[k]))
  }

  /** `n` writes of the same checkpoint. */
  function Repeat(cp: Checkpoint, n: nat): (r: seq<Checkpoint>)
    ensures |r| == n && forall k :: 0 <= k < n ==> r[k] == cp
  {
    seq(n, _ => cp)
  }

  function Lesser(a: int, b: int): int {
    if a <= b then a else b
  }

  /** The country codes of some results. */
  function Codes(entries: seq<(string, Num)>): set<string> {
    set q | 0 <= q < |entries| :: entries[q].0
  }

  /** Each result is the result of one of the futures `futs`. */
  predicate ValidEntries(c: Config, g: nat, futs: seq<string>, entries: seq<(string, Num)>) {
    forall q :: 0 <= q < |entries| ==> entries[q].0 in futs && FetchResult(c, g, entries[q].0) == Ok(entries[q])
  }

  /** No fetch of game `g` fails. */
  ghost predicate NoFetchFails(c: Config, g: nat) {
    forall cc :: !c.fetch(g, cc).RequestFailed?
  }

  /** Submitting: the codes from `i` on are appended to the futures (and
      fetched) until the batch is full or the codes run out, which raises
      IndexError unless the batch is empty. */
  lemma {:induction false} SubmitShape(c: Config, g: nat, i: nat, s: State, m: nat)
    requires s.failed.None?
    ensures Submit(c, g, i, s, m).failed == if m == 0 || i + m <= |c.keys| then None else Some(IndexError)
    ensures Submit(c, g, i, s, m).futures == s.futures + c.keys[Lesser(i, |c.keys|)..Lesser(i + m, |c.keys|)]
    ensures Submit(c, g, i, s, m).requests == s.requests + Fetches(g, c.keys[Lesser(i, |c.keys|)..Lesser(i + m, |c.keys|)])
    ensures Submit(c, g, i, s, m).gameData == s.gameData && Submit(c, g, i, s, m).entries == s.entries
    ensures Submit(c, g, i, s, m).checkpoints == s.checkpoints
  {
    if m > 0 {
      SubmitShape(c, g, i, s, m - 1);
      var t := Submit(c, g, i, s, m - 1);
      var lo := Lesser(i, |c.keys|);
      if t.failed.None? && i + m - 1 < |c.keys| {
        SubmitAppend(g, c.keys, lo, i + m - 1);
      }
    }
  }

  lemma SubmitAppend(g: nat, keys: seq<string>, lo: nat, hi: nat)
    requires lo <= hi < |keys|
    ensures keys[lo..hi] + [keys[hi]] == keys[lo..hi + 1]
    ensures Fetches(g, keys[lo..hi]) + [Fetch(g, keys[hi])] == Fetches(g, keys[lo..hi + 1])
  {
    assert keys[lo..hi] + [keys[hi]] == keys[lo..hi + 1];
  }

  /** What a drain keeps: it only appends results of the futures, with one
      checkpoint write (i, g) per result. */
  predicate DrainKeeps(c: Config, g: nat, i: nat, futs: seq<string>, s: State, t: State) {
    && t.gameData == s.gameData && t.futures == s.futures && t.requests == s.requests
    && |s.entries| <= |t.entries| && t.entries[..|s.entries|] == s.entries
    && t.checkpoints == s.checkpoints + Repeat(Checkpoint(i, g), |t.entries| - |s.entries|)
    && ValidEntries(c, g, futs, t.entries[|s.entries|..])
  }

  lemma {:induction false} DrainFrame(c: Config, g: nat, i: nat, futs: seq<string>, order: seq<nat>, s: State, m: nat)
    requires m <= |order|
    ensures DrainKeeps(c, g, i, futs, s, Drain(c, g, i, futs, order, s, m))
    ensures s.failed.Some? ==> Drain(c, g, i, futs, order, s, m) == s
  {
    if m == 0 {
      assert s.entries[|s.entries|..] == [];
      assert s.checkpoints + Repeat(Checkpoint(i, g), 0) == s.checkpoints;
    } else {
      DrainFrame(c, g, i, futs, order, s, m - 1);
      var t := Drain(c, g, i, futs, order, s, m - 1);
      var k := order[m - 1];
      if t.failed.None? && k < |futs| && FetchResult(c, g, futs[k]).Ok? {
        DrainKeepsAppend(c, g, i, futs, s, t, FetchResult(c, g, futs[k]).value);
      }
    }
  }

  lemma DrainKeepsAppend(c: Config, g: nat, i: nat, futs: seq<string>, s: State, t: State, p: (string, Num))
    requires DrainKeeps(c, g, i, futs, s, t)
    requires p.0 in futs && FetchResult(c, g, p.0) == Ok(p)
    ensures DrainKeeps(c, g, i, futs, s, t.(entries := t.entries + [p], checkpoints := t.checkpoints + [Checkpoint(i, g)]))
  {
    var n := |t.entries| - |s.entries|;
    assert (t.entries + [p])[..|s.entries|] == t.entries[..|s.entries|];
    assert (t.entries + [p])[|s.entries|..] == t.entries[|s.entries|..] + [p];
    assert s.checkpoints + Repeat(Checkpoint(i, g), n) + [Checkpoint(i, g)] == s.checkpoints + Repeat(Checkpoint(i, g), n + 1);
  }

  /** A drain over futures that all exist: it raises RequestError exactly
      when one of the drained fetches failed, and otherwise appends one
      result per drained future, in completion order. */
  lemma {:induction false} DrainOutcome(c: Config, g: nat, i: nat, futs: seq<string>, order: seq<nat>, s: State, m: nat)
    requires m <= |order| && s.failed.None?
    requires forall p :: 0 <= p < m ==> order[p] < |futs|
    ensures var t := Drain(c, g, i, futs, order, s, m);
      && (t.failed.None? <==> forall p :: 0 <= p < m ==> !c.fetch(g, futs[order[p]]).RequestFailed?)
      && (t.failed.Some? ==> t.failed == Some(RequestError))
      && (t.failed.None? ==> |t.entries| == |s.entries| + m)
      && (t.failed.None? ==> forall p :: 0 <= p < m ==> t.entries[|s.entries| + p].0 == futs[order[p]])
  {
    if m > 0 {
      DrainOutcome(c, g, i, futs, order, s, m - 1);
      var t := Drain(c, g, i, futs, order, s, m - 1);
      if t.failed.Some? {
        var p :| 0 <= p < m - 1 && c.fetch(g, futs[order[p]]).RequestFailed?;
      }
    }
  }

  /** What a batch keeps: it appends its codes to the futures and fetches
      them, and appends results of the futures, with one checkpoint write
      (i, g) per result; `game_data` of the earlier games is untouched. */
  predicate StepKeeps(c: Config, g: nat, i: nat, s: State, t: State) {
    && t.gameData == s.gameData
    && |s.futures| <= |t.futures| && t.futures[..|s.futures|] == s.futures
    && t.requests == s.requests + Fetches(g, t.futures[|s.futures|..])
    && |s.entries| <= |t.entries| && t.entries[..|s.entries|] == s.entries
    && ValidEntries(c, g, t.futures, t.entries[|s.entries|..])
    && t.checkpoints == s.checkpoints + Repeat(Checkpoint(i, g), |t.entries| - |s.entries|)
  }

  lemma StepKeepsSame(c: Config, g: nat, i: nat, s: State)
    ensures StepKeeps(c, g, i, s, s)
  {
    assert s.futures[|s.futures|..] == [];
    assert s.entries[|s.entries|..] == [];
    assert s.requests + Fetches(g, []) == s.requests;
    assert s.checkpoints + Repeat(Checkpoint(i, g), 0) == s.checkpoints;
  }

  lemma BatchStepFrame(c: Config, g: nat, i: nat, s: State)
    ensures StepKeeps(c, g, i, s, BatchStep(c, g, i, s))
    ensures s.failed.Some? || Skipped(c, g, i) ==> BatchStep(c, g, i, s) == s
  {
    if s.failed.Some? || Skipped(c, g, i) {
      StepKeepsSame(c, g, i, s);
    } else {
      SubmitShape(c, g, i, s, Width(c));
      var t1 := Submit(c, g, i, s, Width(c));
      var slice := c.keys[Lesser(i, |c.keys|)..Lesser(i + Width(c), |c.keys|)];
      assert t1.futures[..|s.futures|] == s.futures;
      assert t1.futures[|s.futures|..] == slice;
      if t1.failed.None? {
        var order := c.completion(g, i, |t1.futures|);
        DrainFrame(c, g, i, t1.futures, order, t1, |order|);
      } else {
        assert t1.entries[|s.entries|..] == [];
        assert s.checkpoints + Repeat(Checkpoint(i, g), 0) == s.checkpoints;
      }
    }
  }

  /** A batch whose fetches all succeed: it raises IndexError exactly when
      it runs past the end of the codes, and otherwise re-appends a result
      for EVERY future of the game so far, not only for its own. */
  lemma BatchStepOutcome(c: Config, g: nat, i: nat, s: State)
    requires ValidOrders(c) && s.failed.None? && !Skipped(c, g, i) && NoFetchFails(c, g)
    ensures var t := BatchStep(c, g, i, s);
      && (t.failed.None? <==> Width(c) == 0 || i + Width(c) <= |c.keys|)
      && (t.failed.Some? ==> t.failed == Some(IndexError))
      && (t.failed.None? ==> t.futures == s.futures + c.keys[Lesser(i, |c.keys|)..Lesser(i + Width(c), |c.keys|)])
      && (t.failed.None? ==> |t.entries| == |s.entries| + |t.futures|)
      && (t.failed.None? ==> forall k :: 0 <= k < |t.futures| ==> t.futures[k] in Codes(t.entries[|s.entries|..]))
  {
    SubmitShape(c, g, i, s, Width(c));
    var t1 := Submit(c, g, i, s, Width(c));
    if t1.failed.None? {
      DrainAll(c, g, i, t1);
    }
  }

  /** Draining all futures when no fetch fails. */
  lemma DrainAll(c: Config, g: nat, i: nat, t1: State)
    requires ValidOrders(c) && NoFetchFails(c, g) && t1.failed.None?
    ensures var order := c.completion(g, i, |t1.futures|);
      var t := Drain(c, g, i, t1.futures, order, t1, |order|);
      && t.failed.None? && t.futures == t1.futures
      && |t.entries| == |t1.entries| + |t1.futures|
      && forall k :: 0 <= k < |t.futures| ==> t.futures[k] in Codes(t.entries[|t1.entries|..])
  {
    var futs := t1.futures;
    var order := c.completion(g, i, |futs|);
    assert IsOrder(order, |futs|);
    DrainOutcome(c, g, i, futs, order, t1, |order|);
    DrainFrame(c, g, i, futs, order, t1, |order|);
    var t := Drain(c, g, i, futs, order, t1, |order|);
    DrainCovers(futs, order, t.entries, |t1.entries|);
  }

  /** Draining every future in some completion order leaves a result for
      each of them. */
  lemma DrainCovers(futs: seq<string>, order: seq<nat>, entries: seq<(string, Num)>, base: nat)
    requires IsOrder(order, |futs|) && base + |order| <= |entries|
    requires forall p :: 0 <= p < |order| ==> entries[base + p].0 == futs[order[p]]
    ensures forall k :: 0 <= k < |futs| ==> futs[k] in Codes(entries[base..])
  {
    forall k | 0 <= k < |futs|
      ensures futs[k] in Codes(entries[base..])
    {
      assert k in order;
      var p :| 0 <= p < |order| && order[p] == k;
      assert entries[base..][p] == entries[base + p];
    }
  }

  // ---------------------------------------------------------------------
  // What the batches of one game do

  predicate Increasing(starts: seq<nat>) {
    forall k, l :: 0 <= k < l < |starts| ==> starts[k] < starts[l]
  }

  lemma BatchStartsIncrease(n: nat, b: int)
    requires b != 0
    ensures Increasing(BatchStarts(n, b))
  {
    if b > 0 {
      forall k, l | 0 <= k < l < |BatchStarts(n, b)|
        ensures BatchStarts(n, b)[k] < BatchStarts(n, b)[l]
      {
        StartsIncrease(n, b, k, l);
      }
    }
  }

  /** The checkpoints a game writes from position `base` on: each is
      (start, g) for one of the first `m` starts that was not skipped, in
      non-decreasing order of start. */
  predicate GameCheckpoints(c: Config, g: nat, starts: seq<nat>, m: nat, base: nat, cps: seq<Checkpoint>)
    requires m <= |starts|
  {
    && base <= |cps|
    && (forall q :: base <= q < |cps| ==>
          cps[q].gameId == g && exists k :: 0 <= k < m && cps[q].index == starts[k] && !Skipped(c, g, starts[k]))
    && (forall q, q' :: base <= q < q' < |cps| ==> cps[q].index <= cps[q'].index)
  }

  /** What the batches of game `g` keep, from the game's fresh lists `s`:
      every fetch is of a future, every result is the result of a future,
      and the checkpoints are as above. */
  predicate BatchesKeep(c: Config, g: nat, starts: seq<nat>, m: nat, s: State, t: State)
    requires m <= |starts|
  {
    && t.gameData == s.gameData
    && t.requests == s.requests + Fetches(g, t.futures)
    && ValidEntries(c, g, t.futures, t.entries)
    && |s.checkpoints| <= |t.checkpoints| && t.checkpoints[..|s.checkpoints|] == s.checkpoints
    && GameCheckpoints(c, g, starts, m, |s.checkpoints|, t.checkpoints)
  }

  lemma {:induction false} BatchesFrame(c: Config, g: nat, starts: seq<nat>, s: State, m: nat)
    requires m <= |starts| && Increasing(starts) && s.futures == [] && s.entries == []
    ensures BatchesKeep(c, g, starts, m, s, Batches(c, g, starts, s, m))
    ensures s.failed.Some? ==> Batches(c, g, starts, s, m) == s
  {
    if m == 0 {
      assert s.requests + Fetches(g, []) == s.requests;
    } else {
      BatchesFrame(c, g, starts, s, m - 1);
      var t' := Batches(c, g, starts, s, m - 1);
      BatchStepFrame(c, g, starts[m - 1], t');
      BatchesKeepStep(c, g, starts, m, s, t', BatchStep(c, g, starts[m - 1], t'));
    }
  }

  lemma BatchesKeepStep(c: Config, g: nat, starts: seq<nat>, m: nat, s: State, t': State, t: State)
    requires 0 < m <= |starts| && Increasing(starts) && s.futures == [] && s.entries == []
    requires BatchesKeep(c, g, starts, m - 1, s, t')
    requires StepKeeps(c, g, starts[m - 1], t', t)
    requires t == t' || !Skipped(c, g, starts[m - 1])
    ensures BatchesKeep(c, g, starts, m, s, t)
  {
    assert t.requests == s.requests + Fetches(g, t.futures) by {
      RequestsStep(g, s.requests, t'.requests, t.requests, t'.futures, t.futures);
    }
    assert ValidEntries(c, g, t.futures, t.entries) by {
      EntriesStep(c, g, t'.futures, t.futures, t'.entries, t.entries);
    }
    assert GameCheckpoints(c, g, starts, m, |s.checkpoints|, t.checkpoints) by {
      CheckpointsStep(c, g, starts, m, |s.checkpoints|, t'.checkpoints, t.checkpoints, |t.entries| - |t'.entries|);
    }
    assert t.checkpoints[..|s.checkpoints|] == s.checkpoints by {
      assert t.checkpoints[..|s.checkpoints|] == t'.checkpoints[..|s.checkpoints|];
    }
  }

  lemma EntriesStep(c: Config, g: nat, futs': seq<string>, futs: seq<string>, entries': seq<(string, Num)>, entries: seq<(string, Num)>)
    requires ValidEntries(c, g, futs', entries')
    requires |futs'| <= |futs| && futs[..|futs'|] == futs'
    requires |entries'| <= |entries| && entries[..|entries'|] == entries'
    requires ValidEntries(c, g, futs, entries[|entries'|..])
    ensures ValidEntries(c, g, futs, entries)
  {
    forall q | 0 <= q < |entries|
      ensures entries[q].0 in futs && FetchResult(c, g, entries[q].0) == Ok(entries[q])
    {
      if q < |entries'| {
        assert entries[q] == entries'[q];
        var k :| 0 <= k < |futs'| && futs'[k] == entries'[q].0;
        assert futs[k] == futs'[k];
      } else {
        assert entries[q] == entries[|entries'|..][q - |entries'|];
      }
    }
  }

  lemma CheckpointsStep(c: Config, g: nat, starts: seq<nat>, m: nat, base: nat, cps': seq<Checkpoint>, cps: seq<Checkpoint>, n: nat)
    requires 0 < m <= |starts| && Increasing(starts)
    requires GameCheckpoints(c, g, starts, m - 1, base, cps')
    requires cps == cps' + Repeat(Checkpoint(starts[m - 1], g), n)
    requires n == 0 || !Skipped(c, g, starts[m - 1])
    ensures GameCheckpoints(c, g, starts, m, base, cps)
  {
    var i := starts[m - 1];
    var l := |cps'|;
    forall q | base <= q < |cps|
      ensures cps[q].gameId == g
      ensures exists k :: 0 <= k < m && cps[q].index == starts[k] && !Skipped(c, g, starts[k])
    {
      if q < l {
        assert cps[q] == cps'[q];
      } else {
        assert cps[q] == Checkpoint(i, g);
      }
    }
    forall q, q' | base <= q < q' < |cps|
      ensures cps[q].index <= cps[q'].index
    {
      if q' < l {
        assert cps[q] == cps'[q] && cps[q'] == cps'[q'];
      } else if q < l {
        assert cps[q] == cps'[q];
        var k :| 0 <= k < m - 1 && cps'[q].index == starts[k] && !Skipped(c, g, starts[k]);
        assert cps[q'] == Checkpoint(i, g);
      } else {
        assert cps[q] == Checkpoint(i, g) == cps[q'];
      }
    }
  }

  lemma RequestsStep(g: nat, base: seq<Request>, reqs': seq<Request>, reqs: seq<Request>, futs': seq<string>, futs: seq<string>)
    requires reqs' == base + Fetches(g, futs')
    requires |futs'| <= |futs| && futs[..|futs'|] == futs'
    requires reqs == reqs' + Fetches(g, futs[|futs'|..])
    ensures reqs == base + Fetches(g, futs)
  {
    var whole := base + Fetches(g, futs);
    assert |reqs| == |whole|;
    forall k | 0 <= k < |reqs|
      ensures reqs[k] == whole[k]
    {
      if k >= |base| + |futs'| {
        assert futs[|futs'|..][k - |base| - |futs'|] == futs[k - |base|];
      } else if k >= |base| {
        assert futs'[k - |base|] == futs[k - |base|];
      }
    }
  }

  /** The number of leading batches skipped when resuming. */
  function SkipPrefix(c: Config, g: nat, starts: seq<nat>): (k: nat)
    ensures k <= |starts|
  {
    if starts == [] || !Skipped(c, g, starts[0]) then 0 else 1 + SkipPrefix(c, g, starts[1..])
  }

  /** Over increasing starts, the skipped batches are exactly the leading
      `SkipPrefix` ones. */
  lemma {:induction false} SkipPrefixExact(c: Config, g: nat, starts: seq<nat>)
    requires Increasing(starts)
    ensures forall k :: 0 <= k < |starts| ==> (Skipped(c, g, starts[k]) <==> k < SkipPrefix(c, g, starts))
  {
    if starts != [] {
      var rest := starts[1..];
      assert forall k :: 1 <= k < |starts| ==> rest[k - 1] == starts[k];
      if Skipped(c, g, starts[0]) {
        SkipPrefixExact(c, g, rest);
        forall k | 1 <= k < |starts|
          ensures Skipped(c, g, starts[k]) <==> k < SkipPrefix(c, g, starts)
        {
          assert rest[k - 1] == starts[k];
        }
      } else {
        forall k | 1 <= k < |starts|
          ensures !Skipped(c, g, starts[k])
        {
          assert starts[0] < starts[k];
        }
      }
    }
  }

  /** The batches of a game whose fetches all succeed, with a positive
      batch size: after the skipped leading batches, batch `k` fetches the
      codes `k * b .. (k + 1) * b - 1`; the first batch that runs past the
      end of the codes raises IndexError; every future so far has a
      result. */
  lemma {:induction false} BatchesOutcome(c: Config, g: nat, s: State, m: nat)
    requires ValidOrders(c) && NoFetchFails(c, g) && s.failed.None? && s.futures == [] && s.entries == []
    requires c.batch > 0 && m <= |BatchStarts(|c.keys|, c.batch)|
    ensures var starts := BatchStarts(|c.keys|, c.batch);
      var t := Batches(c, g, starts, s, m);
      var k0 := SkipPrefix(c, g, starts);
      && (t.failed.None? <==> m <= k0 || m * c.batch <= |c.keys|)
      && (t.failed.Some? ==> t.failed == Some(IndexError))
      && (m <= k0 ==> t.futures == [])
      && (t.failed.None? && k0 < m ==> k0 * c.batch <= m * c.batch <= |c.keys| && t.futures == c.keys[k0 * c.batch..m * c.batch])
      && (t.failed.None? ==> forall k :: 0 <= k < |t.futures| ==> t.futures[k] in Codes(t.entries))
  {
    var starts := BatchStarts(|c.keys|, c.batch);
    var k0 := SkipPrefix(c, g, starts);
    var b := c.batch;
    if m > 0 {
      BatchesOutcome(c, g, s, m - 1);
      var t' := Batches(c, g, starts, s, m - 1);
      var i := starts[m - 1];
      BatchStartsIncrease(|c.keys|, b);
      SkipPrefixExact(c, g, starts);
      if t'.failed.Some? {
        MulMono(m - 1, m, b);
      } else if m - 1 < k0 {
        assert Skipped(c, g, i);
      } else {
        BatchesOutcomeStep(c, g, starts, k0, m, t');
      }
    }
  }

  lemma BatchesOutcomeStep(c: Config, g: nat, starts: seq<nat>, k0: nat, m: nat, t': State)
    requires ValidOrders(c) && NoFetchFails(c, g) && c.batch > 0
    requires starts == BatchStarts(|c.keys|, c.batch) && 0 < m <= |starts| && k0 < m
    requires t'.failed.None? && !Skipped(c, g, starts[m - 1])
    requires m - 1 == k0 ==> t'.futures == []
    requires k0 < m - 1 ==> k0 * c.batch <= (m - 1) * c.batch <= |c.keys| && t'.futures == c.keys[k0 * c.batch..(m - 1) * c.batch]
    ensures var t := BatchStep(c, g, starts[m - 1], t');
      && (t.failed.None? <==> m * c.batch <= |c.keys|)
      && (t.failed.Some? ==> t.failed == Some(IndexError))
      && (t.failed.None? ==> k0 * c.batch <= m * c.batch <= |c.keys| && t.futures == c.keys[k0 * c.batch..m * c.batch])
      && (t.failed.None? ==> forall k :: 0 <= k < |t.futures| ==> t.futures[k] in Codes(t.entries))
  {
    var b := c.batch;
    var i := starts[m - 1];
    assert i == (m - 1) * b;
    MulPred(m, b);
    BatchStepOutcome(c, g, i, t');
    var t := BatchStep(c, g, i, t');
    if t.failed.None? {
      WindowStep(c.keys, b, k0, m, t'.futures, t.futures);
      CodesSuffix(t.entries, |t'.entries|);
    }
  }

  /** The futures after batch `m - 1` extend those after batch `m - 2` by
      the codes of that batch. */
  lemma WindowStep(keys: seq<string>, b: nat, k0: nat, m: nat, futs': seq<string>, futs: seq<string>)
    requires b > 0 && k0 < m && m * b <= |keys|
    requires m - 1 == k0 ==> futs' == []
    requires k0 < m - 1 ==> k0 * b <= (m - 1) * b <= |keys| && futs' == keys[k0 * b..(m - 1) * b]
    requires futs == futs' + keys[Lesser((m - 1) * b, |keys|)..Lesser((m - 1) * b + b, |keys|)]
    ensures k0 * b <= m * b && futs == keys[k0 * b..m * b]
  {
    MulPred(m, b);
    MulMono(k0, m - 1, b);
    var i := (m - 1) * b;
    assert keys[Lesser(i, |keys|)..Lesser(i + b, |keys|)] == keys[i..m * b];
    if k0 < m - 1 {
      assert keys[k0 * b..i] + keys[i..m * b] == keys[k0 * b..m * b];
    }
  }

  lemma CodesSuffix(entries: seq<(string, Num)>, base: nat)
    requires base <= |entries|
    ensures Codes(entries[base..]) <= Codes(entries)
  {
    forall cc | cc in Codes(entries[base..])
      ensures cc in Codes(entries)
    {
      var q :| 0 <= q < |entries[base..]| && entries[base..][q].0 == cc;
      assert entries[base + q] == entries[base..][q];
    }
  }

  // ---------------------------------------------------------------------
  // What one game does

  function ElementsOf(ccs: seq<string>): set<string> {
    set k | 0 <= k < |ccs| :: ccs[k]
  }

  /** `dict(pairs)` over results of fetches: one key per code fetched,
      holding that code's price. */
  lemma {:induction false} CollapseValid(c: Config, g: nat, entries: seq<(string, Num)>)
    requires forall q :: 0 <= q < |entries| ==> FetchResult(c, g, entries[q].0) == Ok(entries[q])
    ensures Collapse(entries).Keys == Codes(entries)
    ensures forall cc :: cc in Collapse(entries) ==> FetchResult(c, g, cc) == Ok((cc, Collapse(entries)[cc]))
  {
    if entries != [] {
      var init := entries[..|entries| - 1];
      assert forall q :: 0 <= q < |init| ==> init[q] == entries[q];
      CollapseValid(c, g, init);
      assert Codes(entries) == Codes(init) + {entries[|entries| - 1].0};
    }
  }

  /** Results that cover their futures have exactly the futures' codes. */
  lemma EntriesCodes(c: Config, g: nat, futs: seq<string>, entries: seq<(string, Num)>)
    requires ValidEntries(c, g, futs, entries)
    requires forall k :: 0 <= k < |futs| ==> futs[k] in Codes(entries)
    ensures Codes(entries) == ElementsOf(futs)
  {
  }

  /** The codes a game fetches: the window after the skipped leading
      batches up to the end of the last batch. */
  function Window(c: Config, g: nat): seq<string>
    requires c.batch > 0
  {
    var starts := BatchStarts(|c.keys|, c.batch);
    var k0 := SkipPrefix(c, g, starts);
    var hi := |starts| * c.batch;
    if |starts| <= k0 || hi > |c.keys| then [] else
      MulMono(k0, |starts|, c.batch);
      c.keys[k0 * c.batch..hi]
  }

  /** A game that is not free, with a positive batch size and fetches that
      all succeed: it raises IndexError exactly when its last batch runs
      past the end of the codes; otherwise it fetches each code of the
      window once, in order, and its entry in `game_data` maps exactly the
      codes of the window to their prices. */
  lemma GameFetches(c: Config, g: nat, s: State)
    requires ValidOrders(c) && NoFetchFails(c, g) && s.failed.None? && g >= c.cpGame
    requires !c.probe(g).RequestFailed? && !IsFree(c.probe(g)) && c.batch > 0
    ensures var t := Game(c, g, s);
      var starts := BatchStarts(|c.keys|, c.batch);
      var k0 := SkipPrefix(c, g, starts);
      && (t.failed.None? <==> |starts| <= k0 || |starts| * c.batch <= |c.keys|)
      && (t.failed.Some? ==> t.failed == Some(IndexError))
      && (t.failed.None? ==> t.requests == s.requests + [Probe(g)] + Fetches(g, Window(c, g)))
      && (t.failed.None? ==> g in t.gameData && t.gameData[g].Keys == ElementsOf(Window(c, g)))
      && (t.failed.None? ==> forall cc :: cc in t.gameData[g] ==> FetchResult(c, g, cc) == Ok((cc, t.gameData[g][cc])))
  {
    var starts := BatchStarts(|c.keys|, c.batch);
    var s2 := s.(requests := s.requests + [Probe(g)], futures := [], entries := []);
    BatchStartsIncrease(|c.keys|, c.batch);
    BatchesOutcome(c, g, s2, |starts|);
    BatchesFrame(c, g, starts, s2, |starts|);
    var t0 := Batches(c, g, starts, s2, |starts|);
    if t0.failed.None? {
      assert t0.futures == Window(c, g);
      EntriesCodes(c, g, t0.futures, t0.entries);
      CollapseValid(c, g, t0.entries);
    }
  }

  /** Whether game `g` starts from the first batch. */
  predicate FromFirstBatch(c: Config, g: nat) {
    g != c.cpGame || c.cpIndex <= 0
  }

  /** With a batch size `b >= 2` dividing the number of codes, a game that
      does not resume fetches every code. */
  lemma GameCoversAll(c: Config, g: nat, s: State)
    requires ValidOrders(c) && NoFetchFails(c, g) && s.failed.None? && g >= c.cpGame
    requires !c.probe(g).RequestFailed? && !IsFree(c.probe(g)) && FromFirstBatch(c, g)
    requires c.batch >= 2 && |c.keys| % c.batch == 0
    ensures Game(c, g, s).failed.None?
    ensures g in Game(c, g, s).gameData && Game(c, g, s).gameData[g].Keys == ElementsOf(c.keys)
  {
    GameFetches(c, g, s);
    CoverAll(|c.keys|, c.batch);
    var starts := BatchStarts(|c.keys|, c.batch);
    assert SkipPrefix(c, g, starts) == 0;
    assert Window(c, g) == c.keys[0..|c.keys|] == c.keys;
  }

  /** With `b` dividing the number of codes minus one (in particular with
      `b == 1`), a game that does not resume never fetches the last code:
      its entry lacks that code when the codes are distinct. */
  lemma GameMissesLast(c: Config, g: nat, s: State)
    requires ValidOrders(c) && NoFetchFails(c, g) && s.failed.None? && g >= c.cpGame
    requires !c.probe(g).RequestFailed? && !IsFree(c.probe(g)) && FromFirstBatch(c, g)
    requires c.batch > 0 && |c.keys| >= 1 && (|c.keys| - 1) % c.batch == 0
    ensures Game(c, g, s).failed.None?
    ensures g in Game(c, g, s).gameData && Game(c, g, s).gameData[g].Keys == ElementsOf(c.keys[..|c.keys| - 1])
    ensures NoDuplicates(c.keys) ==> c.keys[|c.keys| - 1] !in Game(c, g, s).gameData[g]
  {
    GameFetches(c, g, s);
    LastMissed(|c.keys|, c.batch);
    var starts := BatchStarts(|c.keys|, c.batch);
    assert SkipPrefix(c, g, starts) == 0;
    assert Window(c, g) == c.keys[..|c.keys| - 1];
    if NoDuplicates(c.keys) {
      LastNotBefore(c.keys);
    }
  }

  lemma LastNotBefore(keys: seq<string>)
    requires |keys| >= 1 && NoDuplicates(keys)
    ensures keys[|keys| - 1] !in ElementsOf(keys[..|keys| - 1])
  {
    var init := keys[..|keys| - 1];
    forall k | 0 <= k < |init|
      ensures init[k] != keys[|keys| - 1]
    {
      assert init[k] == keys[k];
    }
  }

  /** Otherwise a game that does not resume raises IndexError in its last
      batch, after fetching the codes of all earlier batches. */
  lemma GameOverflows(c: Config, g: nat, s: State)
    requires ValidOrders(c) && NoFetchFails(c, g) && s.failed.None? && g >= c.cpGame
    requires !c.probe(g).RequestFailed? && !IsFree(c.probe(g)) && FromFirstBatch(c, g)
    requires c.batch > 0 && |c.keys| % c.batch != 0 && (|c.keys| - 1) % c.batch != 0
    ensures Game(c, g, s).failed == Some(IndexError)
  {
    GameFetches(c, g, s);
    Overflow(|c.keys|, c.batch);
    assert SkipPrefix(c, g, BatchStarts(|c.keys|, c.batch)) == 0;
  }

  /** Resuming the checkpoint game skips exactly the batches that start
      before the checkpoint index. */
  lemma ResumeSkips(c: Config)
    requires c.batch > 0 && c.cpGame >= 0
    ensures var starts := BatchStarts(|c.keys|, c.batch);
      forall k :: 0 <= k < |starts| ==> (k < SkipPrefix(c, c.cpGame as nat, starts) <==> k * c.batch < c.cpIndex)
  {
    var g := c.cpGame as nat;
    var starts := BatchStarts(|c.keys|, c.batch);
    BatchStartsIncrease(|c.keys|, c.batch);
    SkipPrefixExact(c, g, starts);
    forall k | 0 <= k < |starts|
      ensures k < SkipPrefix(c, g, starts) <==> k * c.batch < c.cpIndex
    {
      assert starts[k] == k * c.batch;
      assert Skipped(c, g, starts[k]) <==> k < SkipPrefix(c, g, starts);
    }
  }

  /** When the checkpoint index is the start of a batch (as every index the
      scheduler writes is), the resumed game starts with that batch. */
  lemma ResumeAtCheckpoint(c: Config)
    requires c.batch > 0 && c.cpGame >= 0
    requires 0 <= c.cpIndex < |c.keys| - 1 && c.cpIndex % c.batch == 0
    ensures SkipPrefix(c, c.cpGame as nat, BatchStarts(|c.keys|, c.batch)) * c.batch == c.cpIndex
  {
    var b := c.batch;
    var starts := BatchStarts(|c.keys|, b);
    var q := c.cpIndex / b;
    assert q * b == c.cpIndex;
    StartsCount(|c.keys|, b);
    MulCancel(q, |starts|, b);
    ResumeSkips(c);
    var k0 := SkipPrefix(c, c.cpGame as nat, starts);
    assert !(q < k0);
    if q > 0 {
      MulPred(q, b);
      assert q - 1 < k0;
    }
  }

  /** What processing game `g` keeps: it only appends requests about `g`
      and checkpoints of `g` in non-decreasing order of index, never below
      the checkpoint index when `g` is the checkpoint game, and it only
      (re)defines the entry of `g` in `game_data`. */
  predicate GameKeeps(c: Config, g: nat, s: State, t: State) {
    && |s.requests| <= |t.requests| && t.requests[..|s.requests|] == s.requests
    && (forall q :: |s.requests| <= q < |t.requests| ==> t.requests[q].app == g)
    && |s.checkpoints| <= |t.checkpoints| && t.checkpoints[..|s.checkpoints|] == s.checkpoints
    && (forall q :: |s.checkpoints| <= q < |t.checkpoints| ==>
          t.checkpoints[q].gameId == g && (g == c.cpGame ==> t.checkpoints[q].index >= c.cpIndex))
    && (forall q, q' :: |s.checkpoints| <= q < q' < |t.checkpoints| ==> t.checkpoints[q].index <= t.checkpoints[q'].index)
    && t.gameData.Keys <= s.gameData.Keys + {g}
    && (forall h :: h in s.gameData && h != g ==> h in t.gameData && t.gameData[h] == s.gameData[h])
    && (g in t.gameData && g !in s.gameData ==> g >= c.cpGame && !IsFree(c.probe(g)))
  }

  lemma GameKeepsIntro(c: Config, g: nat, s: State, t: State, extra: seq<Request>, starts: seq<nat>, m: nat)
    requires m <= |starts|
    requires t.requests == s.requests + extra && forall q :: 0 <= q < |extra| ==> extra[q].app == g
    requires |s.checkpoints| <= |t.checkpoints| && t.checkpoints[..|s.checkpoints|] == s.checkpoints
    requires GameCheckpoints(c, g, starts, m, |s.checkpoints|, t.checkpoints)
    requires t.gameData == s.gameData || (g in t.gameData && t.gameData == s.gameData[g := t.gameData[g]])
    requires t.gameData != s.gameData ==> g >= c.cpGame && !IsFree(c.probe(g))
    ensures GameKeeps(c, g, s, t)
  {
    forall q | |s.requests| <= q < |t.requests|
      ensures t.requests[q].app == g
    {
      assert t.requests[q] == extra[q - |s.requests|];
    }
  }

  lemma GameFrame(c: Config, g: nat, s: State)
    ensures GameKeeps(c, g, s, Game(c, g, s))
    ensures s.failed.Some? || g < c.cpGame ==> Game(c, g, s) == s
    ensures s.failed.None? && g >= c.cpGame && Game(c, g, s).failed.None? ==>
      Game(c, g, s).gameData.Keys == s.gameData.Keys + (if IsFree(c.probe(g)) then {} else {g})
    ensures s.failed.None? && g >= c.cpGame && IsFree(c.probe(g)) ==>
      Game(c, g, s) == s.(requests := s.requests + [Probe(g)])
  {
    var t := Game(c, g, s);
    if s.failed.Some? || g < c.cpGame {
      assert s.requests == s.requests + [];
      GameKeepsIntro(c, g, s, t, [], [], 0);
    } else if c.probe(g).RequestFailed? || IsFree(c.probe(g)) || c.batch == 0 {
      GameKeepsIntro(c, g, s, t, [Probe(g)], [], 0);
    } else {
      GameFrameBatches(c, g, s);
    }
  }

  lemma GameFrameBatches(c: Config, g: nat, s: State)
    requires s.failed.None? && g >= c.cpGame
    requires !c.probe(g).RequestFailed? && !IsFree(c.probe(g)) && c.batch != 0
    ensures GameKeeps(c, g, s, Game(c, g, s))
    ensures Game(c, g, s).failed.None? ==> Game(c, g, s).gameData.Keys == s.gameData.Keys + {g}
  {
    var starts := BatchStarts(|c.keys|, c.batch);
    var s2 := s.(requests := s.requests + [Probe(g)], futures := [], entries := []);
    BatchStartsIncrease(|c.keys|, c.batch);
    BatchesFrame(c, g, starts, s2, |starts|);
    var t0 := Batches(c, g, starts, s2, |starts|);
    GameKeepsOfBatches(c, g, s, starts, s2, t0, Game(c, g, s));
  }

  lemma GameKeepsOfBatches(c: Config, g: nat, s: State, starts: seq<nat>, s2: State, t0: State, t: State)
    requires g >= c.cpGame && !IsFree(c.probe(g))
    requires s2 == s.(requests := s.requests + [Probe(g)], futures := [], entries := [])
    requires BatchesKeep(c, g, starts, |starts|, s2, t0)
    requires t == if t0.failed.Some? then t0 else t0.(gameData := t0.gameData[g := Collapse(t0.entries)])
    ensures GameKeeps(c, g, s, t)
    ensures t.failed.None? ==> t.gameData.Keys == s.gameData.Keys + {g}
  {
    var extra := [Probe(g)] + Fetches(g, t0.futures);
    assert t.requests == s.requests + extra;
    GameKeepsIntro(c, g, s, t, extra, starts, |starts|);
  }

  // ---------------------------------------------------------------------
  // What the whole run does

  /** The order of checkpoint writes: by game, then by index. */
  predicate LexLe(a: Checkpoint, b: Checkpoint) {
    a.gameId < b.gameId || (a.gameId == b.gameId && a.index <= b.index)
  }

  predicate Ordered(cps: seq<Checkpoint>) {
    forall q, q' :: 0 <= q < q' < |cps| ==> LexLe(cps[q], cps[q'])
  }

  /** After the first `m` games: every request and checkpoint is about one
      of them at or above the checkpoint game, and `game_data` holds exactly
      those of them that are not free (all of them only when nothing was
      raised). */
  predicate GamesKeep(c: Config, ids: seq<nat>, m: nat, t: State)
    requires m <= |ids|
  {
    && (forall q :: 0 <= q < |t.requests| ==> t.requests[q].app in ids[..m] && t.requests[q].app >= c.cpGame)
    && (forall q :: 0 <= q < |t.checkpoints| ==> t.checkpoints[q].gameId in ids[..m] && t.checkpoints[q].gameId >= c.cpGame)
    && (forall h :: h in t.gameData ==> h in ids[..m] && h >= c.cpGame && !IsFree(c.probe(h)))
    && (t.failed.None? ==> forall k :: 0 <= k < m && ids[k] >= c.cpGame && !IsFree(c.probe(ids[k])) ==> ids[k] in t.gameData)
  }

  lemma {:induction false} GamesFrame(c: Config, ids: seq<nat>, m: nat)
    requires m <= |ids|
    ensures GamesKeep(c, ids, m, Games(c, ids, Initial, m))
  {
    if m > 0 {
      GamesFrame(c, ids, m - 1);
      var t' := Games(c, ids, Initial, m - 1);
      GameFrame(c, ids[m - 1], t');
      GamesKeepStep(c, ids, m, t', Game(c, ids[m - 1], t'));
    }
  }

  lemma GamesKeepStep(c: Config, ids: seq<nat>, m: nat, t': State, t: State)
    requires 0 < m <= |ids|
    requires GamesKeep(c, ids, m - 1, t')
    requires GameKeeps(c, ids[m - 1], t', t)
    requires t'.failed.Some? || ids[m - 1] < c.cpGame ==> t == t'
    requires t'.failed.None? && ids[m - 1] >= c.cpGame && t.failed.None? ==>
      t.gameData.Keys == t'.gameData.Keys + (if IsFree(c.probe(ids[m - 1])) then {} else {ids[m - 1]})
    requires t.failed.None? ==> t'.failed.None?
    ensures GamesKeep(c, ids, m, t)
  {
    var g := ids[m - 1];
    assert forall k :: 0 <= k < m - 1 ==> ids[..m - 1][k] == ids[..m][k];
    assert ids[..m][m - 1] == g;
    forall q | 0 <= q < |t.requests|
      ensures t.requests[q].app in ids[..m] && t.requests[q].app >= c.cpGame
    {
      if q < |t'.requests| {
        assert t.requests[q] == t'.requests[q];
      }
    }
    forall q | 0 <= q < |t.checkpoints|
      ensures t.checkpoints[q].gameId in ids[..m] && t.checkpoints[q].gameId >= c.cpGame
    {
      if q < |t'.checkpoints| {
        assert t.checkpoints[q] == t'.checkpoints[q];
      }
    }
    forall h | h in t.gameData
      ensures h in ids[..m] && h >= c.cpGame && !IsFree(c.probe(h))
    {
      if h != g {
        assert h in t'.gameData;
      }
    }
  }

  /** Over sorted distinct game ids, the checkpoint writes never go back:
      by game, then by batch start. */
  lemma {:induction false} GamesOrdered(c: Config, ids: seq<nat>, m: nat)
    requires m <= |ids| && Sorted(ids) && NoDuplicates(ids)
    ensures Ordered(Games(c, ids, Initial, m).checkpoints)
  {
    if m > 0 {
      GamesOrdered(c, ids, m - 1);
      GamesFrame(c, ids, m - 1);
      var t' := Games(c, ids, Initial, m - 1);
      var g := ids[m - 1];
      GameFrame(c, g, t');
      forall q | 0 <= q < |t'.checkpoints|
        ensures t'.checkpoints[q].gameId < g
      {
        var k :| 0 <= k < m - 1 && ids[..m - 1][k] == t'.checkpoints[q].gameId;
        assert ids[k] <= g && ids[k] != g;
      }
      OrderedStep(t'.checkpoints, Game(c, g, t').checkpoints, g);
    }
  }

  lemma OrderedStep(cps': seq<Checkpoint>, cps: seq<Checkpoint>, g: nat)
    requires Ordered(cps') && forall q :: 0 <= q < |cps'| ==> cps'[q].gameId < g
    requires |cps'| <= |cps| && cps[..|cps'|] == cps'
    requires forall q :: |cps'| <= q < |cps| ==> cps[q].gameId == g
    requires forall q, q' :: |cps'| <= q < q' < |cps| ==> cps[q].index <= cps[q'].index
    ensures Ordered(cps)
  {
    forall q, q' | 0 <= q < q' < |cps|
      ensures LexLe(cps[q], cps[q'])
    {
      if q' < |cps'| {
        assert cps[q] == cps'[q] && cps[q'] == cps'[q'];
      } else if q < |cps'| {
        assert cps[q] == cps'[q];
      }
    }
  }

  /** `retrieve_steam_data` as a whole: a url without a digit raises
      IndexError before any request; otherwise every request and every
      checkpoint is about a game of the urls at or above the checkpoint
      game, and a run that raises nothing returns an entry for exactly the
      games of the urls at or above the checkpoint game that are not free. */
  lemma RetrieveFrame(c: Config, urls: seq<string>)
    ensures GameIds(urls).Err? ==> Retrieve(c, urls) == Outcome(Err(IndexError), [], [])
    ensures GameIds(urls).Ok? ==>
      var out := Retrieve(c, urls);
      var ids := GameIds(urls).value;
      && (forall q :: 0 <= q < |out.requests| ==> out.requests[q].app in ids && out.requests[q].app >= c.cpGame)
      && (forall q :: 0 <= q < |out.checkpoints| ==> out.checkpoints[q].gameId in ids && out.checkpoints[q].gameId >= c.cpGame)
      && (out.result.Ok? ==> forall h :: h in out.result.value <==> h in ids && h >= c.cpGame && !IsFree(c.probe(h)))
  {
    if GameIds(urls).Ok? {
      var ids := GameIds(urls).value;
      var sorted := Sort(ids);
      GamesFrame(c, sorted, |sorted|);
      assert sorted[..|sorted|] == sorted;
      assert forall x :: x in sorted <==> x in ids by {
        forall x ensures x in sorted <==> x in ids {
          assert x in sorted <==> x in multiset(sorted);
          assert x in ids <==> x in multiset(ids);
        }
      }
      var t := Games(c, sorted, Initial, |sorted|);
      if t.failed.None? {
        forall h | h in ids && h >= c.cpGame && !IsFree(c.probe(h))
          ensures h in t.gameData
        {
          var k :| 0 <= k < |sorted| && sorted[k] == h;
        }
      }
    }
  }

  /** With distinct game ids the checkpoint writes are ordered by game,
      then by index.  (A repeated id is processed again from its first
      batch, so its checkpoints go back.) */
  lemma RetrieveOrdered(c: Config, urls: seq<string>)
    requires GameIds(urls).Ok? && NoDuplicates(GameIds(urls).value)
    ensures Ordered(Retrieve(c, urls).checkpoints)
  {
    var ids := GameIds(urls).value;
    SortNoDuplicates(ids);
    GamesOrdered(c, Sort(ids), |Sort(ids)|);
  }
}
