/**
 * The Coinbase spot fetcher (get_data_coinbase.py): the chunked walk over a
 * time range that keeps what it gathered up to the first failure, the latest
 * candle per product, the run that fetches history once and the latest candle
 * afterwards, and the upsert into the stored table.
 *
 * The clock (`datetime.utcnow()`), the HTTP endpoint and `asyncio.sleep` are
 * inputs: `nowSec` is the time read at the start of a run and `fetch` answers
 * each request. Times are whole epoch seconds.
 */
module CoinbaseData {
  import opened Wrappers
  import opened Table
  import opened Paging
  import Ordering
  import CandleStore

  /** The candle width, in seconds (`granularity`, 300 = five minutes by default). */
  type Granularity = g: nat | g > 0 witness 300

  const DefaultGranularity: Granularity := 300
  /** Candles per request: each sub-window is `granularity * 300` seconds long. */
  const CandlesPerRequest: nat := 300
  /** The history fetched on the first run: `timedelta(days=1)`. */
  const DaySeconds: int := 86_400

  /** One raw candle as the endpoint sends it: `[time, low, high, open, close, volume]`, time in epoch seconds. */
  type RawCandle = c: seq<real> | |c| == 6 witness seq(6, _ => 0.0)

  /** One stored candle; `time` is the `candle_date_time_utc` column in epoch seconds. */
  datatype Candle = Candle(
    market: string,
    time: int,
    low: real,
    high: real,
    open: real,
    close: real,
    volume: real)

  /** The mapping of one raw candle onto a row: the time truncated to whole seconds, then low/high/open/close/volume. */
  function DecodeCandle(pair: string, c: RawCandle): (r: Candle)
    ensures r.market == pair
    ensures r.time as real <= c[0] < (r.time + 1) as real
    ensures r.low == c[1] && r.high == c[2] && r.open == c[3] && r.close == c[4] && r.volume == c[5]
  {
    Candle(pair, c[0].Floor, c[1], c[2], c[3], c[4], c[5])
  }

  /** The decoder applied to every raw candle of `pair`. */
  function Decoder(pair: string): RawCandle -> Candle
  {
    (c: RawCandle) => DecodeCandle(pair, c)
  }

  /** A raw candle carrying a row's fields at the positions Coinbase uses. */
  function EncodeCandle(c: Candle): RawCandle
  {
    [c.time as real, c.low, c.high, c.open, c.close, c.volume]
  }

  /** Decoding inverts encoding. */
  lemma DecodeEncode(c: Candle)
    ensures DecodeCandle(c.market, EncodeCandle(c)) == c
  {
  }

  /** The two requests: a sub-window of history, or the latest candles (no range given). */
  datatype Request =
    | Range(product: string, start: int, end: int, granularity: Granularity)
    | Latest(product: string, granularity: Granularity)

  function RangeFor(pair: string, w: Window, granularity: Granularity): Request
  {
    Range(pair, w.lo, w.hi, granularity)
  }

  /**
   * The walk's outcome: the decoded candles of each sub-window in order,
   * up to the first failed request, which ends the walk (`break`).
   */
  function Gather(pair: string, ws: seq<Window>, granularity: Granularity, fetch: Request -> Response<RawCandle>): (r: seq<Candle>)
    ensures forall c :: c in r ==> c.market == pair
  {
    if ws == [] then []
    else
      match fetch(RangeFor(pair, ws[0], granularity))
      case Failed => []
      case Ok(rows) => Map(Decoder(pair), rows) + Gather(pair, ws[1..], granularity, fetch)
  }

  /** The decoded rows of the `i`-th sub-window. */
  function WindowCandles(pair: string, ws: seq<Window>, granularity: Granularity, fetch: Request -> Response<RawCandle>, i: nat): seq<Candle>
    requires i < |ws|
  {
    Map(Decoder(pair), RowsOf(fetch(RangeFor(pair, ws[i], granularity))))
  }

  function RowsOf<T>(r: Response<T>): seq<T>
  {
    match r
    case Ok(rows) => rows
    case Failed => []
  }

  /**
   * Partial results survive: when the first `j` requests succeed and the next
   * one fails (or there is none), the walk yields exactly the candles of those
   * `j` sub-windows, whatever the later sub-windows would have answered.
   */
  lemma {:induction false} GatherStopsAtFailure(pair: string, ws: seq<Window>, granularity: Granularity, fetch: Request -> Response<RawCandle>, j: nat)
    requires j <= |ws|
    requires forall i :: 0 <= i < j ==> fetch(RangeFor(pair, ws[i], granularity)).Ok?
    requires j < |ws| ==> fetch(RangeFor(pair, ws[j], granularity)).Failed?
    ensures Gather(pair, ws, granularity, fetch) ==
      Flatten(seq(j, i requires 0 <= i < j => WindowCandles(pair, ws, granularity, fetch, i)))
  {
    var all := seq(j, i requires 0 <= i < j => WindowCandles(pair, ws, granularity, fetch, i));
    if j == 0 {
      assert all == [];
    } else {
      var rest := ws[1..];
      assert forall i :: 0 <= i < |rest| ==> rest[i] == ws[i + 1];
      GatherStopsAtFailure(pair, rest, granularity, fetch, j - 1);
      var later := seq(j - 1, i requires 0 <= i < j - 1 => WindowCandles(pair, rest, granularity, fetch, i));
      assert all[1..] == later by {
        forall i | 0 <= i < j - 1 ensures all[1..][i] == later[i] {
          assert rest[i] == ws[i + 1];
        }
      }
      assert Gather(pair, ws, granularity, fetch) == all[0] + Gather(pair, rest, granularity, fetch);
    }
  }

  /** The length of one sub-window: `granularity * 300` seconds, never empty. */
  function ChunkSeconds(granularity: Granularity): (c: nat)
    ensures c >= CandlesPerRequest
  {
    granularity * CandlesPerRequest
  }

  /** `fetch_historical_data`: every candle of `pair` in `[startSec, endSec)` gathered until the first failure. */
  function HistoricalData(pair: string, startSec: int, endSec: int, granularity: Granularity, fetch: Request -> Response<RawCandle>): seq<Candle>
  {
    Gather(pair, Windows(startSec, endSec, ChunkSeconds(granularity)), granularity, fetch)
  }

  /** At the default granularity a request covers 90000 s, so the first run's single day costs one request per pair. */
  lemma HistoricalDaySingleRequest(pair: string, nowSec: int, fetch: Request -> Response<RawCandle>)
    ensures HistoricalData(pair, nowSec - DaySeconds, nowSec, DefaultGranularity, fetch) ==
      match fetch(Range(pair, nowSec - DaySeconds, nowSec, DefaultGranularity))
      case Failed => []
      case Ok(rows) => Map(Decoder(pair), rows)
  {
    var step := ChunkSeconds(DefaultGranularity);
    assert Windows(nowSec, nowSec, step) == [];
    var ws := Windows(nowSec - DaySeconds, nowSec, step);
    assert ws == [Window(nowSec - DaySeconds, nowSec)];
    assert Gather(pair, ws[1..], DefaultGranularity, fetch) == [];
    match fetch(RangeFor(pair, ws[0], DefaultGranularity)) {
      case Failed =>
      case Ok(rows) => assert Map(Decoder(pair), rows) + [] == Map(Decoder(pair), rows);
    }
  }

  /**
   * `fetch_current_data`: the first candle of the latest-candles response
   * (Coinbase lists the newest first), or `None` when the request fails or
   * the response is empty.
   */
  function CurrentCandle(pair: string, granularity: Granularity, fetch: Request -> Response<RawCandle>): (r: Option<Candle>)
    ensures r.Some? ==> r.value.market == pair
    ensures r.Some? <==> fetch(Latest(pair, granularity)).Ok? && fetch(Latest(pair, granularity)).rows != []
  {
    match fetch(Latest(pair, granularity))
    case Failed => None
    case Ok(rows) => if rows == [] then None else Some(DecodeCandle(pair, rows[0]))
  }

  /** The newest candle is the one returned: a response led by a candle's encoding yields that candle. */
  lemma CurrentCandleIsNewest(c: Candle, granularity: Granularity, fetch: Request -> Response<RawCandle>, older: seq<RawCandle>)
    requires fetch(Latest(c.market, granularity)) == Ok([EncodeCandle(c)] + older)
    ensures CurrentCandle(c.market, granularity, fetch) == Some(c)
  {
    DecodeEncode(c);
  }

  /** The first run's additions: each pair's history over `[startSec, endSec)`, pair after pair. */
  function AllHistorical(pairs: seq<string>, startSec: int, endSec: int, granularity: Granularity, fetch: Request -> Response<RawCandle>): (r: seq<Candle>)
    ensures forall c :: c in r ==> c.market in pairs
    decreases |pairs|
  {
    if pairs == [] then []
    else
      var init := pairs[..|pairs| - 1];
      AllHistorical(init, startSec, endSec, granularity, fetch) + HistoricalData(pairs[|pairs| - 1], startSec, endSec, granularity, fetch)
  }

  /** The later runs' additions: the latest candle of each pair that has one, in pair order. */
  function AllCurrent(pairs: seq<string>, granularity: Granularity, fetch: Request -> Response<RawCandle>): (r: seq<Candle>)
    ensures |r| <= |pairs|
    ensures forall c :: c in r ==> c.market in pairs
    decreases |pairs|
  {
    if pairs == [] then []
    else
      var init := pairs[..|pairs| - 1];
      match CurrentCandle(pairs[|pairs| - 1], granularity, fetch)
      case None => AllCurrent(init, granularity, fetch)
      case Some(c) => AllCurrent(init, granularity, fetch) + [c]
  }

  /** Exactly the latest candles of the listed pairs are added: a candle is added iff it is some pair's latest. */
  lemma {:induction false} AllCurrentExactly(pairs: seq<string>, granularity: Granularity, fetch: Request -> Response<RawCandle>, c: Candle)
    ensures c in AllCurrent(pairs, granularity, fetch) <==> c.market in pairs && CurrentCandle(c.market, granularity, fetch) == Some(c)
    decreases |pairs|
  {
    if pairs != [] {
      var init := pairs[..|pairs| - 1];
      var last := pairs[|pairs| - 1];
      AllCurrentExactly(init, granularity, fetch, c);
      assert pairs == init + [last];
      assert c.market in pairs <==> c.market in init || c.market == last;
    }
  }

  ghost predicate DistinctPairs(pairs: seq<string>)
  {
    forall i, j :: 0 <= i < j < |pairs| ==> pairs[i] != pairs[j]
  }

  ghost predicate OnePerMarket(r: seq<Candle>)
  {
    forall i, j :: 0 <= i < j < |r| ==> r[i].market != r[j].market
  }

  /** With no pair listed twice, a later run adds at most one candle per market. */
  lemma {:induction false} AllCurrentOnePerMarket(pairs: seq<string>, granularity: Granularity, fetch: Request -> Response<RawCandle>)
    requires DistinctPairs(pairs)
    ensures OnePerMarket(AllCurrent(pairs, granularity, fetch))
    decreases |pairs|
  {
    if pairs != [] {
      var init := pairs[..|pairs| - 1];
      var last := pairs[|pairs| - 1];
      assert DistinctPairs(init) by {
        forall i, j | 0 <= i < j < |init| ensures init[i] != init[j] {
          assert init[i] == pairs[i] && init[j] == pairs[j];
        }
      }
      AllCurrentOnePerMarket(init, granularity, fetch);
      var ri := AllCurrent(init, granularity, fetch);
      match CurrentCandle(last, granularity, fetch) {
        case None =>
          assert AllCurrent(pairs, granularity, fetch) == ri;
        case Some(c) =>
          var r := ri + [c];
          assert AllCurrent(pairs, granularity, fetch) == r;
          forall i, j | 0 <= i < j < |r| ensures r[i].market != r[j].market {
            assert r[i] == ri[i];
            if j == |r| - 1 {
              assert ri[i] in ri;
              var k :| 0 <= k < |init| && init[k] == ri[i].market;
              assert pairs[k] != pairs[|pairs| - 1];
            } else {
              assert r[j] == ri[j];
            }
          }
      }
    }
  }

  /** The stored table's dedup key: (market, candle_date_time_utc). */
  function Key(c: Candle): (string, int)
  {
    (c.market, c.time)
  }

  /** The stored table's order: by market, then time. */
  predicate RowLe(a: Candle, b: Candle)
  {
    Ordering.StrIntLe(a.market, a.time, b.market, b.time)
  }

  /** The order is total and transitive, and it ties two rows only when they share a key. */
  lemma RowLeTotal()
    ensures TotalPreorder(RowLe)
    ensures forall a, b :: RowLe(a, b) && RowLe(b, a) ==> Key(a) == Key(b)
  {
    forall a, b ensures RowLe(a, b) || RowLe(b, a) {
      Ordering.StrIntLeTotal(a.market, a.time, b.market, b.time);
    }
    forall a, b, c | RowLe(a, b) && RowLe(b, c) ensures RowLe(a, c) {
      Ordering.StrIntLeTransitive(a.market, a.time, b.market, b.time, c.market, c.time);
    }
    forall a, b | RowLe(a, b) && RowLe(b, a) ensures Key(a) == Key(b) {
      Ordering.StrIntLeAntisymmetric(a.market, a.time, b.market, b.time);
    }
  }

  /** The concatenate, drop-duplicates-keeping-last, sort step of `save_to_csv`. */
  function Merge(stored: seq<Candle>, collected: seq<Candle>): seq<Candle>
  {
    RowLeTotal();
    CandleStore.Upsert(stored, collected, Key, RowLe)
  }

  /**
   * The merged table is sorted by (market, time), holds one row per key,
   * namely the one added last, and merging the same candles again
   * reproduces it exactly.
   */
  lemma MergeProperties(stored: seq<Candle>, collected: seq<Candle>)
    ensures Sorted(Merge(stored, collected), RowLe)
    ensures UniqueKeys(Merge(stored, collected), Key)
    ensures forall x :: x in Merge(stored, collected) <==> LastOf(stored + collected, Key(x), Key) == Some(x)
    ensures Merge(Merge(stored, collected), collected) == Merge(stored, collected)
  {
    RowLeTotal();
    CandleStore.UpsertIdempotentExact(stored, collected, Key, RowLe);
  }

  /**
   * The file `save_to_csv` leaves as written: after writing the merged table
   * (or the new rows when there was no file) it appends the collected rows a
   * second time.
   */
  function SaveAsWritten(file: Option<seq<Candle>>, collected: seq<Candle>): Option<seq<Candle>>
  {
    if collected == [] then file
    else
      match file
      case None => Some(collected + collected)
      case Some(stored) => Some(Merge(stored, collected) + collected)
  }

  /** As written, every save with data leaves a file where some (market, time) appears twice. */
  lemma SaveAsWrittenDuplicates(file: Option<seq<Candle>>, collected: seq<Candle>)
    requires collected != []
    ensures SaveAsWritten(file, collected).Some?
    ensures !UniqueKeys(SaveAsWritten(file, collected).value, Key)
  {
    var y := collected[|collected| - 1];
    var out := SaveAsWritten(file, collected).value;
    var n := |out| - |collected|;
    assert out[|out| - 1] == y;
    match file {
      case None =>
        assert out[n - 1] == y;
        assert Key(out[n - 1]) == Key(out[|out| - 1]);
      case Some(stored) =>
        var merged := Merge(stored, collected);
        LastOfAppend(stored, collected, Key(y), Key);
        var x := LastOf(stored + collected, Key(y), Key).value;
        MergeProperties(stored, collected);
        assert x in merged;
        var i :| 0 <= i < |merged| && merged[i] == x;
        assert out[i] == x;
        assert Key(out[i]) == Key(out[|out| - 1]);
    }
  }

  class CoinbaseFetcher {
    /** The products to request, e.g. `BTC-USD`. */
    const pairs: seq<string>
    const granularity: Granularity
    /** Every candle collected so far (never cleared). */
    var allCandlesData: seq<Candle>
    var isFirstRun: bool

    constructor (pairs: seq<string>, granularity: Granularity)
      ensures this.pairs == pairs && this.granularity == granularity
      ensures allCandlesData == [] && isFirstRun
    {
      this.pairs := pairs;
      this.granularity := granularity;
      allCandlesData := [];
      isFirstRun := true;
    }

    /** The inner loop of `fetch_historical_data`: append each raw candle of one response, decoded. */
    static method AppendDecoded(pair: string, acc: seq<Candle>, rows: seq<RawCandle>) returns (r: seq<Candle>)
      ensures r == acc + Map(Decoder(pair), rows)
    {
      r := acc;
      for k := 0 to |rows|
        invariant r == acc + Map(Decoder(pair), rows[..k])
      {
        assert rows[..k + 1] == rows[..k] + [rows[k]];
        MapAppend(Decoder(pair), rows[..k], [rows[k]]);
        r := r + [DecodeCandle(pair, rows[k])];
      }
      assert rows[..|rows|] == rows;
    }

    /**
     * `fetch_historical_data`: walk `[startSec, endSec)` in sub-windows of
     * `granularity * 300` seconds, one request each, stopping at the first failure.
     */
    method FetchHistoricalData(pair: string, startSec: int, endSec: int, fetch: Request -> Response<RawCandle>)
      returns (candles: seq<Candle>)
      ensures candles == HistoricalData(pair, startSec, endSec, granularity, fetch)
    {
      var chunk := ChunkSeconds(granularity);
      candles := [];
      var current := startSec;
      assert candles + HistoricalData(pair, startSec, endSec, granularity, fetch) == HistoricalData(pair, startSec, endSec, granularity, fetch);
      while current < endSec
        invariant HistoricalData(pair, startSec, endSec, granularity, fetch) == candles + HistoricalData(pair, current, endSec, granularity, fetch)
        decreases endSec - current
      {
        var next := Min(current + chunk, endSec);
        GatherStep(pair, current, endSec, granularity, fetch, candles);
        match fetch(Range(pair, current, next, granularity)) {
          case Failed =>
            return;
          case Ok(rows) =>
            candles := AppendDecoded(pair, candles, rows);
        }
        current := next;
      }
      assert HistoricalData(pair, current, endSec, granularity, fetch) == [];
      assert candles + [] == candles;
    }

    /**
     * `fetch_all_pairs`: on the first run each pair's last day of history,
     * otherwise each pair's latest candle where there is one, added to
     * `allCandlesData` in pair order.
     */
    method FetchAllPairs(nowSec: int, fetch: Request -> Response<RawCandle>)
      modifies this`allCandlesData
      ensures isFirstRun ==> allCandlesData == old(allCandlesData) + AllHistorical(pairs, nowSec - DaySeconds, nowSec, granularity, fetch)
      ensures !isFirstRun ==> allCandlesData == old(allCandlesData) + AllCurrent(pairs, granularity, fetch)
    {
      if isFirstRun {
        var endSec := nowSec;
        var startSec := endSec - DaySeconds;
        assert pairs[..0] == [];
        assert allCandlesData + [] == allCandlesData;
        for i := 0 to |pairs|
          invariant allCandlesData == old(allCandlesData) + AllHistorical(pairs[..i], startSec, endSec, granularity, fetch)
        {
          var result := FetchHistoricalData(pairs[i], startSec, endSec, fetch);
          AllHistoricalStep(old(allCandlesData), pairs, i, startSec, endSec, granularity, fetch);
          allCandlesData := allCandlesData + result;
        }
        assert pairs[..|pairs|] == pairs;
      } else {
        assert pairs[..0] == [];
        assert allCandlesData + [] == allCandlesData;
        for i := 0 to |pairs|
          invariant allCandlesData == old(allCandlesData) + AllCurrent(pairs[..i], granularity, fetch)
        {
          var result := CurrentCandle(pairs[i], granularity, fetch);
          AllCurrentStep(old(allCandlesData), pairs, i, granularity, fetch);
          if result.Some? {
            allCandlesData := allCandlesData + [result.value];
          }
        }
        assert pairs[..|pairs|] == pairs;
      }
    }

    /** `save_to_csv` given the stored table (`None` when there is no file): the new file contents. */
    method SaveToCsv(file: Option<seq<Candle>>) returns (written: Option<seq<Candle>>)
      ensures allCandlesData == [] ==> written == file
      ensures allCandlesData != [] && file.None? ==> written == Some(allCandlesData)
      ensures allCandlesData != [] && file.Some? ==> written == Some(Merge(file.value, allCandlesData))
    {
      if allCandlesData == [] {
        written := file;
      } else if file.None? {
        written := Some(allCandlesData);
      } else {
        written := Some(Merge(file.value, allCandlesData));
      }
    }

    /** `run`: fetch, save, and mark the first run done. */
    method Run(nowSec: int, fetch: Request -> Response<RawCandle>, file: Option<seq<Candle>>) returns (written: Option<seq<Candle>>)
      modifies this
      ensures old(isFirstRun) ==> allCandlesData == old(allCandlesData) + AllHistorical(pairs, nowSec - DaySeconds, nowSec, granularity, fetch)
      ensures !old(isFirstRun) ==> allCandlesData == old(allCandlesData) + AllCurrent(pairs, granularity, fetch)
      ensures allCandlesData == [] ==> written == file
      ensures allCandlesData != [] && file.None? ==> written == Some(allCandlesData)
      ensures allCandlesData != [] && file.Some? ==> written == Some(Merge(file.value, allCandlesData))
      ensures !isFirstRun
    {
      FetchAllPairs(nowSec, fetch);
      written := SaveToCsv(file);
      isFirstRun := false;
    }
  }

  /** One more sub-window of the walk: its rows are appended, or a failure leaves what was gathered. */
  lemma GatherStep(pair: string, lo: int, hi: int, granularity: Granularity, fetch: Request -> Response<RawCandle>, acc: seq<Candle>)
    requires lo < hi
    ensures var next := Min(lo + ChunkSeconds(granularity), hi);
      match fetch(Range(pair, lo, next, granularity))
      case Failed => acc + HistoricalData(pair, lo, hi, granularity, fetch) == acc
      case Ok(rows) => acc + HistoricalData(pair, lo, hi, granularity, fetch) == acc + Map(Decoder(pair), rows) + HistoricalData(pair, next, hi, granularity, fetch)
  {
    var next := Min(lo + ChunkSeconds(granularity), hi);
    var ws := Windows(lo, hi, ChunkSeconds(granularity));
    assert ws[0] == Window(lo, next) && ws[1..] == Windows(next, hi, ChunkSeconds(granularity));
    match fetch(Range(pair, lo, next, granularity)) {
      case Failed => assert acc + [] == acc;
      case Ok(rows) =>
    }
  }

  /** One more pair of the first run: its history is appended to what was collected. */
  lemma AllHistoricalStep(stored: seq<Candle>, pairs: seq<string>, i: nat, startSec: int, endSec: int, granularity: Granularity, fetch: Request -> Response<RawCandle>)
    requires i < |pairs|
    ensures stored + AllHistorical(pairs[..i], startSec, endSec, granularity, fetch) + HistoricalData(pairs[i], startSec, endSec, granularity, fetch)
      == stored + AllHistorical(pairs[..i + 1], startSec, endSec, granularity, fetch)
  {
    assert pairs[..i + 1][..i] == pairs[..i];
  }

  /** One more pair of a later run: its latest candle, if any, is appended to what was collected. */
  lemma AllCurrentStep(stored: seq<Candle>, pairs: seq<string>, i: nat, granularity: Granularity, fetch: Request -> Response<RawCandle>)
    requires i < |pairs|
    ensures stored + AllCurrent(pairs[..i + 1], granularity, fetch) ==
      match CurrentCandle(pairs[i], granularity, fetch)
      case None => stored + AllCurrent(pairs[..i], granularity, fetch)
      case Some(c) => stored + AllCurrent(pairs[..i], granularity, fetch) + [c]
  {
    assert pairs[..i + 1][..i] == pairs[..i];
  }
}
