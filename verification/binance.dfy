/**
 * The Binance perpetual-futures fetcher (get_data_binance.py): a sliding-window
 * rate limiter, the day-by-day walk over a time range, the kline decoding, the
 * batched walk over all pairs and the upsert into the stored table.
 *
 * The clock (`time.time()`), the HTTP endpoint and `asyncio.sleep` are inputs
 * and outputs: `now` and `clock` give the time read before each request,
 * `fetch` answers each request, and a wait is returned instead of slept.
 */
module BinanceData {
  import opened Wrappers
  import opened Table
  import opened Paging
  import Text
  import Ordering
  import CandleStore

  const DayMs: int := 86_400_000
  const FiveMinutesMs: int := 300_000
  /** `request_window`, in seconds. */
  const RequestWindow: real := 1.0
  const MaxRequestsPerSecond: nat := 1000
  const BatchSize: nat := 5
  const Interval: string := "5m"
  const Limit: nat := 1000
  const Perpetual: string := "perpetual"

  /** One raw kline array as the endpoint sends it: twelve numbers, the first the open time in epoch milliseconds. */
  type Kline = k: seq<real> | |k| == 12 witness seq(12, _ => 0.0)

  /** One stored candle; `time` is in epoch seconds (the `%Y-%m-%d %H:%M:%S` column). */
  datatype Candle = Candle(
    market: string,
    time: int,
    open: real,
    high: real,
    low: real,
    close: real,
    volume: real,
    quoteVolume: real,
    marketType: string)

  /** The mapping of one kline onto a candle: 0 is the open time in ms, 1..5 open/high/low/close/volume, 7 the quote volume. */
  function DecodeKline(pair: string, k: Kline): (c: Candle)
    ensures c.market == pair && c.marketType == Perpetual
    ensures c.time as real * 1000.0 <= k[0] < (c.time + 1) as real * 1000.0
    ensures c.open == k[1] && c.high == k[2] && c.low == k[3] && c.close == k[4]
    ensures c.volume == k[5] && c.quoteVolume == k[7]
  {
    Candle(pair, (k[0] / 1000.0).Floor, k[1], k[2], k[3], k[4], k[5], k[7], Perpetual)
  }

  /** The decoder applied to every kline of `pair`. */
  function Decoder(pair: string): Kline -> Candle
  {
    (k: Kline) => DecodeKline(pair, k)
  }

  /** A kline that carries a candle's fields at the positions Binance uses (fields the model never reads are 0). */
  function EncodeKline(c: Candle): Kline
  {
    [c.time as real * 1000.0, c.open, c.high, c.low, c.close, c.volume, 0.0, c.quoteVolume, 0.0, 0.0, 0.0, 0.0]
  }

  /** Decoding inverts encoding for every perpetual candle. */
  lemma DecodeEncode(c: Candle)
    requires c.marketType == Perpetual
    ensures DecodeKline(c.market, EncodeKline(c)) == c
  {
    var k := EncodeKline(c);
    assert k[0] / 1000.0 == c.time as real;
  }

  /** `pair.replace("/", "").replace("-", "")`. */
  function RequestSymbol(pair: string): (s: string)
    ensures '/' !in s && '-' !in s
    ensures forall d :: d != '/' && d != '-' ==> (d in s <==> d in pair)
  {
    Text.RemoveChar(Text.RemoveChar(pair, '/'), '-')
  }

  /** `BTC/USDT` is requested as `BTCUSDT`. */
  lemma RequestSymbolOfPair(base: string, quote: string)
    requires '/' !in base && '-' !in base && '/' !in quote && '-' !in quote
    ensures RequestSymbol(base + "/" + quote) == base + quote
  {
    var noSlash := Text.RemoveChar(base + "/" + quote, '/');
    calc {
      noSlash;
    == { Text.RemoveCharAppend(base + "/", quote, '/'); }
      Text.RemoveChar(base + "/", '/') + Text.RemoveChar(quote, '/');
    == { Text.RemoveCharAppend(base, "/", '/'); }
      Text.RemoveChar(base, '/') + Text.RemoveChar("/", '/') + Text.RemoveChar(quote, '/');
    == { Text.RemoveCharAbsent(base, '/'); Text.RemoveCharAbsent(quote, '/'); assert Text.RemoveChar("/", '/') == []; }
      base + [] + quote;
    == { assert base + [] == base; }
      base + quote;
    }
    calc {
      Text.RemoveChar(base + quote, '-');
    == { Text.RemoveCharAppend(base, quote, '-'); }
      Text.RemoveChar(base, '-') + Text.RemoveChar(quote, '-');
    == { Text.RemoveCharAbsent(base, '-'); Text.RemoveCharAbsent(quote, '-'); }
      base + quote;
    }
  }

  datatype Request = Request(symbol: string, interval: string, startTime: int, endTime: int, limit: nat)

  /** The query parameters for one sub-window. */
  function RequestFor(symbol: string, w: Window): Request
  {
    Request(symbol, Interval, w.lo, w.hi, Limit)
  }

  function Prepend<T>(rows: seq<T>, rest: Option<seq<T>>): Option<seq<T>>
  {
    match rest
    case None => None
    case Some(r) => Some(rows + r)
  }

  lemma PrependPrepend<T>(a: seq<T>, b: seq<T>, rest: Option<seq<T>>)
    ensures Prepend(a, Prepend(b, rest)) == Prepend(a + b, rest)
  {
    if rest.Some? {
      assert a + (b + rest.value) == (a + b) + rest.value;
    }
  }

  lemma PrependEmpty<T>(rest: Option<seq<T>>)
    ensures Prepend([], rest) == rest
  {
    if rest.Some? {
      assert [] + rest.value == rest.value;
    }
  }

  /** The walk's outcome: the first failed request aborts it, otherwise the responses in window order. */
  function Collect(symbol: string, ws: seq<Window>, fetch: Request -> Response<Kline>): Option<seq<Kline>>
  {
    if ws == [] then Some([])
    else
      match fetch(RequestFor(symbol, ws[0]))
      case Failed => None
      case Ok(rows) => Prepend(rows, Collect(symbol, ws[1..], fetch))
  }

  function RowsOf<T>(r: Response<T>): seq<T>
  {
    match r
    case Ok(rows) => rows
    case Failed => []
  }

  /** All or nothing: the walk succeeds exactly when every window's request does, and then yields their rows concatenated in order. */
  lemma {:induction false} CollectAllOrNothing(symbol: string, ws: seq<Window>, fetch: Request -> Response<Kline>)
    ensures Collect(symbol, ws, fetch).Some? <==> forall i :: 0 <= i < |ws| ==> fetch(RequestFor(symbol, ws[i])).Ok?
    ensures Collect(symbol, ws, fetch).Some? ==>
      Collect(symbol, ws, fetch).value == Flatten(seq(|ws|, i requires 0 <= i < |ws| => RowsOf(fetch(RequestFor(symbol, ws[i])))))
  {
    if ws != [] {
      CollectAllOrNothing(symbol, ws[1..], fetch);
      var all := seq(|ws|, i requires 0 <= i < |ws| => RowsOf(fetch(RequestFor(symbol, ws[i]))));
      assert all[1..] == seq(|ws[1..]|, i requires 0 <= i < |ws[1..]| => RowsOf(fetch(RequestFor(symbol, ws[1..][i]))));
      if fetch(RequestFor(symbol, ws[0])).Ok? {
        assert forall i :: 1 <= i < |ws| ==> ws[i] == ws[1..][i - 1];
      }
    }
  }

  /** `fetch_historical_candles`: `None` when any request fails or when nothing came back, else every kline in window order. */
  function HistoricalCandles(pair: string, startMs: int, endMs: int, fetch: Request -> Response<Kline>): Option<seq<Kline>>
  {
    match Collect(RequestSymbol(pair), Windows(startMs, endMs, DayMs), fetch)
    case None => None
    case Some(all) => if all == [] then None else Some(all)
  }

  /** A failure anywhere discards the klines of the windows already fetched. */
  lemma FailureDiscardsPair(pair: string, startMs: int, endMs: int, fetch: Request -> Response<Kline>, i: nat)
    requires i < |Windows(startMs, endMs, DayMs)|
    requires fetch(RequestFor(RequestSymbol(pair), Windows(startMs, endMs, DayMs)[i])).Failed?
    ensures HistoricalCandles(pair, startMs, endMs, fetch) == None
  {
    CollectAllOrNothing(RequestSymbol(pair), Windows(startMs, endMs, DayMs), fetch);
  }

  /** The timestamps still inside the window at `now` (at most one window old), in their original order. */
  function Recent(ts: seq<real>, now: real): seq<real>
    decreases |ts|
  {
    if ts == [] then []
    else
      var t := ts[|ts| - 1];
      Recent(ts[..|ts| - 1], now) + (if now - t <= RequestWindow then [t] else [])
  }

  /** Pruning keeps exactly the timestamps at most one window old, and never adds any. */
  lemma {:induction false} RecentKeeps(ts: seq<real>, now: real)
    ensures forall t :: t in Recent(ts, now) <==> t in ts && now - t <= RequestWindow
    ensures |Recent(ts, now)| <= |ts|
    decreases |ts|
  {
    if ts != [] {
      var init := ts[..|ts| - 1];
      RecentKeeps(init, now);
      assert ts == init + [ts[|ts| - 1]];
    }
  }

  /** How long `check_rate_limit` sleeps, given the pruned timestamps. */
  function RateLimitWait(recent: seq<real>, now: real): (w: real)
    ensures |recent| < MaxRequestsPerSecond ==> w == 0.0
    ensures w > 0.0 ==> |recent| >= MaxRequestsPerSecond && now + w == recent[0] + RequestWindow
    ensures w >= 0.0
  {
    if |recent| >= MaxRequestsPerSecond then
      var w := recent[0] + RequestWindow - now;
      if w > 0.0 then w else 0.0
    else 0.0
  }

  /** When every recorded request happened no later than `now`, the wait never exceeds the window. */
  lemma WaitAtMostWindow(ts: seq<real>, now: real)
    requires forall t :: t in ts ==> t <= now
    ensures RateLimitWait(Recent(ts, now), now) <= RequestWindow
  {
    var recent := Recent(ts, now);
    RecentKeeps(ts, now);
    if |recent| >= MaxRequestsPerSecond {
      assert recent[0] in recent;
    }
  }

  /** The requests the walk sends: one per window, up to and including the first that fails. */
  function Sent(symbol: string, ws: seq<Window>, fetch: Request -> Response<Kline>): (r: seq<Request>)
    ensures |r| <= |ws|
  {
    if ws == [] then []
    else
      var request := RequestFor(symbol, ws[0]);
      if fetch(request).Failed? then [request] else [request] + Sent(symbol, ws[1..], fetch)
  }

  /**
   * The i-th request is for the i-th window; every request but the last succeeded;
   * the walk stops short of the last window only after a failure; and when every
   * window succeeds, every window is requested.
   */
  lemma {:induction false} SentSpec(symbol: string, ws: seq<Window>, fetch: Request -> Response<Kline>)
    ensures var r := Sent(symbol, ws, fetch);
      && (forall i :: 0 <= i < |r| ==> r[i] == RequestFor(symbol, ws[i]))
      && (forall i :: 0 <= i < |r| - 1 ==> fetch(r[i]).Ok?)
      && (|r| < |ws| ==> r != [] && fetch(r[|r| - 1]).Failed?)
      && ((forall i :: 0 <= i < |ws| ==> fetch(RequestFor(symbol, ws[i])).Ok?) ==> |r| == |ws|)
  {
    if ws != [] && fetch(RequestFor(symbol, ws[0])).Ok? {
      var tail := Sent(symbol, ws[1..], fetch);
      SentSpec(symbol, ws[1..], fetch);
      assert Sent(symbol, ws, fetch) == [RequestFor(symbol, ws[0])] + tail;
      assert forall i :: 0 <= i < |ws| - 1 ==> ws[1..][i] == ws[i + 1];
    }
  }

  /** The number of requests `fetch_historical_candles` sends for `pair` over `[startMs, endMs)`. */
  function PairRequests(pair: string, startMs: int, endMs: int, fetch: Request -> Response<Kline>): nat
  {
    |Sent(RequestSymbol(pair), Windows(startMs, endMs, DayMs), fetch)|
  }

  /** The request log after one `check_rate_limit` at `now`: pruned, then `now` appended. */
  function Logged(ts: seq<real>, now: real): seq<real>
  {
    Recent(ts, now) + [now]
  }

  /** The request log after the first `k` requests for `pair`, the j-th logged at `clock(pair, j)`. */
  function Throttled(ts: seq<real>, clock: (string, nat) -> real, pair: string, k: nat): seq<real>
    decreases k
  {
    if k == 0 then ts else Logged(Throttled(ts, clock, pair, k - 1), clock(pair, k - 1))
  }

  /** The waits `check_rate_limit` computes before each of the first `k` requests for `pair`. */
  function Waits(ts: seq<real>, clock: (string, nat) -> real, pair: string, k: nat): (r: seq<real>)
    ensures |r| == k
    decreases k
  {
    if k == 0 then []
    else
      var now := clock(pair, k - 1);
      Waits(ts, clock, pair, k - 1) + [RateLimitWait(Recent(Throttled(ts, clock, pair, k - 1), now), now)]
  }

  /** The wait before request `j` is the limiter's verdict on the log as it stood then. */
  lemma {:induction false} WaitsAt(ts: seq<real>, clock: (string, nat) -> real, pair: string, k: nat, j: nat)
    requires j < k
    ensures Waits(ts, clock, pair, k)[j] == RateLimitWait(Recent(Throttled(ts, clock, pair, j), clock(pair, j)), clock(pair, j))
    decreases k
  {
    var prev := Waits(ts, clock, pair, k - 1);
    var now := clock(pair, k - 1);
    assert Waits(ts, clock, pair, k) == prev + [RateLimitWait(Recent(Throttled(ts, clock, pair, k - 1), now), now)];
    if j < k - 1 {
      WaitsAt(ts, clock, pair, k - 1, j);
    }
  }

  /** After a request the log ends with its time and keeps only times at most one window older. */
  lemma ThrottledRecent(ts: seq<real>, clock: (string, nat) -> real, pair: string, k: nat)
    requires k > 0
    ensures var log := Throttled(ts, clock, pair, k);
      && log != [] && log[|log| - 1] == clock(pair, k - 1)
      && forall t :: t in log ==> t == clock(pair, k - 1) || clock(pair, k - 1) - t <= RequestWindow
  {
    var now := clock(pair, k - 1);
    var recent := Recent(Throttled(ts, clock, pair, k - 1), now);
    RecentKeeps(Throttled(ts, clock, pair, k - 1), now);
    assert Throttled(ts, clock, pair, k) == recent + [now];
    forall t | t in recent + [now] ensures t == now || now - t <= RequestWindow {
      if t != now {
        assert t in recent;
      }
    }
  }

  /** The request log after `fetch_pair_data` has run for each of `pairs` in turn. */
  function ThrottledPairs(ts: seq<real>, pairs: seq<string>, nowMs: int, fetch: Request -> Response<Kline>, clock: (string, nat) -> real): seq<real>
    decreases |pairs|
  {
    if pairs == [] then ts
    else
      var p := pairs[|pairs| - 1];
      Throttled(ThrottledPairs(ts, pairs[..|pairs| - 1], nowMs, fetch, clock), clock, p, PairRequests(p, nowMs - DayMs, nowMs, fetch))
  }

  lemma ThrottledPairsStep(ts: seq<real>, pairs: seq<string>, j: nat, nowMs: int, fetch: Request -> Response<Kline>, clock: (string, nat) -> real)
    requires j < |pairs|
    ensures ThrottledPairs(ts, pairs[..j + 1], nowMs, fetch, clock)
      == Throttled(ThrottledPairs(ts, pairs[..j], nowMs, fetch, clock), clock, pairs[j], PairRequests(pairs[j], nowMs - DayMs, nowMs, fetch))
  {
    assert pairs[..j + 1][..j] == pairs[..j];
  }

  /** Running the pairs `a` and then the pairs `b` logs what running `a + b` logs. */
  lemma {:induction false} ThrottledPairsAppend(ts: seq<real>, a: seq<string>, b: seq<string>, nowMs: int, fetch: Request -> Response<Kline>, clock: (string, nat) -> real)
    ensures ThrottledPairs(ThrottledPairs(ts, a, nowMs, fetch, clock), b, nowMs, fetch, clock) == ThrottledPairs(ts, a + b, nowMs, fetch, clock)
    decreases |b|
  {
    if b == [] {
      assert a + b == a;
    } else {
      var init := b[..|b| - 1];
      InitOfAppend(a, b);
      ThrottledPairsAppend(ts, a, init, nowMs, fetch, clock);
    }
  }

  /** Running the pairs before `i` and then the batch `[i, end)` logs what running the pairs before `end` logs. */
  lemma ThrottledPairsBatch(ts: seq<real>, pairs: seq<string>, i: nat, end: nat, nowMs: int, fetch: Request -> Response<Kline>, clock: (string, nat) -> real)
    requires i <= end <= |pairs|
    ensures ThrottledPairs(ThrottledPairs(ts, pairs[..i], nowMs, fetch, clock), pairs[i..end], nowMs, fetch, clock)
      == ThrottledPairs(ts, pairs[..end], nowMs, fetch, clock)
  {
    TakeSplit(pairs, i, end);
    ThrottledPairsAppend(ts, pairs[..i], pairs[i..end], nowMs, fetch, clock);
  }

  /** The result of one pair's `fetch_pair_data` over the last day. */
  function PairData(pair: string, nowMs: int, fetch: Request -> Response<Kline>): Option<seq<Candle>>
  {
    match HistoricalCandles(pair, nowMs - DayMs, nowMs, fetch)
    case None => None
    case Some(ks) => Some(Map(Decoder(pair), ks))
  }

  /** One day is one window, so a pair costs one request: its candles are that response decoded, or `None` on failure or no data. */
  lemma PairDataSingleRequest(pair: string, nowMs: int, fetch: Request -> Response<Kline>)
    ensures PairData(pair, nowMs, fetch) ==
      match fetch(Request(RequestSymbol(pair), Interval, nowMs - DayMs, nowMs, Limit))
      case Failed => None
      case Ok(rows) => if rows == [] then None else Some(Map(Decoder(pair), rows))
  {
    assert Windows(nowMs, nowMs, DayMs) == [];
    assert Windows(nowMs - DayMs, nowMs, DayMs) == [Window(nowMs - DayMs, nowMs)];
    var ws := Windows(nowMs - DayMs, nowMs, DayMs);
    var symbol := RequestSymbol(pair);
    assert Collect(symbol, ws[1..], fetch) == Some([]);
    match fetch(RequestFor(symbol, ws[0])) {
      case Failed =>
      case Ok(rows) => assert rows + [] == rows;
    }
  }

  /** `outs[k]` is `fetch_pair_data`'s result for `pairs[k]`, for one clock reading and one endpoint. */
  ghost predicate IsPairData(outs: seq<Option<seq<Candle>>>, pairs: seq<string>, nowMs: int, fetch: Request -> Response<Kline>)
  {
    && |outs| == |pairs|
    && forall k {:trigger PairData(pairs[k], nowMs, fetch)} :: 0 <= k < |pairs| ==> outs[k] == PairData(pairs[k], nowMs, fetch)
  }

  /** The per-pair results of `fetch_pair_data`, in list order. */
  function PairResults(pairs: seq<string>, nowMs: int, fetch: Request -> Response<Kline>): (outs: seq<Option<seq<Candle>>>)
    ensures IsPairData(outs, pairs, nowMs, fetch)
  {
    if pairs == [] then []
    else
      var rest := PairResults(pairs[1..], nowMs, fetch);
      assert forall k :: 1 <= k < |pairs| ==> pairs[k] == pairs[1..][k - 1];
      [PairData(pairs[0], nowMs, fetch)] + rest
  }

  lemma IsPairDataSlice(outs: seq<Option<seq<Candle>>>, pairs: seq<string>, nowMs: int, fetch: Request -> Response<Kline>, i: nat, end: nat)
    requires IsPairData(outs, pairs, nowMs, fetch) && i <= end <= |pairs|
    ensures IsPairData(outs[i..end], pairs[i..end], nowMs, fetch)
  {
    forall k | 0 <= k < end - i
      ensures outs[i..end][k] == PairData(pairs[i..end][k], nowMs, fetch)
    {
      assert pairs[i..end][k] == pairs[i + k];
      assert outs[i..end][k] == outs[i + k];
      assert outs[i + k] == PairData(pairs[i + k], nowMs, fetch);
    }
  }

  /** The non-`None` results, in order. */
  function Successes(outs: seq<Option<seq<Candle>>>): (r: seq<seq<Candle>>)
    ensures |r| <= |outs|
  {
    if outs == [] then []
    else
      (match outs[0] case None => [] case Some(c) => [c]) + Successes(outs[1..])
  }

  lemma {:induction false} SuccessesAppend(a: seq<Option<seq<Candle>>>, b: seq<Option<seq<Candle>>>)
    ensures Successes(a + b) == Successes(a) + Successes(b)
  {
    if a == [] {
      assert a + b == b;
    } else {
      assert (a + b)[1..] == a[1..] + b;
      assert (a + b)[0] == a[0];
      SuccessesAppend(a[1..], b);
    }
  }

  /** One more pair's result: it is kept when present, and the collected candles grow by its candles. */
  lemma CollectStep(stored: seq<Candle>, outs: seq<Option<seq<Candle>>>, r: Option<seq<Candle>>)
    ensures Successes(outs + [r]) == if r.Some? then Successes(outs) + [r.value] else Successes(outs)
    ensures stored + Flatten(Successes(outs)) + GetOr(r, []) == stored + Flatten(Successes(outs + [r]))
  {
    SuccessesAppend(outs, [r]);
    assert Successes([r]) == (if r.Some? then [r.value] else []) + Successes([]);
    if r.Some? {
      FlattenAppend(Successes(outs), [r.value]);
    } else {
      assert Successes(outs) + [] == Successes(outs);
    }
  }

  /** When every pair yields candles there is one result per pair. */
  lemma {:induction false} SuccessesAllSome(outs: seq<Option<seq<Candle>>>)
    requires forall k :: 0 <= k < |outs| ==> outs[k].Some?
    ensures |Successes(outs)| == |outs|
  {
    if outs != [] {
      SuccessesAllSome(outs[1..]);
    }
  }

  /** `pairs[i:i + batch_size]` for `i in range(0, len(pairs), batch_size)`. */
  function Batches<X>(s: seq<X>): seq<seq<X>>
    decreases |s|
  {
    if s == [] then []
    else if |s| <= BatchSize then [s]
    else [s[..BatchSize]] + Batches(s[BatchSize..])
  }

  /** The batches partition the list in order: each is non-empty, none exceeds the batch size, all but the last are full. */
  lemma {:induction false} BatchesPartition<X>(s: seq<X>)
    ensures Flatten(Batches(s)) == s
    ensures forall i :: 0 <= i < |Batches(s)| ==> 0 < |Batches(s)[i]| <= BatchSize
    ensures forall i :: 0 <= i < |Batches(s)| - 1 ==> |Batches(s)[i]| == BatchSize
    decreases |s|
  {
    if |s| > BatchSize {
      BatchesPartition(s[BatchSize..]);
      var bs := Batches(s);
      assert bs[1..] == Batches(s[BatchSize..]);
      assert forall i :: 1 <= i < |bs| ==> bs[i] == bs[1..][i - 1];
      assert s == s[..BatchSize] + s[BatchSize..];
    }
  }

  /** The batch that starts at a multiple of the batch size and runs to the end is the last batch. */
  lemma {:induction false} LastBatchIs<X>(s: seq<X>, start: nat)
    requires start % BatchSize == 0 && start < |s| <= start + BatchSize
    ensures Batches(s) != [] && Batches(s)[|Batches(s)| - 1] == s[start..]
    decreases start
  {
    if start > 0 {
      LastBatchIs(s[BatchSize..], start - BatchSize);
      assert s[BatchSize..][start - BatchSize..] == s[start..];
    }
  }

  /** After a batch, the results and the collected candles grow by that batch's results. */
  lemma AllPairsStep(stored: seq<Candle>, outs: seq<Option<seq<Candle>>>, i: nat, end: nat)
    requires i <= end <= |outs|
    ensures Successes(outs[..i]) + Successes(outs[i..end]) == Successes(outs[..end])
    ensures stored + Flatten(Successes(outs[..i])) + Flatten(Successes(outs[i..end])) == stored + Flatten(Successes(outs[..end]))
  {
    assert outs[..end] == outs[..i] + outs[i..end];
    SuccessesAppend(outs[..i], outs[i..end]);
    FlattenAppend(Successes(outs[..i]), Successes(outs[i..end]));
  }

  /**
   * What `fetch_all_pairs` returns as written, given the per-pair results:
   * `results` is rebound by every batch, so only the last batch's non-`None`
   * results come back; with no pairs the loop never binds it and the final
   * line raises (`None` here).
   */
  function ReturnedAsWritten(outs: seq<Option<seq<Candle>>>): Option<seq<seq<Candle>>>
  {
    var bs := Batches(outs);
    if bs == [] then None else Some(Successes(bs[|bs| - 1]))
  }

  function SuccessesOfBatch(b: seq<Option<seq<Candle>>>): seq<seq<Candle>>
  {
    Successes(b)
  }

  /** What `fetch_all_pairs` evidently means to return: the non-`None` results of every batch, in order. */
  function AllResults(outs: seq<Option<seq<Candle>>>): (r: seq<seq<Candle>>)
    ensures r == Flatten(Map(SuccessesOfBatch, Batches(outs)))
  {
    BatchesPartition(outs);
    SuccessesOfBatches(Batches(outs));
    Successes(outs)
  }

  lemma {:induction false} SuccessesOfBatches(bs: seq<seq<Option<seq<Candle>>>>)
    ensures Successes(Flatten(bs)) == Flatten(Map(SuccessesOfBatch, bs))
  {
    if bs != [] {
      SuccessesOfBatches(bs[1..]);
      SuccessesAppend(bs[0], Flatten(bs[1..]));
    }
  }

  /** Six pairs that all yield candles give six results, but as written only the sixth comes back. */
  lemma LastBatchOnly(outs: seq<Option<seq<Candle>>>)
    requires |outs| == 6 && forall k :: 0 <= k < 6 ==> outs[k].Some?
    ensures |AllResults(outs)| == 6
    ensures ReturnedAsWritten(outs) == Some([AllResults(outs)[5]])
  {
    SuccessesAllSome(outs);
    LastBatchIs(outs, 5);
    var head, last := outs[..5], outs[5..];
    assert outs == head + last;
    assert last == [outs[5]];
    assert Successes(last) == [outs[5].value] + Successes(last[1..]);
    assert last[1..] == [];
    assert Successes(last) == [outs[5].value];
    SuccessesAppend(head, last);
    SuccessesAllSome(head);
    assert Successes(outs) == Successes(head) + [outs[5].value];
    assert AllResults(outs) == Successes(outs);
    assert AllResults(outs)[5] == outs[5].value;
    assert Batches(outs)[|Batches(outs)| - 1] == last;
    assert ReturnedAsWritten(outs) == Some(Successes(last));
  }

  /** The stored table's dedup key: (market, candle_date_time_utc, market_type). */
  function Key(c: Candle): (string, int, string)
  {
    (c.market, c.time, c.marketType)
  }

  /** The stored table's order: by market, then time. */
  predicate RowLe(a: Candle, b: Candle)
  {
    Ordering.StrIntLe(a.market, a.time, b.market, b.time)
  }

  lemma RowLeTotal()
    ensures TotalPreorder(RowLe)
  {
    forall a, b ensures RowLe(a, b) || RowLe(b, a) {
      Ordering.StrIntLeTotal(a.market, a.time, b.market, b.time);
    }
    forall a, b, c | RowLe(a, b) && RowLe(b, c) ensures RowLe(a, c) {
      Ordering.StrIntLeTransitive(a.market, a.time, b.market, b.time, c.market, c.time);
    }
  }

  /** The `save_to_csv` merge of the stored table with the collected candles. */
  function Merge(stored: seq<Candle>, collected: seq<Candle>): seq<Candle>
  {
    RowLeTotal();
    CandleStore.Upsert(stored, collected, Key, RowLe)
  }

  /** The merged table is sorted by (market, time), holds one row per key, namely the one added last, and merging the same candles again keeps the same rows. */
  lemma MergeProperties(stored: seq<Candle>, collected: seq<Candle>)
    ensures Sorted(Merge(stored, collected), RowLe)
    ensures UniqueKeys(Merge(stored, collected), Key)
    ensures forall x :: x in Merge(stored, collected) <==> LastOf(stored + collected, Key(x), Key) == Some(x)
    ensures multiset(Merge(Merge(stored, collected), collected)) == multiset(Merge(stored, collected))
  {
    RowLeTotal();
    CandleStore.UpsertIdempotent(stored, collected, Key, RowLe);
  }

  /** The window at `current` is the next of `ws`, and the walk goes on from where it ends. */
  lemma WindowStep(ws: seq<Window>, k: nat, current: int, endMs: int)
    requires k <= |ws| && current < endMs && Windows(current, endMs, DayMs) == ws[k..]
    ensures k < |ws| && ws[k] == Window(current, Min(current + DayMs, endMs))
    ensures Windows(Min(current + DayMs, endMs), endMs, DayMs) == ws[k + 1..]
  {
    var rest := ws[k..];
    assert rest == [Window(current, Min(current + DayMs, endMs))] + Windows(Min(current + DayMs, endMs), endMs, DayMs);
    assert rest[1..] == ws[k + 1..];
  }

  /** A failed request for window `k` fails the whole walk, after `k + 1` requests. */
  lemma WalkFails(symbol: string, ws: seq<Window>, k: nat, all: seq<Kline>, sent: seq<Request>, request: Request, fetch: Request -> Response<Kline>)
    requires k < |ws| && request == RequestFor(symbol, ws[k]) && fetch(request).Failed?
    requires Collect(symbol, ws, fetch) == Prepend(all, Collect(symbol, ws[k..], fetch))
    requires Sent(symbol, ws, fetch) == sent + Sent(symbol, ws[k..], fetch)
    ensures Collect(symbol, ws, fetch) == None
    ensures Sent(symbol, ws, fetch) == sent + [request]
  {
    assert ws[k..][0] == ws[k];
  }

  /** A successful request for window `k` adds its rows and leaves the rest of the walk to the later windows. */
  lemma WalkGoesOn(symbol: string, ws: seq<Window>, k: nat, all: seq<Kline>, rows: seq<Kline>, sent: seq<Request>, request: Request, fetch: Request -> Response<Kline>)
    requires k < |ws| && request == RequestFor(symbol, ws[k]) && fetch(request) == Ok(rows)
    requires Collect(symbol, ws, fetch) == Prepend(all, Collect(symbol, ws[k..], fetch))
    requires Sent(symbol, ws, fetch) == sent + Sent(symbol, ws[k..], fetch)
    ensures Collect(symbol, ws, fetch) == Prepend(all + rows, Collect(symbol, ws[k + 1..], fetch))
    ensures Sent(symbol, ws, fetch) == (sent + [request]) + Sent(symbol, ws[k + 1..], fetch)
  {
    var later := Sent(symbol, ws[k + 1..], fetch);
    assert ws[k..][0] == ws[k] && ws[k..][1..] == ws[k + 1..];
    assert Sent(symbol, ws[k..], fetch) == [request] + later;
    assert sent + ([request] + later) == (sent + [request]) + later;
    PrependPrepend(all, rows, Collect(symbol, ws[k + 1..], fetch));
  }

  class BinanceFetcher {
    /** Every candle collected so far (never cleared). */
    var allPairsData: seq<Candle>
    /** Times of the requests inside the current rate-limit window, oldest first. */
    var requestTimestamps: seq<real>

    constructor ()
      ensures allPairsData == [] && requestTimestamps == []
    {
      allPairsData := [];
      requestTimestamps := [];
    }

    /** `check_rate_limit`: prune, compute the wait, record `now`. */
    method CheckRateLimit(now: real) returns (wait: real)
      modifies this`requestTimestamps
      ensures requestTimestamps == Recent(old(requestTimestamps), now) + [now]
      ensures wait == RateLimitWait(Recent(old(requestTimestamps), now), now)
    {
      var ts := requestTimestamps;
      var kept: seq<real> := [];
      var i := 0;
      while i < |ts|
        invariant 0 <= i <= |ts|
        invariant kept == Recent(ts[..i], now)
      {
        assert ts[..i + 1][..i] == ts[..i];
        if now - ts[i] <= RequestWindow {
          kept := kept + [ts[i]];
        }
        i := i + 1;
      }
      assert ts[..i] == ts;
      wait := 0.0;
      if |kept| >= MaxRequestsPerSecond {
        var w := kept[0] + RequestWindow - now;
        if w > 0.0 {
          wait := w;
        }
      }
      requestTimestamps := kept + [now];
    }

    /** `check_rate_limit` before the `k`-th request for `pair`, stated against the log as it stood before the first. */
    method CheckBefore(ghost base: seq<real>, pair: string, k: nat, clock: (string, nat) -> real) returns (wait: real)
      requires requestTimestamps == Throttled(base, clock, pair, k)
      modifies this`requestTimestamps
      ensures requestTimestamps == Throttled(base, clock, pair, k + 1)
      ensures Waits(base, clock, pair, k + 1) == Waits(base, clock, pair, k) + [wait]
    {
      wait := CheckRateLimit(clock(pair, k));
    }

    /**
     * The `while current_start < end_time` loop of `fetch_historical_candles`: one
     * rate-limited request per day-long window of `symbol`, stopping at the first
     * failure; `clock(pair, k)` is the time read before the k-th request. Returns
     * the klines gathered (`None` after a failure), the requests sent and the
     * rate-limit waits.
     */
    method FetchWindows(pair: string, symbol: string, startMs: int, endMs: int, fetch: Request -> Response<Kline>, clock: (string, nat) -> real)
      returns (collected: Option<seq<Kline>>, sent: seq<Request>, waits: seq<real>)
      modifies this`requestTimestamps
      ensures collected == Collect(symbol, Windows(startMs, endMs, DayMs), fetch)
      ensures sent == Sent(symbol, Windows(startMs, endMs, DayMs), fetch)
      ensures requestTimestamps == Throttled(old(requestTimestamps), clock, pair, |sent|)
      ensures waits == Waits(old(requestTimestamps), clock, pair, |sent|)
    {
      ghost var ws := Windows(startMs, endMs, DayMs);
      var all: seq<Kline> := [];
      var current := startMs;
      sent, waits := [], [];
      assert ws[0..] == ws;
      PrependEmpty(Collect(symbol, ws, fetch));
      while current < endMs
        invariant |sent| <= |ws|
        invariant Windows(current, endMs, DayMs) == ws[|sent|..]
        invariant Collect(symbol, ws, fetch) == Prepend(all, Collect(symbol, ws[|sent|..], fetch))
        invariant Sent(symbol, ws, fetch) == sent + Sent(symbol, ws[|sent|..], fetch)
        invariant requestTimestamps == Throttled(old(requestTimestamps), clock, pair, |sent|)
        invariant waits == Waits(old(requestTimestamps), clock, pair, |sent|)
        decreases endMs - current
      {
        var next := Min(current + DayMs, endMs);
        var request := RequestFor(symbol, Window(current, next));
        // `fetch` is a pure function of the request, so reading its answer before the wait changes nothing.
        var response := fetch(request);
        ghost var k := |sent|;
        WindowStep(ws, k, current, endMs);
        if response.Failed? {
          WalkFails(symbol, ws, k, all, sent, request, fetch);
        } else {
          WalkGoesOn(symbol, ws, k, all, response.rows, sent, request, fetch);
        }
        var w := CheckBefore(old(requestTimestamps), pair, |sent|, clock);
        sent, waits := sent + [request], waits + [w];
        assert |sent| == k + 1;
        match response {
          case Failed =>
            collected := None;
            return;
          case Ok(rows) =>
            all := all + rows;
        }
        current := next;
      }
      assert Collect(symbol, ws[|sent|..], fetch) == Some([]);
      assert sent + [] == sent;
      assert all + [] == all;
      collected := Some(all);
    }

    /**
     * `fetch_historical_candles`: the klines of every window, or `None` when a
     * request failed or nothing came back. Also returns the requests sent and the
     * rate-limit waits.
     */
    method FetchHistoricalCandles(pair: string, startMs: int, endMs: int, fetch: Request -> Response<Kline>, clock: (string, nat) -> real)
      returns (result: Option<seq<Kline>>, sent: seq<Request>, waits: seq<real>)
      modifies this`requestTimestamps
      ensures result == HistoricalCandles(pair, startMs, endMs, fetch)
      ensures sent == Sent(RequestSymbol(pair), Windows(startMs, endMs, DayMs), fetch)
      ensures |sent| == PairRequests(pair, startMs, endMs, fetch)
      ensures requestTimestamps == Throttled(old(requestTimestamps), clock, pair, |sent|)
      ensures waits == Waits(old(requestTimestamps), clock, pair, |sent|)
    {
      var collected;
      collected, sent, waits := FetchWindows(pair, RequestSymbol(pair), startMs, endMs, fetch, clock);
      result := if collected.None? || collected.value == [] then None else collected;
    }

    /** `fetch_pair_data`: the last day of candles for `pair`, decoded and added to `allPairsData`. */
    method FetchPairData(pair: string, nowMs: int, fetch: Request -> Response<Kline>, clock: (string, nat) -> real)
      returns (processed: Option<seq<Candle>>)
      modifies this
      ensures processed == PairData(pair, nowMs, fetch)
      ensures allPairsData == old(allPairsData) + GetOr(processed, [])
      ensures requestTimestamps == Throttled(old(requestTimestamps), clock, pair, PairRequests(pair, nowMs - DayMs, nowMs, fetch))
    {
      var perp, sent, waits := FetchHistoricalCandles(pair, nowMs - DayMs, nowMs, fetch, clock);
      if perp.Some? {
        var rows: seq<Candle> := [];
        for i := 0 to |perp.value|
          invariant rows == Map(Decoder(pair), perp.value[..i])
          invariant allPairsData == old(allPairsData)
          invariant requestTimestamps == Throttled(old(requestTimestamps), clock, pair, PairRequests(pair, nowMs - DayMs, nowMs, fetch))
        {
          TakeOneMore(perp.value, i);
          MapAppend(Decoder(pair), perp.value[..i], [perp.value[i]]);
          rows := rows + [DecodeKline(pair, perp.value[i])];
        }
        assert perp.value[..|perp.value|] == perp.value;
        allPairsData := allPairsData + rows;
        processed := Some(rows);
      } else {
        assert allPairsData + [] == allPairsData;
        processed := None;
      }
    }

    /** `fetch_current_data`: the raw klines of the last five minutes. */
    method FetchCurrentData(pair: string, nowMs: int, fetch: Request -> Response<Kline>, clock: (string, nat) -> real)
      returns (klines: Option<seq<Kline>>)
      modifies this`requestTimestamps
      ensures klines == HistoricalCandles(pair, nowMs - FiveMinutesMs, nowMs, fetch)
      ensures requestTimestamps == Throttled(old(requestTimestamps), clock, pair, PairRequests(pair, nowMs - FiveMinutesMs, nowMs, fetch))
    {
      var sent, waits;
      klines, sent, waits := FetchHistoricalCandles(pair, nowMs - FiveMinutesMs, nowMs, fetch, clock);
    }

    /** One batch of `fetch_all_pairs`: each pair in turn, keeping the non-`None` results. */
    method FetchBatch(batch: seq<string>, nowMs: int, fetch: Request -> Response<Kline>, clock: (string, nat) -> real, ghost outs: seq<Option<seq<Candle>>>)
      returns (batchResults: seq<seq<Candle>>)
      requires IsPairData(outs, batch, nowMs, fetch)
      modifies this
      ensures batchResults == Successes(outs)
      ensures allPairsData == old(allPairsData) + Flatten(batchResults)
      ensures requestTimestamps == ThrottledPairs(old(requestTimestamps), batch, nowMs, fetch, clock)
    {
      batchResults := [];
      assert allPairsData + Flatten(batchResults) == allPairsData;
      for j := 0 to |batch|
        invariant batchResults == Successes(outs[..j])
        invariant allPairsData == old(allPairsData) + Flatten(batchResults)
        invariant requestTimestamps == ThrottledPairs(old(requestTimestamps), batch[..j], nowMs, fetch, clock)
      {
        ThrottledPairsStep(old(requestTimestamps), batch, j, nowMs, fetch, clock);
        assert outs[j] == PairData(batch[j], nowMs, fetch);
        TakeOneMore(outs, j);
        var r := FetchPairData(batch[j], nowMs, fetch, clock);
        CollectStep(old(allPairsData), outs[..j], r);
        if r.Some? {
          batchResults := batchResults + [r.value];
        }
      }
      assert outs[..|batch|] == outs;
      assert batch[..|batch|] == batch;
    }

    /**
     * `fetch_all_pairs`, returning what it evidently means to return: the
     * pairs in batches of five, each pair fetched in list order (the batch's
     * tasks run concurrently in the source); `clock(p, k)` is the time read
     * before pair p's k-th request, and `outs` names the per-pair results,
     * `PairResults(pairs, nowMs, fetch)`.
     */
    method FetchAllPairs(pairs: seq<string>, nowMs: int, fetch: Request -> Response<Kline>, clock: (string, nat) -> real, ghost outs: seq<Option<seq<Candle>>>)
      returns (allResults: seq<seq<Candle>>)
      requires IsPairData(outs, pairs, nowMs, fetch)
      modifies this
      ensures allResults == AllResults(outs)
      ensures allPairsData == old(allPairsData) + Flatten(allResults)
      ensures requestTimestamps == ThrottledPairs(old(requestTimestamps), pairs, nowMs, fetch, clock)
    {
      var i := 0;
      allResults := [];
      assert outs[..0] == [];
      assert allPairsData + Flatten(allResults) == allPairsData;
      while i < |pairs|
        invariant 0 <= i <= |pairs|
        invariant allResults == Successes(outs[..i])
        invariant allPairsData == old(allPairsData) + Flatten(allResults)
        invariant requestTimestamps == ThrottledPairs(old(requestTimestamps), pairs[..i], nowMs, fetch, clock)
        decreases |pairs| - i
      {
        var end := Min(i + BatchSize, |pairs|);
        var batch := pairs[i..end];
        ThrottledPairsBatch(old(requestTimestamps), pairs, i, end, nowMs, fetch, clock);
        AllPairsStep(old(allPairsData), outs, i, end);
        IsPairDataSlice(outs, pairs, nowMs, fetch, i, end);
        var results := FetchBatch(batch, nowMs, fetch, clock, outs[i..end]);
        allResults := allResults + results;
        i := end;
      }
      assert outs[..i] == outs;
      assert pairs[..i] == pairs;
    }

    /** `save_to_csv` given the stored table (`None` when there is no file): the new file contents. */
    method SaveToCsv(file: Option<seq<Candle>>) returns (written: Option<seq<Candle>>)
      ensures allPairsData == [] ==> written == file
      ensures allPairsData != [] && file.None? ==> written == Some(allPairsData)
      ensures allPairsData != [] && file.Some? ==> written == Some(Merge(file.value, allPairsData))
    {
      if allPairsData == [] {
        written := file;
      } else if file.None? {
        written := Some(allPairsData);
      } else {
        written := Some(Merge(file.value, allPairsData));
      }
    }

    /** `run`: fetch every pair, then save what has been collected. */
    method Run(pairs: seq<string>, nowMs: int, fetch: Request -> Response<Kline>, clock: (string, nat) -> real, file: Option<seq<Candle>>)
      returns (written: Option<seq<Candle>>)
      modifies this
      ensures allPairsData == old(allPairsData) + Flatten(AllResults(PairResults(pairs, nowMs, fetch)))
      ensures requestTimestamps == ThrottledPairs(old(requestTimestamps), pairs, nowMs, fetch, clock)
      ensures allPairsData == [] ==> written == file
      ensures allPairsData != [] && file.None? ==> written == Some(allPairsData)
      ensures allPairsData != [] && file.Some? ==> written == Some(Merge(file.value, allPairsData))
    {
      var results := FetchAllPairs(pairs, nowMs, fetch, clock, PairResults(pairs, nowMs, fetch));
      written := SaveToCsv(file);
    }
  }
}
