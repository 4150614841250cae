/**
 * `combine_data` (data_combiner.py): the market-name normalisation of both
 * stores, the column preparation, and the per-market nearest-timestamp join
 * (`pd.merge_asof(..., by='market', direction='nearest', tolerance=5min)`)
 * followed by the sort on (market, timestamp_coinbase).
 *
 * Times are epoch seconds. A Coinbase row that finds no Binance row within
 * the tolerance is kept, with the Binance side absent.
 */
module Alignment {
  import opened Wrappers
  import opened Table
  import Text
  import Ordering
  import CoinbaseData
  import BinanceData

  /** `pd.Timedelta('5min')`, in seconds. */
  const Tolerance: int := 300

  /** `str.replace('-', '') + 'T'`: Coinbase `BTC-USD` becomes `BTCUSDT`. */
  function CoinbaseMarket(market: string): (r: string)
    ensures '-' !in r && |r| > 0 && r[|r| - 1] == 'T'
  {
    Text.RemoveChar(market, '-') + "T"
  }

  /** `replace('/', '', regex=True)`: Binance `BTC/USDT` becomes `BTCUSDT`. */
  function BinanceMarket(market: string): (r: string)
    ensures '/' !in r
    ensures forall d :: d != '/' ==> (d in r <==> d in market)
  {
    Text.RemoveChar(market, '/')
  }

  /** The Coinbase pair `X-Y` and the Binance pair `X/YT` land on the same key `XYT`, so the two sides join. */
  lemma SameMarketKey(base: string, quote: string)
    requires '-' !in base && '-' !in quote && '/' !in base && '/' !in quote
    ensures CoinbaseMarket(base + "-" + quote) == BinanceMarket(base + "/" + quote + "T") == base + quote + "T"
  {
    calc {
      Text.RemoveChar(base + "-" + quote, '-');
    == { Text.RemoveCharAppend(base + "-", quote, '-'); Text.RemoveCharAppend(base, "-", '-'); }
      Text.RemoveChar(base, '-') + Text.RemoveChar("-", '-') + Text.RemoveChar(quote, '-');
    == { Text.RemoveCharAbsent(base, '-'); Text.RemoveCharAbsent(quote, '-'); assert Text.RemoveChar("-", '-') == []; }
      base + [] + quote;
    == { assert base + [] == base; }
      base + quote;
    }
    calc {
      Text.RemoveChar(base + "/" + quote + "T", '/');
    == { Text.RemoveCharAppend(base + "/" + quote, "T", '/'); Text.RemoveCharAppend(base + "/", quote, '/'); Text.RemoveCharAppend(base, "/", '/'); }
      Text.RemoveChar(base, '/') + Text.RemoveChar("/", '/') + Text.RemoveChar(quote, '/') + Text.RemoveChar("T", '/');
    == { Text.RemoveCharAbsent(base, '/'); Text.RemoveCharAbsent(quote, '/'); Text.RemoveCharAbsent("T", '/'); assert Text.RemoveChar("/", '/') == []; }
      base + [] + quote + "T";
    == { assert base + [] == base; }
      base + quote + "T";
    }
  }

  // ---- Rows ---------------------------------------------------------------

  /** One Coinbase row as the join reads it: market, `timestamp_coinbase`, `close_price_coinbase`, `volume_coinbase`. */
  datatype CoinbaseRow = CoinbaseRow(market: string, time: int, close: real, volume: real)

  /** One Binance row as the join reads it: market, `timestamp_binance`, `close_price_binance`, `volume_binance` (the quote volume). */
  datatype BinanceRow = BinanceRow(market: string, time: int, close: real, volume: real)

  /** One joined row: the Coinbase side, and the matched Binance row or `None` (NaN/NaT columns). */
  datatype AlignedRow = AlignedRow(market: string, timeCoinbase: int, closeCoinbase: real, volumeCoinbase: real, binance: Option<BinanceRow>)

  /** A stored Coinbase candle as the join reads it, market normalised. */
  function CoinbaseRowOf(c: CoinbaseData.Candle): (r: CoinbaseRow)
    ensures r.market == CoinbaseMarket(c.market) && r.time == c.time && r.close == c.close && r.volume == c.volume
  {
    CoinbaseRow(CoinbaseMarket(c.market), c.time, c.close, c.volume)
  }

  /** A stored Binance candle as the join reads it, market normalised and the quote volume as its volume. */
  function BinanceRowOf(c: BinanceData.Candle): (r: BinanceRow)
    ensures r.market == BinanceMarket(c.market) && r.time == c.time && r.close == c.close && r.volume == c.quoteVolume
  {
    BinanceRow(BinanceMarket(c.market), c.time, c.close, c.quoteVolume)
  }

  function Dist(a: int, b: int): nat
  {
    if a >= b then a - b else b - a
  }

  predicate BinanceTimeLe(a: BinanceRow, b: BinanceRow)
  {
    a.time <= b.time
  }

  predicate CoinbaseTimeLe(a: CoinbaseRow, b: CoinbaseRow)
  {
    a.time <= b.time
  }

  lemma TimeOrdersTotal()
    ensures TotalPreorder(BinanceTimeLe) && TotalPreorder(CoinbaseTimeLe)
  {
  }

  // ---- As-of join ---------------------------------------------------------

  /** The backward candidate: the last row of `right` in market `m` at or before `t`. */
  function Backward(m: string, t: int, right: seq<BinanceRow>): (r: Option<BinanceRow>)
    ensures r.Some? ==> r.value in right && r.value.market == m && r.value.time <= t
    ensures r.None? <==> forall b :: b in right && b.market == m ==> b.time > t
  {
    if right == [] then None
    else
      var rest := Backward(m, t, right[1..]);
      if rest.Some? then rest
      else if right[0].market == m && right[0].time <= t then Some(right[0])
      else
        assert right == [right[0]] + right[1..];
        None
  }

  /** The forward candidate: the first row of `right` in market `m` at or after `t`. */
  function Forward(m: string, t: int, right: seq<BinanceRow>): (r: Option<BinanceRow>)
    ensures r.Some? ==> r.value in right && r.value.market == m && r.value.time >= t
    ensures r.None? <==> forall b :: b in right && b.market == m ==> b.time < t
  {
    if right == [] then None
    else if right[0].market == m && right[0].time >= t then Some(right[0])
    else
      assert right == [right[0]] + right[1..];
      Forward(m, t, right[1..])
  }

  /** On a table sorted by time, the backward candidate is the latest row of the market at or before `t`. */
  lemma {:induction false} BackwardIsLatest(m: string, t: int, right: seq<BinanceRow>, b: BinanceRow)
    requires Sorted(right, BinanceTimeLe)
    requires b in right && b.market == m && b.time <= t
    ensures Backward(m, t, right).Some? && b.time <= Backward(m, t, right).value.time
  {
    var rest := Backward(m, t, right[1..]);
    assert Sorted(right[1..], BinanceTimeLe);
    if b == right[0] {
      if rest.Some? {
        var k :| 0 <= k < |right[1..]| && right[1..][k] == rest.value;
        assert right[1 + k] == rest.value;
      }
    } else {
      assert b in right[1..];
      BackwardIsLatest(m, t, right[1..], b);
    }
  }

  /** On a table sorted by time, the forward candidate is the earliest row of the market at or after `t`. */
  lemma {:induction false} ForwardIsEarliest(m: string, t: int, right: seq<BinanceRow>, b: BinanceRow)
    requires Sorted(right, BinanceTimeLe)
    requires b in right && b.market == m && b.time >= t
    ensures Forward(m, t, right).Some? && Forward(m, t, right).value.time <= b.time
  {
    if !(right[0].market == m && right[0].time >= t) {
      assert Sorted(right[1..], BinanceTimeLe);
      assert b != right[0] && b in right[1..];
      ForwardIsEarliest(m, t, right[1..], b);
    } else {
      var k :| 0 <= k < |right| && right[k] == b;
      assert BinanceTimeLe(right[0], right[k]) || k == 0;
    }
  }

  /** A candidate within the tolerance, or `None`. */
  function WithinTolerance(t: int, c: Option<BinanceRow>): (r: Option<BinanceRow>)
    ensures r.Some? <==> c.Some? && Dist(t, c.value.time) <= Tolerance
    ensures r.Some? ==> r == c
  {
    if c.Some? && Dist(t, c.value.time) <= Tolerance then c else None
  }

  /**
   * `direction='nearest'` for one left row: the closer of the backward and
   * forward candidates that lie within the tolerance, the backward one when
   * both are equally close.
   */
  function Nearest(m: string, t: int, right: seq<BinanceRow>): (r: Option<BinanceRow>)
    ensures r.Some? ==> r.value in right && r.value.market == m && Dist(t, r.value.time) <= Tolerance
  {
    var b := WithinTolerance(t, Backward(m, t, right));
    var f := WithinTolerance(t, Forward(m, t, right));
    if b.Some? && f.Some? then
      if t - b.value.time <= f.value.time - t then b else f
    else if b.Some? then b
    else f
  }

  /** `n` is at least as close to `t` as every row of market `m` in `right`, and earlier on a tie. */
  ghost predicate NearestAmong(m: string, t: int, n: BinanceRow, right: seq<BinanceRow>)
  {
    forall b :: b in right && b.market == m ==>
      Dist(t, n.time) <= Dist(t, b.time) && (Dist(t, n.time) == Dist(t, b.time) ==> n.time <= b.time)
  }

  /** No row of market `m` in `right` lies within the tolerance of `t`. */
  ghost predicate NoneWithin(m: string, t: int, right: seq<BinanceRow>)
  {
    forall b :: b in right && b.market == m ==> Dist(t, b.time) > Tolerance
  }

  /**
   * On a table sorted by time the match is a nearest row of the market (the
   * earlier one on a tie), and there is no match exactly when no row of the
   * market lies within the tolerance.
   */
  lemma NearestOptimal(m: string, t: int, right: seq<BinanceRow>)
    requires Sorted(right, BinanceTimeLe)
    ensures Nearest(m, t, right).Some? ==> NearestAmong(m, t, Nearest(m, t, right).value, right)
    ensures Nearest(m, t, right).None? <==> NoneWithin(m, t, right)
  {
    var bw, fw := Backward(m, t, right), Forward(m, t, right);
    forall b | b in right && b.market == m
      ensures b.time <= t ==> bw.Some? && b.time <= bw.value.time
      ensures b.time >= t ==> fw.Some? && fw.value.time <= b.time
    {
      if b.time <= t {
        BackwardIsLatest(m, t, right, b);
      }
      if b.time >= t {
        ForwardIsEarliest(m, t, right, b);
      }
    }
  }

  /** The joined row for one Coinbase row. */
  function AlignWith(right: seq<BinanceRow>): CoinbaseRow -> AlignedRow
  {
    (l: CoinbaseRow) => AlignedRow(l.market, l.time, l.close, l.volume, Nearest(l.market, l.time, right))
  }

  /** The Coinbase side of a joined row. */
  function CoinbasePart(a: AlignedRow): CoinbaseRow
  {
    CoinbaseRow(a.market, a.timeCoinbase, a.closeCoinbase, a.volumeCoinbase)
  }

  /** The join's order: by market, then Coinbase time. */
  predicate AlignedLe(a: AlignedRow, b: AlignedRow)
  {
    Ordering.StrIntLe(a.market, a.timeCoinbase, b.market, b.timeCoinbase)
  }

  lemma AlignedLeTotal()
    ensures TotalPreorder(AlignedLe)
  {
    forall a, b ensures AlignedLe(a, b) || AlignedLe(b, a) {
      Ordering.StrIntLeTotal(a.market, a.timeCoinbase, b.market, b.timeCoinbase);
    }
    forall a, b, c | AlignedLe(a, b) && AlignedLe(b, c) ensures AlignedLe(a, c) {
      Ordering.StrIntLeTransitive(a.market, a.timeCoinbase, b.market, b.timeCoinbase, c.market, c.timeCoinbase);
    }
  }

  /** The Binance side sorted by `timestamp_binance`, as the join receives it. */
  function BinanceSide(binanceStore: seq<BinanceData.Candle>): (r: seq<BinanceRow>)
    ensures Sorted(r, BinanceTimeLe)
    ensures multiset(r) == multiset(Map(BinanceRowOf, binanceStore))
  {
    TimeOrdersTotal();
    SortBy(Map(BinanceRowOf, binanceStore), BinanceTimeLe)
  }

  /** The Coinbase side sorted by `timestamp_coinbase`, as the join receives it. */
  function CoinbaseSide(coinbaseStore: seq<CoinbaseData.Candle>): (r: seq<CoinbaseRow>)
    ensures Sorted(r, CoinbaseTimeLe)
    ensures multiset(r) == multiset(Map(CoinbaseRowOf, coinbaseStore))
  {
    TimeOrdersTotal();
    SortBy(Map(CoinbaseRowOf, coinbaseStore), CoinbaseTimeLe)
  }

  /** `combine_data`'s result: the as-of join of both stores, sorted by (market, timestamp_coinbase). */
  function Combined(coinbaseStore: seq<CoinbaseData.Candle>, binanceStore: seq<BinanceData.Candle>): (r: seq<AlignedRow>)
    ensures Sorted(r, AlignedLe)
  {
    AlignedLeTotal();
    SortBy(Map(AlignWith(BinanceSide(binanceStore)), CoinbaseSide(coinbaseStore)), AlignedLe)
  }

  /** Every Coinbase row appears exactly once in the join, none is dropped and none is added. */
  lemma CombinedKeepsCoinbaseRows(coinbaseStore: seq<CoinbaseData.Candle>, binanceStore: seq<BinanceData.Candle>)
    ensures |Combined(coinbaseStore, binanceStore)| == |coinbaseStore|
    ensures multiset(Map(CoinbasePart, Combined(coinbaseStore, binanceStore))) == multiset(Map(CoinbaseRowOf, coinbaseStore))
  {
    var left := CoinbaseSide(coinbaseStore);
    var joined := Map(AlignWith(BinanceSide(binanceStore)), left);
    AlignedLeTotal();
    MapPermutation(CoinbasePart, joined, Combined(coinbaseStore, binanceStore));
    assert Map(CoinbasePart, joined) == left;
    assert |multiset(left)| == |multiset(Map(CoinbaseRowOf, coinbaseStore))|;
  }

  /** Each joined row carries the nearest-match result for its own market and time. */
  lemma CombinedRow(coinbaseStore: seq<CoinbaseData.Candle>, binanceStore: seq<BinanceData.Candle>, x: AlignedRow)
    requires x in Combined(coinbaseStore, binanceStore)
    ensures x.binance == Nearest(x.market, x.timeCoinbase, BinanceSide(binanceStore))
  {
    var joined := Map(AlignWith(BinanceSide(binanceStore)), CoinbaseSide(coinbaseStore));
    AlignedLeTotal();
    assert x in multiset(joined);
    var i :| 0 <= i < |joined| && joined[i] == x;
  }

  lemma SameMembers<T>(s: seq<T>, t: seq<T>)
    requires multiset(s) == multiset(t)
    ensures forall x :: x in s <==> x in t
  {
    forall x ensures x in s <==> x in t {
      assert x in s <==> x in multiset(s);
      assert x in t <==> x in multiset(t);
    }
  }

  /**
   * Every row of the join carries a Binance row of the same market from the
   * Binance store that is within five minutes and nearest in time (the earlier
   * one on a tie), and carries none exactly when that market has no Binance
   * row within five minutes.
   */
  lemma CombinedMatches(coinbaseStore: seq<CoinbaseData.Candle>, binanceStore: seq<BinanceData.Candle>, x: AlignedRow)
    requires x in Combined(coinbaseStore, binanceStore)
    ensures x.binance.Some? ==>
      && x.binance.value in Map(BinanceRowOf, binanceStore)
      && x.binance.value.market == x.market
      && Dist(x.timeCoinbase, x.binance.value.time) <= Tolerance
      && NearestAmong(x.market, x.timeCoinbase, x.binance.value, Map(BinanceRowOf, binanceStore))
    ensures x.binance.None? <==> NoneWithin(x.market, x.timeCoinbase, Map(BinanceRowOf, binanceStore))
  {
    var right := BinanceSide(binanceStore);
    CombinedRow(coinbaseStore, binanceStore, x);
    NearestOptimal(x.market, x.timeCoinbase, right);
    SameMembers(right, Map(BinanceRowOf, binanceStore));
  }
}
