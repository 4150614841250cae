# Coinbase premium pipeline — a Dafny model

The system watches the price gap between Coinbase spot markets and Binance
perpetual futures. It has three stages:

- **Fetching.** Two fetchers (`get_data_coinbase.py`, `get_data_binance.py`)
  page through each exchange's candle API in time windows. They decode every
  candle into a row and save the rows into a CSV store. The save is meant
  to keep one row per (market, time), the newest fetch winning, sorted by
  market and time, and that is what the model's merge does. As written,
  the first save of either fetcher writes the fetched rows as they come
  (get_data_binance.py:157-158, get_data_coinbase.py:117-119), and every
  Coinbase save with data appends the fetched rows once more after the
  store it has just written (get_data_coinbase.py:122-123).
- **Combining.** `DataCombiner.combine_data` (`data_combiner.py`) reads both
  stores. It renames and drops columns and brings the market names onto one
  key (`BTC-USD` and `BTC/USDT` both become `BTCUSDT`). It then joins every
  Coinbase candle to the nearest Binance candle of the same market within
  five minutes.
- **Indicators and publishing.** `_calculate_indicators` works per market. It
  computes the premium and the premium percentage, lagged rolling means over
  1 hour, 1 day, 30 days and 365 days (each window ends at the row before the
  current one), the current premium against each mean, volume means, and the
  volume deviation. It sorts the rows by (DateTime, Coin) and renders volumes
  as `K`/`M`/`B` text. `send_to_web_service` picks one complete record per
  coin to post.

The model has one Dafny module per concern:

- `CandleStore`: the deduplicating merge both stores use.
- `Paging`: the time-window walk.
- `BinanceData` and `CoinbaseData`: the fetchers, as classes with their
  in-place state.
- `Text` and `Columns`: column-name handling.
- `Alignment`: the as-of join.
- `Indicators`: the per-market computations.
- `Publishing`: the record selection.
- `Combiner`: the `DataCombiner` class.
- `Table`, `Ordering` and `Wrappers`: the sequence vocabulary that stands
  in for the dataframe operations (stable insertion sort, keep-last
  deduplication, filter, map, flatten, and the string and (int, string)
  orders).

Every way the source can fail is modelled as a value:

- A failed HTTP request is `Response.Failed`.
- A missing or NaN cell is `Option.None`.
- A `KeyError` from `drop` is `None`.

Times are integer seconds, or milliseconds where Binance uses them. The
network, the clock and the CSV files are parameters of the operations:
`fetch` is a function from request to response, `clock` gives the time read
before each request, and a store file is an `Option<seq<Candle>>`.

## Model

| member | source | states |
|---|---|---|
| CandleStore.Upsert | get_data_binance.py:148-153 | concat then drop_duplicates(keep='last') then sort: the result is sorted, has unique keys, and holds exactly the rows that are the last of their key in stored+fetched |
| CandleStore.UpsertKeepsEveryKey | get_data_coinbase.py:111-113 | every key that is stored or fetched survives, holding the row added last under that key |
| CandleStore.UpsertLatestWins | get_data_coinbase.py:111-113 | a freshly fetched row replaces whatever was stored under its key |
| CandleStore.UpsertIdempotent | get_data_binance.py:148-153 | upserting the same batch twice leaves the same multiset of rows, so the same row count |
| CandleStore.UniqueLastOf | get_data_binance.py:149-152 | in a table with unique keys, a row is the last one under its key iff it is in the table |
| CandleStore.UpsertIdempotentExact | get_data_coinbase.py:111-113 | when the sort only ties rows with equal keys, a second upsert of the same batch reproduces the table exactly |
| Paging.WindowsTile | get_data_binance.py:40-41 | the sub-windows of `while current_start < end_time` tile [start, end): contiguous, non-empty, at most one step long (all but the last exactly one step), none for an empty range |
| Paging.WindowsCount | get_data_coinbase.py:19-20 | a range of length n takes the least number k of sub-windows with (k-1)·step < n <= k·step |
| BinanceData.DecodeKline | get_data_binance.py:91-103 | a kline becomes a perpetual row of its pair: open/high/low/close from fields 1-4, volume from 5, quote volume from 7, time = field 0 in ms truncated to seconds |
| BinanceData.DecodeEncode | get_data_binance.py:91-103 | decoding inverts encoding for every perpetual candle |
| BinanceData.RequestSymbol | get_data_binance.py:36 | the request symbol has no `/` or `-` and keeps every other character of the pair |
| BinanceData.RequestSymbolOfPair | get_data_binance.py:36 | `BASE/QUOTE` is requested as `BASEQUOTE` |
| BinanceData.CollectAllOrNothing | get_data_binance.py:55-69 | the window walk succeeds iff every window's request succeeds, and then yields their rows concatenated in window order |
| BinanceData.FailureDiscardsPair | get_data_binance.py:63-69 | one failed window discards the pair's klines of every earlier window |
| BinanceData.RecentKeeps | get_data_binance.py:21-22 | the pruned timestamps are exactly those at most one window old, and no more than before |
| BinanceData.RateLimitWait | get_data_binance.py:25-29 | no wait under 1000 requests; a positive wait ends exactly one window after the oldest kept request; never negative |
| BinanceData.WaitAtMostWindow | get_data_binance.py:25-29 | when no recorded request lies in the future, the wait never exceeds the one-second window |
| BinanceData.Sent | get_data_binance.py:40-69 | the walk never sends more requests than there are windows |
| BinanceData.SentSpec | get_data_binance.py:40-69 | the i-th request sent is the i-th window's; every request but the last succeeded; the walk stops before the last window only after a failed request; when every window succeeds, every window is requested |
| BinanceData.WaitsAt | get_data_binance.py:17-32 | the wait computed before a pair's j-th request is RateLimitWait of the log as pruned at that request's clock reading |
| BinanceData.ThrottledRecent | get_data_binance.py:19-32 | after each request the log ends with that request's time, and every other entry is at most one window older |
| BinanceData.ThrottledPairsAppend | get_data_binance.py:124-139 | logging the pairs of `a` and then those of `b` gives the log of `a + b`, so the log does not depend on how the pairs are batched |
| BinanceData.ThrottledPairsBatch | get_data_binance.py:128-133 | the log after the pairs before a batch, then the batch, is the log after every pair up to the batch's end |
| BinanceData.WindowStep | get_data_binance.py:40-41 | while `current_start < end_time`, the next window is [current, min(current + 1 day, end)) and the remaining walk starts at its end |
| BinanceData.WalkFails | get_data_binance.py:63-69 | a failed window ends the walk with None, and its request is the last one sent |
| BinanceData.WalkGoesOn | get_data_binance.py:55-72 | a successful window adds its klines and the walk goes on with the next window |
| BinanceData.PairDataSingleRequest | get_data_binance.py:76-111 | one day is one window: a pair's candles are that single response decoded, or None on failure or an empty response |
| BinanceData.PairResults | get_data_binance.py:130-132 | each pair's result is the `fetch_pair_data` outcome for that pair, in list order |
| BinanceData.SuccessesAllSome | get_data_binance.py:133 | when every pair yields candles, no result is filtered out |
| BinanceData.BatchesPartition | get_data_binance.py:128-129 | the batches partition the pair list in order: non-empty, at most five, all but the last full |
| BinanceData.LastBatchIs | get_data_binance.py:128-129 | the slice that starts at a multiple of five and reaches the end is the last batch |
| BinanceData.AllResults | get_data_binance.py:124-139 | the intended return value: the non-None results of every batch, in order |
| BinanceData.SuccessesOfBatches | get_data_binance.py:133 | filtering each batch's results and concatenating equals filtering all results |
| BinanceData.LastBatchOnly | get_data_binance.py:139 | six successful pairs give six intended results, but as written only the sixth is returned |
| BinanceData.MergeProperties | get_data_binance.py:148-153 | the saved table is sorted by (market, time), has one row per key (the last added), and merging the same candles again keeps the same rows |
| BinanceData.BinanceFetcher.constructor | get_data_binance.py:8-15 | no candles and no request timestamps at first |
| BinanceData.BinanceFetcher.CheckRateLimit | get_data_binance.py:17-32 | the timestamps become the pruned list plus `now`, and the returned wait is RateLimitWait of the pruned list |
| BinanceData.BinanceFetcher.CheckBefore | get_data_binance.py:52-53 | the rate-limit check before a pair's k-th request extends the log from Throttled(k) to Throttled(k + 1), and its wait is the next entry of Waits |
| BinanceData.BinanceFetcher.FetchWindows | get_data_binance.py:37-72 | the loop yields the all-or-nothing walk result and sends exactly Sent; the log becomes Throttled by one clock reading per request sent, and the waits are Waits of the log |
| BinanceData.BinanceFetcher.FetchHistoricalCandles | get_data_binance.py:34-74 | returns HistoricalCandles: the klines of every window, or None after a failure or when there are none; the requests sent are Sent (their order and outcomes in SentSpec); the log gains one pruned-then-appended entry per request sent (Throttled), and the wait before each request is RateLimitWait of the log then (Waits) |
| BinanceData.BinanceFetcher.FetchPairData | get_data_binance.py:76-111 | returns PairData and appends exactly those candles to `all_pairs_data`; the log is Throttled by the PairRequests requests of the pair's last day |
| BinanceData.BinanceFetcher.FetchCurrentData | get_data_binance.py:113-122 | the raw klines of the last five minutes, or None; the log is Throttled by that walk's requests |
| BinanceData.BinanceFetcher.FetchBatch | get_data_binance.py:129-133 | returns the batch's non-None results and appends their candles to `all_pairs_data`; the log is ThrottledPairs of the batch, pair after pair in list order |
| BinanceData.BinanceFetcher.FetchAllPairs | get_data_binance.py:124-139 | returns AllResults (the corrected return); `all_pairs_data` grows by every successful pair's candles; the log is ThrottledPairs of all pairs in list order |
| BinanceData.BinanceFetcher.SaveToCsv | get_data_binance.py:141-161 | nothing written without data; a new file holds the data; an existing file becomes Merge(file, data) |
| BinanceData.BinanceFetcher.Run | get_data_binance.py:163-166 | fetch every pair, then save: `all_pairs_data` grows by every successful pair's candles, the log is ThrottledPairs of all pairs, and the file is written as SaveToCsv states |
| CoinbaseData.DecodeCandle | get_data_coinbase.py:31-40 | a raw candle becomes a row of its pair: time truncated to seconds, then low/high/open/close/volume from fields 1-5 |
| CoinbaseData.DecodeEncode | get_data_coinbase.py:31-40 | decoding inverts encoding |
| CoinbaseData.Gather | get_data_coinbase.py:19-44 | every gathered candle belongs to the requested pair |
| CoinbaseData.GatherStopsAtFailure | get_data_coinbase.py:42-44 | when the first j requests succeed and the next fails (or there is none), the walk yields exactly those j windows' candles, whatever later windows would answer |
| CoinbaseData.ChunkSeconds | get_data_coinbase.py:20 | a sub-window is `granularity * 300` seconds, never empty |
| CoinbaseData.HistoricalDaySingleRequest | get_data_coinbase.py:76-79 | at the default granularity one day is one request per pair: its rows decoded, or nothing on failure |
| CoinbaseData.CurrentCandle | get_data_coinbase.py:48-68 | a candle of the pair is returned iff the request succeeds with a non-empty response |
| CoinbaseData.CurrentCandleIsNewest | get_data_coinbase.py:56-65 | the first candle of the response, the newest, is the one returned |
| CoinbaseData.AllHistorical | get_data_coinbase.py:78-83 | the first run adds only candles of the listed pairs |
| CoinbaseData.AllCurrent | get_data_coinbase.py:86-91 | a later run adds at most one candle per listed pair, all of listed pairs |
| CoinbaseData.AllCurrentExactly | get_data_coinbase.py:86-91 | a candle is added iff it is the latest candle of a listed pair |
| CoinbaseData.AllCurrentOnePerMarket | get_data_coinbase.py:86-91 | with no pair listed twice, a later run adds at most one candle per market |
| CoinbaseData.RowLeTotal | get_data_coinbase.py:113 | the (market, time) order is a total preorder that ties only rows with the same key |
| CoinbaseData.MergeProperties | get_data_coinbase.py:111-113 | the merged table is sorted, has one row per key (the last added), and merging the same candles again reproduces it exactly |
| CoinbaseData.SaveAsWrittenDuplicates | get_data_coinbase.py:122-123 | as written, every save with data leaves a file where some (market, time) appears twice |
| CoinbaseData.CoinbaseFetcher.constructor | get_data_coinbase.py:7-12 | keeps pairs and granularity; no candles; first run pending |
| CoinbaseData.CoinbaseFetcher.FetchHistoricalData | get_data_coinbase.py:14-46 | returns the window walk's candles up to the first failure |
| CoinbaseData.CoinbaseFetcher.FetchAllPairs | get_data_coinbase.py:70-94 | the first run appends each pair's last day of history; later runs append each pair's latest candle where there is one |
| CoinbaseData.CoinbaseFetcher.SaveToCsv | get_data_coinbase.py:96-120 | nothing written without data; a new file holds the data; an existing file becomes Merge(file, data) (the corrected save) |
| CoinbaseData.CoinbaseFetcher.Run | get_data_coinbase.py:126-130 | fetch by run type, save with the corrected save (SaveToCsv, without the second append), and clear the first-run flag |
| Text.RemoveChar | data_combiner.py:93 | `replace(c, '')`: no `c` left, every other character kept, never longer |
| Text.Strip | data_combiner.py:57 | the result is a slice s[i..j] of the input with only white space before i and after j, and no white space at either end of it |
| Text.Lower | data_combiner.py:57 | same length; no upper-case letter left; every other character unchanged; each upper-case letter becomes its lower-case partner |
| Text.LowerUnchanged | data_combiner.py:57 | a string without upper-case letters is left as it is |
| Text.LowerIdempotent | data_combiner.py:57 | lower-casing twice is lower-casing once |
| Text.NormalizeColumnName | data_combiner.py:57 | the name between its leading and trailing white space, lower-cased: no upper-case letter and no white space at either end |
| Text.NormalizeIdempotent | data_combiner.py:55-58 | normalising a column name twice changes nothing |
| Columns.DropColumns | data_combiner.py:101 | fails (KeyError) iff a dropped column is absent; otherwise keeps exactly the other columns |
| Columns.CoinbaseStoreRejected | data_combiner.py:97-101 | as written, a Coinbase frame without `opening_price` is refused, and the Coinbase store has no such column |
| Columns.CoinbaseStoreAccepted | data_combiner.py:97-101 | the corrected preparation accepts the Coinbase store's columns and leaves exactly market, time, close and volume |
| Columns.BinanceStoreAccepted | data_combiner.py:103-107 | the Binance store's columns are accepted and leave exactly market, time, close and quote volume |
| Alignment.CoinbaseMarket | data_combiner.py:93 | the key has no `-` and ends in `T` |
| Alignment.BinanceMarket | data_combiner.py:108 | the key has no `/` and keeps every other character |
| Alignment.SameMarketKey | data_combiner.py:93 | `X-Y` on Coinbase and `X/YT` on Binance land on the same key `XYT`, so the two sides join |
| Alignment.Backward | data_combiner.py:120-128 | a same-market row at or before t, and None iff there is none |
| Alignment.Forward | data_combiner.py:120-128 | a same-market row at or after t, and None iff there is none |
| Alignment.BackwardIsLatest | data_combiner.py:120-128 | on a time-sorted table the backward candidate is the latest such row |
| Alignment.ForwardIsEarliest | data_combiner.py:120-128 | on a time-sorted table the forward candidate is the earliest such row |
| Alignment.WithinTolerance | data_combiner.py:127 | a candidate is kept iff it is at most five minutes away |
| Alignment.Nearest | data_combiner.py:126-127 | a match is a row of the same market within five minutes |
| Alignment.NearestOptimal | data_combiner.py:120-128 | the match is a nearest same-market row (the earlier on a tie), and there is none iff no same-market row lies within the tolerance |
| Alignment.BinanceSide | data_combiner.py:122 | the Binance side is sorted by time and is a permutation of the store's rows |
| Alignment.CoinbaseSide | data_combiner.py:121 | the Coinbase side is sorted by time and is a permutation of the store's rows |
| Alignment.Combined | data_combiner.py:143-145 | the join (of the corrected preparation) is sorted by (market, timestamp_coinbase) |
| Alignment.CombinedKeepsCoinbaseRows | data_combiner.py:120-128 | every Coinbase row appears exactly once in the join: none dropped, none added |
| Alignment.CombinedRow | data_combiner.py:120-128 | each joined row carries the nearest-match result for its own market and time |
| Alignment.CombinedMatches | data_combiner.py:120-128 | each joined row carries a nearest same-market Binance row within five minutes, and carries none iff the market has no Binance row within five minutes |
| Indicators.Premium | data_combiner.py:186 | present iff there is a Binance match; premium + Binance close = Coinbase close |
| Indicators.PremiumPct | data_combiner.py:187 | present iff matched with a non-zero Binance close; pct · close = premium · 100; for a positive close the sign follows the premium |
| Indicators.Diff | data_combiner.py:212-213 | present iff both values are; diff + subtrahend = minuend |
| Indicators.VolumeDiffPct | data_combiner.py:242-244 | present iff the hourly mean is present and non-zero; pct · mean = (volume − mean) · 100; for a positive mean the sign says above or below |
| Indicators.CountPresentPositive | data_combiner.py:204 | some value is counted iff some value is present |
| Indicators.MeanOf | data_combiner.py:204-205 | a mean exists iff some value in the window is present (min_periods=1) |
| Indicators.Shift | data_combiner.py:199-200 | `shift(1)`: same length, the first value missing, each other value the previous row's |
| Indicators.WindowStartFrom | data_combiner.py:204 | the first row whose time lies within w of row i, scanning from `from` |
| Indicators.WindowMembers | data_combiner.py:204 | on ascending times, row j <= i is in row i's time window iff its time is less than w before row i's |
| Indicators.LagStart | data_combiner.py:199-204 | the shifted window starts at or before row i−1 |
| Indicators.MeanSkipsLeadingGap | data_combiner.py:199-205 | the missing value `shift(1)` puts first does not change the mean |
| Indicators.LaggedMeanIsLagged | data_combiner.py:197-211 | the rolling mean of the shifted series is the mean of the unshifted values from LagStart up to but excluding row i |
| Indicators.LaggedMeanIgnoresCurrent | data_combiner.py:197-211 | the current row's own value never affects its rolling mean |
| Indicators.LaggedMeanPresence | data_combiner.py:197-211 | row 0 has no mean; a later row whose predecessor has a value has one |
| Indicators.ConstantSum | data_combiner.py:204-205 | a window of copies of k counts every value and sums to n·k |
| Indicators.LaggedMeanConstant | data_combiner.py:197-211 | when every earlier value is k, the lagged mean is k |
| Indicators.MeanOfConstant | data_combiner.py:204-205 | the mean of a non-empty window of copies of k is k |
| Indicators.RowAt | data_combiner.py:247-276 | the output row keeps the row's time, market, Coinbase close, Binance close, premium % and volume |
| Indicators.ConstantPremiumHistory | data_combiner.py:197-213 | when every earlier premium is k, every window's mean is k and the current-vs-mean column is premium − k |
| Indicators.FirstRowHasNoMeans | data_combiner.py:197-244 | a market's first row has no premium mean, no volume mean and no volume deviation |
| Indicators.VolumeDeviation | data_combiner.py:216-244 | after the first row every volume mean is present, and the deviation's sign says whether the volume is above or below the hourly mean |
| Indicators.StrLeTotalPreorder | data_combiner.py:294 | the market order `groupby` uses is a total preorder |
| Indicators.Markets | data_combiner.py:294 | the group keys are exactly the markets present, each once |
| Indicators.Group | data_combiner.py:182 | a market's group is a permutation of that market's rows, sorted by time |
| Indicators.AppendedGroupsStep | data_combiner.py:296-302 | one more market of the loop appends that market's rows |
| Indicators.AppendedGroupsFlatten | data_combiner.py:294-302 | the loop's accumulation equals concatenating every market's rows in key order |
| Indicators.IndicatorLeTotal | data_combiner.py:335 | the (DateTime, Coin) order is a total preorder |
| Indicators.Calculated | data_combiner.py:335 | the result is sorted by (DateTime, Coin) and is a permutation of the concatenated groups |
| Indicators.GroupCoins | data_combiner.py:247-249 | every output row of a market's group carries that market as its coin |
| Indicators.CoinRowsOfGroups | data_combiner.py:294-302 | selecting one coin from the concatenation gives that market's rows, or none for an absent market |
| Indicators.AbsentMarketEmpty | data_combiner.py:294-302 | a market without rows contributes no output rows |
| Indicators.CoinRows | data_combiner.py:294-302 | a coin's output rows are exactly its own group's rows |
| Indicators.MarketIndependence | data_combiner.py:294-302 | a market's indicator rows depend only on that market's input rows |
| Indicators.Divisor | data_combiner.py:157-164 | every volume unit divides by a positive amount |
| Indicators.ConvertVolumeChoice | data_combiner.py:153-164 | a missing volume, and only a missing one, becomes NotANumber (the text "nan"); otherwise the unit is B, M, K or none exactly by the thresholds 1e9, 1e6, 1e3, and the amount times the unit's divisor is the value |
| Indicators.Minute | data_combiner.py:336 | `str(t)[:16]` truncates to the minute: m·60 <= t < m·60 + 60 |
| Indicators.MinuteMonotone | data_combiner.py:335-336 | truncation to the minute keeps the order of times |
| Indicators.IndicatorsOf | data_combiner.py:170-179 | a frame without the joined columns gives an empty frame with no columns, and only such a frame does |
| Indicators.IndicatorsOrdered | data_combiner.py:335-336 | the published table renders the sorted rows, so its DateTime never decreases |
| Publishing.RecordLeTotal | data_combiner.py:358 | the (DateTime, Coin) order of records is a total preorder |
| Publishing.SortedRecords | data_combiner.py:358 | the records sorted by (DateTime, Coin), a permutation of the input |
| Publishing.Later | data_combiner.py:361 | `last()` per column: the later value when present, otherwise the earlier one |
| Publishing.LastValues | data_combiner.py:360-361 | the per-coin record carries the coin, DateTime, Coinbase price, volume and the four volume means of the group's last row |
| Publishing.OverlayValue | data_combiner.py:360-361 | folding one more row in, each nullable column becomes the later value when present, otherwise the earlier one |
| Publishing.LastPresentValue | data_combiner.py:360-361 | a present column of the per-coin record holds the value of the last row where that column is present: every later row misses it |
| Publishing.CompleteColumns | data_combiner.py:363 | a record survives `dropna` iff every one of its eleven nullable columns is present |
| Publishing.LastCompleteWins | data_combiner.py:360-361 | when the last row is complete, the per-coin record is that row |
| Publishing.MissingEverywhere | data_combiner.py:360-363 | each of the eleven nullable columns of the per-coin record is missing iff it is missing in every row of the coin |
| Publishing.CoinRecord | data_combiner.py:360-363 | a kept per-coin record belongs to its coin and is complete |
| Publishing.PerCoin | data_combiner.py:360-363 | every kept record is complete and belongs to one of the coins |
| Publishing.PerCoinMember | data_combiner.py:360-363 | every kept record is the complete per-coin record of one of the coins |
| Publishing.PerCoinLast | data_combiner.py:360-363 | every kept record is complete and is `last()` of its coin's rows, which are not empty |
| Publishing.PerCoinOrdered | data_combiner.py:360-362 | on sorted distinct coins the records come one per coin, in coin order |
| Publishing.PerCoinIncludes | data_combiner.py:360-363 | every coin whose per-coin record is complete gets that record |
| Publishing.Deduped | data_combiner.py:358-359 | holds exactly the rows that are the last of their (Coin, DateTime) in the sorted table: one row per key, only original rows, sorted by (DateTime, Coin) |
| Publishing.DedupedKeeps | data_combiner.py:359 | a row whose (Coin, DateTime) no other row shares survives the deduplication |
| Publishing.Coins | data_combiner.py:360 | the group keys are sorted, distinct, and each is the coin of some row |
| Publishing.CoinListed | data_combiner.py:360 | every row's coin is a group key |
| Publishing.SelectedMember | data_combiner.py:357-364 | every posted record is complete, belongs to a coin of the table, and is `last()` of that coin's deduplicated rows |
| Publishing.CoinRecordSelected | data_combiner.py:357-364 | every coin whose per-coin record is complete has it posted |
| Publishing.SelectedExactly | data_combiner.py:357-364 | a record is posted iff it is the complete per-coin record of some coin |
| Publishing.SelectedOrdered | data_combiner.py:357-364 | what is posted is one record per coin, in coin order |
| Publishing.LatestIsLast | data_combiner.py:358-361 | in a time-sorted group, a row that every other row of its coin precedes is the last |
| Publishing.LatestCompletePublished | data_combiner.py:357-364 | a complete row strictly newer than every other row of its coin is posted |
| Publishing.Payload | data_combiner.py:350-376 | something is posted iff the table is the non-empty published table, and then it is the selection |
| Combiner.NormalizedIdempotent | data_combiner.py:55-58 | normalising a normalised header changes nothing |
| Combiner.DataCombiner.constructor | data_combiner.py:28-31 | `processed_data` starts as an empty frame with no columns |
| Combiner.DataCombiner.NormalizeColumnNames | data_combiner.py:55-58 | the header after normalisation is Normalized(header) |
| Combiner.DataCombiner.CheckDataTypes | data_combiner.py:60-69 | reports nothing iff every required column is present; otherwise reports the first absent one in required order |
| Combiner.DataCombiner.ValidateInputData | data_combiner.py:71-77 | Empty iff there are no rows or no columns; Valid iff non-empty and every required column is in the normalised header; a missing column is reported as required and absent |
| Combiner.DataCombiner.CombineData | data_combiner.py:88-151 | returns the join of the corrected preparation and stores it as `processed_data` |
| Combiner.DataCombiner.ConcatGroups | data_combiner.py:294-302 | the loop builds every market's rows, appended in key order |
| Combiner.DataCombiner.FormatRows | data_combiner.py:323-336 | every row rendered, in order |
| Combiner.DataCombiner.CalculateIndicators | data_combiner.py:166-337 | the result is IndicatorsOf(frame) |
| Combiner.DataCombiner.Run | data_combiner.py:378-396 | with the corrected preparation, `processed_data` ends as the empty join when the Coinbase store is empty, and otherwise as the indicator table of the join |
| Combiner.DataCombiner.SendToWebService | data_combiner.py:350-376 | posts Payload(processed_data): one complete record per coin, in coin order, or nothing |

## Left out

- Network I/O is not modelled. The HTTP sessions, `asyncio.gather`, the sleeps and their concurrency are replaced by a `fetch` function parameter. The coroutines of one batch run one after another, in list order.
- Logging and console output are not modelled, including the required-columns warning of `combine_data` (data_combiner.py:130-140), which only logs.
- CSV reading and writing is not modelled: a store file is a parameter, `Option<seq<Candle>>`. The text form of `candle_date_time_utc` and its `to_datetime` parsing are not modelled either: times are integer seconds from the start.
- `save_combined_data` and `save_processed_indicators` are not modelled: they only write CSV files.
- `_process_datetime` is not modelled: nothing calls it.
- The HTTP post of `send_to_web_service` and its status branch are not modelled. `Payload` is what would be posted.
- `main.py`, `web_server.py` and `test.py` are not part of this model.
- Floating point is not modelled: values are reals.
  - The `round(8)` and `round(2)` calls and the `.2f` text of the volume conversion are not modelled. `ConvertVolume` keeps the exact quotient and its unit.
  - A division by zero, which gives `inf` in pandas, is modelled as a missing value.
- Indicators.Premium: the absolute premium and the four "Premium Diff" and "Current Diff" columns are computed but not published, so `RowAt` carries only the percentage columns.
- Combiner.DataCombiner.CheckDataTypes: the value coercion (`to_numeric`, `astype(str)`) is not modelled. The model checks column presence only, over the header as a list of names.
- Combiner.DataCombiner.ValidateInputData: it takes the header and the row count instead of a frame. `df.empty` is modelled as "no rows or no columns".
- Combiner.DataCombiner.Run: `main` reads fixed file names. Here the two stores are parameters.
- Publishing.Payload: a non-empty frame that is still the joined table has no `DateTime` column. The source raises a `KeyError`, which it catches and logs, so nothing is posted. The model returns `None`.
- Malformed API responses are not modelled: too few fields, or values that are not numbers. Every raw candle is a well-formed tuple.
- Pandas' sort is not stable, so the order of rows with equal sort keys is unspecified. The model uses a stable insertion sort, and its contracts only rely on the sort's order and on it being a permutation.
- CoinbaseData.Gather: the granularity is a positive number. With granularity 0 the window never advances, so the source repeats the same request while it succeeds and stops at the first failure (get_data_coinbase.py:42-44).
- BinanceData.BinanceFetcher.FetchAllPairs: the per-pair results are passed as a ghost parameter, `PairResults(pairs, nowMs, fetch)`, so the loop can be related to the specification.
- Alignment.Combined: Coinbase rows without a Binance match stay in the join, with the Binance columns missing, because `merge_asof` is a left join.
- Indicators.LaggedMeanIsLagged: the lagged window of each rolling mean starts one row before the time window, because `shift(1)` moves a value into the window.
- Combiner.DataCombiner.CombineData: as written, `combine_data` raises at data_combiner.py:101 for every Coinbase store the fetcher writes, since that store has no `opening_price` column (see Findings). The model's combining, and every row about the join and the indicators, follows the corrected preparation.
- BinanceData.BinanceFetcher.FetchAllPairs: one `nowMs` serves every pair, while the source reads `datetime.now` once per pair (get_data_binance.py:78).
- BinanceData.BinanceFetcher.FetchWindows: the response is read before the rate-limit check of its request. Since `fetch` is a function of the request alone, this changes nothing.
- BinanceData.Throttled: the clock reading of a request is `clock(pair, k)`, indexed by pair and request number. A pair listed twice therefore reuses its clock readings.
- Text.Strip, Text.NormalizeColumnName and Text.Lower handle ASCII only. Stripping removes the ASCII white space and the separators U+001C-U+001F, as Python's `strip()` does, but not the non-ASCII white space (such as U+0085 or U+00A0) that `strip()` also removes. Lower-casing maps `A`-`Z` only, while `lower()` also lower-cases non-ASCII letters.

## Findings

| source | as written | input that shows it | evidently intended | confidence | as-written member | corrected member |
|---|---|---|---|---|---|---|
| get_data_binance.py:139 | returns the non-None results of the last batch's `results` only | six pairs that all return candles: six results are collected, one is returned | return the non-None results of every batch | not executed | BinanceData.LastBatchOnly | BinanceData.BinanceFetcher.FetchAllPairs |
| get_data_coinbase.py:122-123 | after writing the merged store, appends every collected row to it again | any save with collected candles and no file: each (market, time) is then in the file twice | write the merged, deduplicated store only | not executed | CoinbaseData.SaveAsWrittenDuplicates | CoinbaseData.MergeProperties |
| data_combiner.py:101 | drops `opening_price`, `high_price`, `low_price`, `market_type` from the Coinbase frame, and renames `close_price`/`volume` | the Coinbase store's own columns (get_data_coinbase.py:32-39) have no `opening_price`, so `drop` raises a KeyError and `combine_data` re-raises | read the store's `close` and `volume`, and drop its `low`, `high` and `open` | not executed | Columns.CoinbaseStoreRejected | Columns.CoinbaseStoreAccepted |
