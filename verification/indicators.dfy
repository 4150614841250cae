/**
 * `_calculate_indicators` (data_combiner.py): per market, the Coinbase
 * premium over Binance, its lagged rolling means over four time windows, the
 * lagged rolling means of the Coinbase volume and the volume deviation; then
 * the volume text, the final order and the minute rendering of the time.
 *
 * A time-based `rolling(window=w, min_periods=1).mean()` over `shift(1)` is
 * modelled by `LaggedMean`: for row i it averages the present values of the
 * shifted series over the rows whose time lies in (t_i - w, t_i].
 */
module Indicators {
  import opened Wrappers
  import opened Table
  import Ordering
  import opened Alignment

  /** The four windows `60min`, `1D`, `30D` and `365D`, in seconds. */
  const Hour: int := 3_600
  const Day: int := 86_400
  const Month: int := 30 * 86_400
  const Year: int := 365 * 86_400

  // ---- Row formulas -------------------------------------------------------

  /** `Coinbase Premium`: the Coinbase close minus the Binance close; missing without a Binance match. */
  function Premium(a: AlignedRow): (r: Option<real>)
    ensures r.Some? <==> a.binance.Some?
    ensures r.Some? ==> r.value + a.binance.value.close == a.closeCoinbase
  {
    match a.binance
    case None => None
    case Some(b) => Some(a.closeCoinbase - b.close)
  }

  lemma SignOfProduct(x: real, y: real)
    requires y > 0.0
    ensures x * y > 0.0 <==> x > 0.0
    ensures x * y < 0.0 <==> x < 0.0
  {
    if x > 0.0 {
      assert x * y > 0.0;
    } else if x < 0.0 {
      assert x * y < 0.0;
    }
  }

  /**
   * `Coinbase Premium %`: the premium as a percentage of the Binance close.
   * Missing without a Binance match, and for a zero Binance close.
   */
  function PremiumPct(a: AlignedRow): (r: Option<real>)
    ensures r.Some? <==> a.binance.Some? && a.binance.value.close != 0.0
    ensures r.Some? ==> r.value * a.binance.value.close == (a.closeCoinbase - a.binance.value.close) * 100.0
    ensures r.Some? && a.binance.value.close > 0.0 ==>
      (r.value > 0.0 <==> a.closeCoinbase > a.binance.value.close) && (r.value < 0.0 <==> a.closeCoinbase < a.binance.value.close)
  {
    match a.binance
    case None => None
    case Some(b) =>
      if b.close == 0.0 then None
      else
        var p := (a.closeCoinbase - b.close) / b.close * 100.0;
        assert p * b.close == (a.closeCoinbase - b.close) * 100.0;
        assert b.close > 0.0 ==> (p > 0.0 <==> p * b.close > 0.0) && (p < 0.0 <==> p * b.close < 0.0) by {
          if b.close > 0.0 {
            SignOfProduct(p, b.close);
          }
        }
        Some(p)
  }

  /** A difference of two columns: missing when either is. */
  function Diff(x: Option<real>, y: Option<real>): (r: Option<real>)
    ensures r.Some? <==> x.Some? && y.Some?
    ensures r.Some? ==> r.value + y.value == x.value
  {
    if x.Some? && y.Some? then Some(x.value - y.value) else None
  }

  /**
   * `Coinbase Volume Diff %`: how far the current volume lies above its
   * lagged hourly mean, in percent. Missing when the mean is missing or zero.
   */
  function VolumeDiffPct(volume: real, avg: Option<real>): (r: Option<real>)
    ensures r.Some? <==> avg.Some? && avg.value != 0.0
    ensures r.Some? ==> r.value * avg.value == (volume - avg.value) * 100.0
    ensures r.Some? && avg.value > 0.0 ==> (r.value > 0.0 <==> volume > avg.value) && (r.value < 0.0 <==> volume < avg.value)
  {
    if avg.Some? && avg.value != 0.0 then
      var d := (volume - avg.value) / avg.value * 100.0;
      assert d * avg.value == (volume - avg.value) * 100.0;
      assert avg.value > 0.0 ==> (d > 0.0 <==> d * avg.value > 0.0) && (d < 0.0 <==> d * avg.value < 0.0) by {
        if avg.value > 0.0 {
          SignOfProduct(d, avg.value);
        }
      }
      Some(d)
    else None
  }

  // ---- Lagged rolling means -----------------------------------------------

  function SumPresent(s: seq<Option<real>>): real
  {
    if s == [] then 0.0 else (if s[0].Some? then s[0].value else 0.0) + SumPresent(s[1..])
  }

  function CountPresent(s: seq<Option<real>>): nat
  {
    if s == [] then 0 else (if s[0].Some? then 1 else 0) + CountPresent(s[1..])
  }

  lemma {:induction false} CountPresentPositive(s: seq<Option<real>>)
    ensures CountPresent(s) > 0 <==> exists j :: 0 <= j < |s| && s[j].Some?
  {
    if s != [] {
      CountPresentPositive(s[1..]);
      if exists j :: 0 <= j < |s[1..]| && s[1..][j].Some? {
        var j :| 0 <= j < |s[1..]| && s[1..][j].Some?;
        assert s[j + 1].Some?;
      }
      if exists j :: 0 <= j < |s| && s[j].Some? {
        var j :| 0 <= j < |s| && s[j].Some?;
        if j > 0 {
          assert s[1..][j - 1].Some?;
        }
      }
    }
  }

  /** `mean()` with `min_periods=1`: the mean of the present values, missing when there are none. */
  function MeanOf(s: seq<Option<real>>): (r: Option<real>)
    ensures r.Some? <==> exists j :: 0 <= j < |s| && s[j].Some?
  {
    CountPresentPositive(s);
    if CountPresent(s) == 0 then None else Some(SumPresent(s) / CountPresent(s) as real)
  }

  /** `shift(1)`: every value moves one row later; the first row gets none. */
  function Shift(vals: seq<Option<real>>): (r: seq<Option<real>>)
    ensures |r| == |vals|
    ensures |r| > 0 ==> r[0] == None
    ensures forall j :: 1 <= j < |vals| ==> r[j] == vals[j - 1]
  {
    if vals == [] then [] else [None] + vals[..|vals| - 1]
  }

  ghost predicate Ascending(times: seq<int>)
  {
    forall a, b :: 0 <= a < b < |times| ==> times[a] <= times[b]
  }

  /** The first row, from `from` on, whose time lies within `w` before the time of row `i`. */
  function WindowStartFrom(times: seq<int>, i: nat, w: int, from: nat): (s: nat)
    requires from <= i < |times| && w > 0
    ensures from <= s <= i
    ensures times[i] - times[s] < w
    ensures forall j :: from <= j < s ==> times[i] - times[j] >= w
    decreases i - from
  {
    if times[i] - times[from] < w then from else WindowStartFrom(times, i, w, from + 1)
  }

  /** The first row of the window (t_i - w, t_i] that ends at row `i`. */
  function WindowStart(times: seq<int>, i: nat, w: int): nat
    requires i < |times| && w > 0
  {
    WindowStartFrom(times, i, w, 0)
  }

  /** On ascending times, the window holds exactly the rows up to `i` whose time is within `w` of row i's. */
  lemma WindowMembers(times: seq<int>, i: nat, w: int)
    requires i < |times| && w > 0 && Ascending(times)
    ensures forall j :: 0 <= j <= i ==> (WindowStart(times, i, w) <= j <==> times[i] - times[j] < w)
  {
    var s := WindowStart(times, i, w);
    forall j | s <= j <= i ensures times[i] - times[j] < w {
      assert times[s] <= times[j] || s == j;
    }
  }

  /** The shifted, time-windowed, `min_periods=1` mean at row `i`. */
  function LaggedMean(vals: seq<Option<real>>, times: seq<int>, i: nat, w: int): Option<real>
    requires |vals| == |times| && i < |times| && w > 0
  {
    MeanOf(Shift(vals)[WindowStart(times, i, w)..i + 1])
  }

  /** The first original row the lagged mean at row `i` averages: one before the window's first row. */
  function LagStart(times: seq<int>, i: nat, w: int): (lo: nat)
    requires i < |times| && w > 0
    ensures lo <= i && (i > 0 ==> lo <= i - 1)
  {
    var s := WindowStart(times, i, w);
    if s == 0 then 0 else s - 1
  }

  lemma MeanSkipsLeadingGap(s: seq<Option<real>>)
    ensures MeanOf([None] + s) == MeanOf(s)
  {
    assert ([None] + s)[1..] == s;
  }

  /**
   * The lagged mean at row `i` is the mean of the original values at rows
   * `LagStart` up to `i - 1`: row i's own value is never averaged, and row
   * i - 1's always is.
   */
  lemma LaggedMeanIsLagged(vals: seq<Option<real>>, times: seq<int>, i: nat, w: int)
    requires |vals| == |times| && i < |times| && w > 0
    ensures LaggedMean(vals, times, i, w) == MeanOf(vals[LagStart(times, i, w)..i])
  {
    var s := WindowStart(times, i, w);
    var shifted := Shift(vals)[s..i + 1];
    if s == 0 {
      assert shifted == [None] + vals[..i];
      MeanSkipsLeadingGap(vals[..i]);
      assert vals[0..i] == vals[..i];
    } else {
      assert shifted == vals[s - 1..i];
    }
  }

  /** Changing row i's own value leaves its lagged mean unchanged. */
  lemma LaggedMeanIgnoresCurrent(vals: seq<Option<real>>, times: seq<int>, i: nat, w: int, v: Option<real>)
    requires |vals| == |times| && i < |times| && w > 0
    ensures LaggedMean(vals[i := v], times, i, w) == LaggedMean(vals, times, i, w)
  {
    LaggedMeanIsLagged(vals, times, i, w);
    LaggedMeanIsLagged(vals[i := v], times, i, w);
    assert vals[i := v][LagStart(times, i, w)..i] == vals[LagStart(times, i, w)..i];
  }

  /** The first row has no lagged mean; a later row has one whenever the row before it has a value. */
  lemma LaggedMeanPresence(vals: seq<Option<real>>, times: seq<int>, i: nat, w: int)
    requires |vals| == |times| && i < |times| && w > 0
    ensures i == 0 ==> LaggedMean(vals, times, i, w).None?
    ensures i > 0 && vals[i - 1].Some? ==> LaggedMean(vals, times, i, w).Some?
  {
    LaggedMeanIsLagged(vals, times, i, w);
    var lo := LagStart(times, i, w);
    if i > 0 && vals[i - 1].Some? {
      assert vals[lo..i][i - 1 - lo].Some?;
    }
  }

  lemma {:induction false} ConstantSum(s: seq<Option<real>>, k: real)
    requires forall j :: 0 <= j < |s| ==> s[j] == Some(k)
    ensures CountPresent(s) == |s| && SumPresent(s) == |s| as real * k
  {
    if s != [] {
      ConstantSum(s[1..], k);
    }
  }

  /** When every earlier value is `k`, the lagged mean after the first row is `k`. */
  lemma LaggedMeanConstant(vals: seq<Option<real>>, times: seq<int>, i: nat, w: int, k: real)
    requires |vals| == |times| && 0 < i < |times| && w > 0
    requires forall j :: 0 <= j < i ==> vals[j] == Some(k)
    ensures LaggedMean(vals, times, i, w) == Some(k)
  {
    LaggedMeanIsLagged(vals, times, i, w);
    var lo := LagStart(times, i, w);
    var part := vals[lo..i];
    assert forall j :: 0 <= j < |part| ==> part[j] == Some(k) by {
      forall j | 0 <= j < |part| ensures part[j] == Some(k) {
        assert part[j] == vals[lo + j];
      }
    }
    MeanOfConstant(part, k);
  }

  /** The mean of a non-empty run of copies of `k` is `k`. */
  lemma MeanOfConstant(s: seq<Option<real>>, k: real)
    requires s != [] && forall j :: 0 <= j < |s| ==> s[j] == Some(k)
    ensures MeanOf(s) == Some(k)
  {
    ConstantSum(s, k);
    var n := |s| as real;
    assert n > 0.0 && SumPresent(s) == n * k && CountPresent(s) as real == n;
    MeanOfCopies(n, k);
  }

  lemma MeanOfCopies(n: real, k: real)
    requires n > 0.0
    ensures (n * k) / n == k
  {
  }

  // ---- One market ---------------------------------------------------------

  /** A premium mean over one window and `Current % {label}`, the premium minus it. */
  datatype Lagged = Lagged(avg: Option<real>, current: Option<real>)

  /** One row of the result of `calculate_for_group`. */
  datatype IndicatorRow = IndicatorRow(
    time: int,
    coin: string,
    priceCoinbase: real,
    priceBinance: Option<real>,
    premiumPct: Option<real>,
    hour: Lagged,
    day: Lagged,
    month: Lagged,
    year: Lagged,
    volume: real,
    avgVolumeHour: Option<real>,
    avgVolumeDay: Option<real>,
    avgVolumeMonth: Option<real>,
    avgVolumeYear: Option<real>,
    volumeDiffPct: Option<real>)

  function TimeOf(a: AlignedRow): int
  {
    a.timeCoinbase
  }

  function VolumeOf(a: AlignedRow): Option<real>
  {
    Some(a.volumeCoinbase)
  }

  function BinanceClose(a: AlignedRow): Option<real>
  {
    if a.binance.Some? then Some(a.binance.value.close) else None
  }

  /** The premium mean over window `w` at row `i` of the group `g`, and the current premium minus it. */
  function LaggedAt(g: seq<AlignedRow>, i: nat, w: int): Lagged
    requires i < |g| && w > 0
  {
    var avg := LaggedMean(Map(PremiumPct, g), Map(TimeOf, g), i, w);
    Lagged(avg, Diff(PremiumPct(g[i]), avg))
  }

  /** Row `i` of `calculate_for_group` on the time-sorted rows `g` of one market. */
  function RowAt(g: seq<AlignedRow>, i: nat): (r: IndicatorRow)
    requires i < |g|
    ensures r.time == g[i].timeCoinbase && r.coin == g[i].market
    ensures r.priceCoinbase == g[i].closeCoinbase && r.priceBinance == BinanceClose(g[i])
    ensures r.premiumPct == PremiumPct(g[i]) && r.volume == g[i].volumeCoinbase
  {
    var times := Map(TimeOf, g);
    var volumes := Map(VolumeOf, g);
    var avgVolumeHour := LaggedMean(volumes, times, i, Hour);
    IndicatorRow(
      g[i].timeCoinbase, g[i].market, g[i].closeCoinbase, BinanceClose(g[i]), PremiumPct(g[i]),
      LaggedAt(g, i, Hour), LaggedAt(g, i, Day), LaggedAt(g, i, Month), LaggedAt(g, i, Year),
      g[i].volumeCoinbase,
      avgVolumeHour, LaggedMean(volumes, times, i, Day), LaggedMean(volumes, times, i, Month), LaggedMean(volumes, times, i, Year),
      VolumeDiffPct(g[i].volumeCoinbase, avgVolumeHour))
  }

  /** `calculate_for_group`: one indicator row per row of the group, in the group's order. */
  function ForGroup(g: seq<AlignedRow>): (r: seq<IndicatorRow>)
    ensures |r| == |g| && forall i :: 0 <= i < |g| ==> r[i] == RowAt(g, i)
  {
    seq(|g|, i requires 0 <= i < |g| => RowAt(g, i))
  }

  /**
   * Row 0 of a market has no premium or volume means; when every earlier row
   * of the market has premium `k`, every window's mean is `k` and the current
   * premium minus it is the row's premium minus `k`.
   */
  lemma ConstantPremiumHistory(g: seq<AlignedRow>, i: nat, k: real)
    requires 0 < i < |g|
    requires forall j :: 0 <= j < i ==> PremiumPct(g[j]) == Some(k)
    ensures forall w :: w in {Hour, Day, Month, Year} ==> LaggedAt(g, i, w).avg == Some(k)
    ensures PremiumPct(g[i]).Some? ==>
      forall w :: w in {Hour, Day, Month, Year} ==> LaggedAt(g, i, w).current == Some(PremiumPct(g[i]).value - k)
  {
    forall w | w in {Hour, Day, Month, Year} ensures LaggedAt(g, i, w).avg == Some(k) {
      LaggedMeanConstant(Map(PremiumPct, g), Map(TimeOf, g), i, w, k);
    }
  }

  /** The first row of a market has no premium mean over any window and no volume mean. */
  lemma FirstRowHasNoMeans(g: seq<AlignedRow>)
    requires g != []
    ensures RowAt(g, 0).hour.avg.None? && RowAt(g, 0).day.avg.None? && RowAt(g, 0).month.avg.None? && RowAt(g, 0).year.avg.None?
    ensures RowAt(g, 0).avgVolumeHour.None? && RowAt(g, 0).volumeDiffPct.None?
  {
    var times := Map(TimeOf, g);
    LaggedMeanPresence(Map(PremiumPct, g), times, 0, Hour);
    LaggedMeanPresence(Map(PremiumPct, g), times, 0, Day);
    LaggedMeanPresence(Map(PremiumPct, g), times, 0, Month);
    LaggedMeanPresence(Map(PremiumPct, g), times, 0, Year);
    LaggedMeanPresence(Map(VolumeOf, g), times, 0, Hour);
  }

  /** After the first row every volume mean is present, and the deviation compares the volume with the hourly mean. */
  lemma VolumeDeviation(g: seq<AlignedRow>, i: nat)
    requires 0 < i < |g|
    ensures RowAt(g, i).avgVolumeHour.Some? && RowAt(g, i).avgVolumeDay.Some?
    ensures RowAt(g, i).avgVolumeMonth.Some? && RowAt(g, i).avgVolumeYear.Some?
    ensures RowAt(g, i).avgVolumeHour.value > 0.0 ==>
      var r := RowAt(g, i);
      r.volumeDiffPct.Some? && (r.volumeDiffPct.value > 0.0 <==> r.volume > r.avgVolumeHour.value)
      && (r.volumeDiffPct.value < 0.0 <==> r.volume < r.avgVolumeHour.value)
  {
    var times := Map(TimeOf, g);
    var volumes := Map(VolumeOf, g);
    LaggedMeanPresence(volumes, times, i, Hour);
    LaggedMeanPresence(volumes, times, i, Day);
    LaggedMeanPresence(volumes, times, i, Month);
    LaggedMeanPresence(volumes, times, i, Year);
  }

  // ---- All markets --------------------------------------------------------

  predicate TimeLe(a: AlignedRow, b: AlignedRow)
  {
    a.timeCoinbase <= b.timeCoinbase
  }

  function InMarket(m: string): AlignedRow -> bool
  {
    (a: AlignedRow) => a.market == m
  }

  function MarketOf(a: AlignedRow): string
  {
    a.market
  }

  lemma StrLeTotalPreorder()
    ensures TotalPreorder(Ordering.StrLe)
  {
    forall a, b ensures Ordering.StrLe(a, b) || Ordering.StrLe(b, a) {
      Ordering.StrLeTotal(a, b);
    }
    forall a, b, c | Ordering.StrLe(a, b) && Ordering.StrLe(b, c) ensures Ordering.StrLe(a, c) {
      Ordering.StrLeTransitive(a, b, c);
    }
  }

  /** `df.groupby('market')`'s keys, in its (sorted) order. */
  function Markets(rows: seq<AlignedRow>): (ms: seq<string>)
    ensures forall m :: m in ms <==> exists a :: a in rows && a.market == m
    ensures Distinct(ms)
  {
    StrLeTotalPreorder();
    var ms := SortedDistinct(Map(MarketOf, rows), Ordering.StrLe);
    assert forall m :: m in ms <==> exists a :: a in rows && a.market == m by {
      forall m ensures m in ms <==> exists a :: a in rows && a.market == m {
        if m in ms {
          var j :| 0 <= j < |rows| && Map(MarketOf, rows)[j] == m;
          assert rows[j] in rows;
        }
        if exists a :: a in rows && a.market == m {
          var a :| a in rows && a.market == m;
          var j :| 0 <= j < |rows| && rows[j] == a;
          assert Map(MarketOf, rows)[j] == m;
        }
      }
    }
    ms
  }

  /** The group of market `m`: its rows, sorted by Coinbase time. */
  function Group(rows: seq<AlignedRow>, m: string): (g: seq<AlignedRow>)
    ensures multiset(g) == multiset(Filter(rows, InMarket(m)))
    ensures forall a :: a in g ==> a.market == m
    ensures Ascending(Map(TimeOf, g))
  {
    assert TotalPreorder(TimeLe);
    var g := SortBy(Filter(rows, InMarket(m)), TimeLe);
    assert forall a :: a in g ==> a.market == m by {
      forall a | a in g ensures a.market == m {
        assert a in multiset(g);
        assert a in Filter(rows, InMarket(m));
        assert InMarket(m)(a);
      }
    }
    g
  }

  /** The indicator rows of market `m`. */
  function GroupIndicators(rows: seq<AlignedRow>): string -> seq<IndicatorRow>
  {
    m => ForGroup(Group(rows, m))
  }

  /** The rows of the markets `ms`, one market after another, as the loop over the groups appends them. */
  function AppendedGroups(rows: seq<AlignedRow>, ms: seq<string>): seq<IndicatorRow>
    decreases |ms|
  {
    if ms == [] then [] else AppendedGroups(rows, ms[..|ms| - 1]) + ForGroup(Group(rows, ms[|ms| - 1]))
  }

  /** One more market's rows appended at the end. */
  lemma AppendedGroupsStep(rows: seq<AlignedRow>, ms: seq<string>, k: nat)
    requires k < |ms|
    ensures AppendedGroups(rows, ms[..k + 1]) == AppendedGroups(rows, ms[..k]) + ForGroup(Group(rows, ms[k]))
  {
    assert ms[..k + 1][..k] == ms[..k];
  }

  /** Appending the groups one by one builds the concatenation of the mapped groups. */
  lemma {:induction false} AppendedGroupsFlatten(rows: seq<AlignedRow>, ms: seq<string>)
    ensures AppendedGroups(rows, ms) == Flatten(Map(GroupIndicators(rows), ms))
    decreases |ms|
  {
    if ms != [] {
      var k := |ms| - 1;
      AppendedGroupsFlatten(rows, ms[..k]);
      FlattenMapStep(GroupIndicators(rows), ms, k);
      assert ms[..k + 1] == ms;
    }
  }

  /** `result_df` after the loop over the groups: the groups' rows one market after another. */
  function Concatenated(rows: seq<AlignedRow>): seq<IndicatorRow>
  {
    AppendedGroups(rows, Markets(rows))
  }

  /** The final order: by time, then coin. */
  predicate IndicatorLe(a: IndicatorRow, b: IndicatorRow)
  {
    Ordering.IntStrLe(a.time, a.coin, b.time, b.coin)
  }

  lemma IndicatorLeTotal()
    ensures TotalPreorder(IndicatorLe)
  {
    forall a, b ensures IndicatorLe(a, b) || IndicatorLe(b, a) {
      Ordering.IntStrLeTotal(a.time, a.coin, b.time, b.coin);
    }
    forall a, b, c | IndicatorLe(a, b) && IndicatorLe(b, c) ensures IndicatorLe(a, c) {
      Ordering.IntStrLeTransitive(a.time, a.coin, b.time, b.coin, c.time, c.coin);
    }
  }

  /** The indicator rows of all markets, sorted by (time, coin), before formatting. */
  function Calculated(rows: seq<AlignedRow>): (r: seq<IndicatorRow>)
    ensures Sorted(r, IndicatorLe)
    ensures multiset(r) == multiset(Concatenated(rows))
  {
    IndicatorLeTotal();
    SortBy(Concatenated(rows), IndicatorLe)
  }

  function HasCoin(m: string): IndicatorRow -> bool
  {
    (r: IndicatorRow) => r.coin == m
  }

  lemma {:induction false} FilterAll<T(!new)>(s: seq<T>, p: T -> bool)
    requires forall x :: x in s ==> p(x)
    ensures Filter(s, p) == s
  {
    if s != [] {
      assert forall x :: x in s[1..] ==> x in s;
      FilterAll(s[1..], p);
      assert s == [s[0]] + s[1..];
    }
  }

  lemma {:induction false} FilterNone<T(!new)>(s: seq<T>, p: T -> bool)
    requires forall x :: x in s ==> !p(x)
    ensures Filter(s, p) == []
  {
    if s != [] {
      assert forall x :: x in s[1..] ==> x in s;
      FilterNone(s[1..], p);
    }
  }

  /** Every indicator row of market `m`'s group has coin `m`. */
  lemma GroupCoins(rows: seq<AlignedRow>, m: string)
    ensures forall r :: r in ForGroup(Group(rows, m)) ==> r.coin == m
  {
    var g := Group(rows, m);
    forall r | r in ForGroup(g) ensures r.coin == m {
      var i :| 0 <= i < |g| && ForGroup(g)[i] == r;
      assert g[i] in g;
    }
  }

  lemma FlattenMapCons(f: string -> seq<IndicatorRow>, ms: seq<string>)
    requires ms != []
    ensures Flatten(Map(f, ms)) == f(ms[0]) + Flatten(Map(f, ms[1..]))
  {
    assert Map(f, ms)[1..] == Map(f, ms[1..]);
  }

  lemma DistinctTail(ms: seq<string>)
    requires ms != [] && Distinct(ms)
    ensures Distinct(ms[1..]) && ms[0] !in ms[1..]
    ensures forall m :: m in ms <==> m == ms[0] || m in ms[1..]
  {
    assert ms == [ms[0]] + ms[1..];
    forall j | 0 <= j < |ms[1..]| ensures ms[1..][j] != ms[0] {
      assert ms[j + 1] != ms[0];
    }
  }

  /** The rows of coin `m` in a concatenation of distinct markets' groups are exactly `m`'s group, if `m` is among them. */
  lemma {:induction false} CoinRowsOfGroups(rows: seq<AlignedRow>, ms: seq<string>, m: string)
    requires Distinct(ms)
    ensures Filter(Flatten(Map(GroupIndicators(rows), ms)), HasCoin(m)) == if m in ms then ForGroup(Group(rows, m)) else []
  {
    var f := GroupIndicators(rows);
    if ms != [] {
      FlattenMapCons(f, ms);
      var head := ForGroup(Group(rows, ms[0]));
      assert f(ms[0]) == head;
      FilterAppend(head, Flatten(Map(f, ms[1..])), HasCoin(m));
      GroupCoins(rows, ms[0]);
      if ms[0] == m {
        FilterAll(head, HasCoin(m));
      } else {
        FilterNone(head, HasCoin(m));
      }
      DistinctTail(ms);
      CoinRowsOfGroups(rows, ms[1..], m);
    }
  }

  /** A market without rows has no indicator rows. */
  lemma AbsentMarketEmpty(rows: seq<AlignedRow>, m: string)
    requires forall a :: a in rows ==> a.market != m
    ensures ForGroup(Group(rows, m)) == []
  {
    FilterNone(rows, InMarket(m));
    assert |multiset(Group(rows, m))| == 0;
  }

  /** The rows of coin `m` in the result are those computed from market `m`'s group alone, in some order. */
  lemma CoinRows(rows: seq<AlignedRow>, m: string)
    ensures multiset(Filter(Calculated(rows), HasCoin(m))) == multiset(ForGroup(Group(rows, m)))
  {
    FilterPermutation(Calculated(rows), Concatenated(rows), HasCoin(m));
    AppendedGroupsFlatten(rows, Markets(rows));
    CoinRowsOfGroups(rows, Markets(rows), m);
    if m !in Markets(rows) {
      AbsentMarketEmpty(rows, m);
    }
  }

  /** Markets are computed independently: two inputs with the same rows for market `m` give the same rows for coin `m`. */
  lemma MarketIndependence(rows1: seq<AlignedRow>, rows2: seq<AlignedRow>, m: string)
    requires Filter(rows1, InMarket(m)) == Filter(rows2, InMarket(m))
    ensures multiset(Filter(Calculated(rows1), HasCoin(m))) == multiset(Filter(Calculated(rows2), HasCoin(m)))
  {
    CoinRows(rows1, m);
    CoinRows(rows2, m);
  }

  // ---- Formatting ---------------------------------------------------------

  datatype VolumeUnit = Billions | Millions | Thousands | Units

  /** A volume as `_convert_volume` writes it: an amount and its suffix, or `nan` for a missing value. */
  datatype VolumeText = Scaled(amount: real, unit: VolumeUnit) | NotANumber

  function Divisor(u: VolumeUnit): (d: real)
    ensures d > 0.0
  {
    match u
    case Billions => 1_000_000_000.0
    case Millions => 1_000_000.0
    case Thousands => 1_000.0
    case Units => 1.0
  }

  /** `_convert_volume`: the largest suffix whose threshold the value reaches; a missing value becomes the text `nan`. */
  function ConvertVolume(v: Option<real>): VolumeText
  {
    match v
    case None => NotANumber
    case Some(x) =>
      var u := if x >= 1_000_000_000.0 then Billions else if x >= 1_000_000.0 then Millions else if x >= 1_000.0 then Thousands else Units;
      Scaled(x / Divisor(u), u)
  }

  /** The suffix `_convert_volume` picks, by threshold, and the amount that, scaled back, is the value. */
  lemma ConvertVolumeChoice(v: Option<real>)
    ensures var t := ConvertVolume(v);
      && (t.NotANumber? <==> v.None?)
      && (t.Scaled? ==> t.amount * Divisor(t.unit) == v.value)
      && (t.Scaled? ==> (t.unit == Billions <==> v.value >= 1_000_000_000.0))
      && (t.Scaled? ==> (t.unit == Millions <==> 1_000_000.0 <= v.value < 1_000_000_000.0))
      && (t.Scaled? ==> (t.unit == Thousands <==> 1_000.0 <= v.value < 1_000_000.0))
      && (t.Scaled? ==> (t.unit == Units <==> v.value < 1_000.0))
  {
  }

  /** `str(x)[:16]` of a timestamp: the time truncated to whole minutes. */
  function Minute(t: int): (m: int)
    ensures m * 60 <= t < m * 60 + 60
  {
    t / 60
  }

  lemma MinuteMonotone(t1: int, t2: int)
    requires t1 <= t2
    ensures Minute(t1) <= Minute(t2)
  {
  }

  /** One row of the published table: `DateTime` in minutes, volumes as text. */
  datatype Record = Record(
    dateTime: int,
    coin: string,
    priceCoinbase: real,
    priceBinance: Option<real>,
    premiumPct: Option<real>,
    hour: Lagged,
    day: Lagged,
    month: Lagged,
    year: Lagged,
    volume: VolumeText,
    avgVolumeHour: VolumeText,
    avgVolumeDay: VolumeText,
    avgVolumeMonth: VolumeText,
    avgVolumeYear: VolumeText,
    volumeDiffPct: Option<real>)

  /** The volume conversion and the minute rendering of one row; the other columns carry over. */
  function Render(r: IndicatorRow): Record
  {
    Record(
      Minute(r.time), r.coin, r.priceCoinbase, r.priceBinance, r.premiumPct,
      r.hour, r.day, r.month, r.year,
      ConvertVolume(Some(r.volume)), ConvertVolume(r.avgVolumeHour), ConvertVolume(r.avgVolumeDay),
      ConvertVolume(r.avgVolumeMonth), ConvertVolume(r.avgVolumeYear),
      r.volumeDiffPct)
  }

  /** A frame as the class holds it: no columns at all, the joined table, or the published indicators. */
  datatype Frame = NoColumns | Joined(rows: seq<AlignedRow>) | Published(records: seq<Record>)

  /** `_calculate_indicators` on a whole frame: only the joined table has the columns it needs. */
  function IndicatorsOf(frame: Frame): (r: Frame)
    ensures !frame.Joined? <==> r == NoColumns
  {
    match frame
    case Joined(rows) => Published(Map(Render, Calculated(rows)))
    case _ => NoColumns
  }

  /** The published table keeps the (time, coin) order of the rows it renders, so its `DateTime` never decreases. */
  lemma IndicatorsOrdered(rows: seq<AlignedRow>)
    ensures IndicatorsOf(Joined(rows)).records == Map(Render, Calculated(rows))
    ensures var p := IndicatorsOf(Joined(rows)).records;
      forall i, j :: 0 <= i < j < |p| ==> p[i].dateTime <= p[j].dateTime
  {
    var c := Calculated(rows);
    forall i, j | 0 <= i < j < |c|
      ensures Minute(c[i].time) <= Minute(c[j].time)
    {
      assert IndicatorLe(c[i], c[j]);
      MinuteMonotone(c[i].time, c[j].time);
    }
  }
}
