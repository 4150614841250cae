/**
 * The row selection of `send_to_web_service` (data_combiner.py): the
 * published table sorted by (DateTime, Coin), duplicates of (Coin, DateTime)
 * dropped keeping the last, one record per coin holding each column's last
 * present value (`groupby('Coin').last()`), and the records with a missing
 * column dropped (`dropna()`).
 */
module Publishing {
  import opened Wrappers
  import opened Table
  import Ordering
  import opened Indicators

  predicate RecordLe(a: Record, b: Record)
  {
    Ordering.IntStrLe(a.dateTime, a.coin, b.dateTime, b.coin)
  }

  lemma RecordLeTotal()
    ensures TotalPreorder(RecordLe)
  {
    forall a, b ensures RecordLe(a, b) || RecordLe(b, a) {
      Ordering.IntStrLeTotal(a.dateTime, a.coin, b.dateTime, b.coin);
    }
    forall a, b, c | RecordLe(a, b) && RecordLe(b, c) ensures RecordLe(a, c) {
      Ordering.IntStrLeTransitive(a.dateTime, a.coin, b.dateTime, b.coin, c.dateTime, c.coin);
    }
  }

  function RecordKey(r: Record): (string, int)
  {
    (r.coin, r.dateTime)
  }

  /** A column's value after one more row: the new row's, unless it is missing there. */
  function Later<T>(earlier: Option<T>, later: Option<T>): (r: Option<T>)
    ensures r.Some? <==> earlier.Some? || later.Some?
    ensures later.Some? ==> r == later
    ensures later.None? ==> r == earlier
  {
    if later.Some? then later else earlier
  }

  function LaterLagged(earlier: Lagged, later: Lagged): Lagged
  {
    Lagged(Later(earlier.avg, later.avg), Later(earlier.current, later.current))
  }

  /** One more row of a coin's group folded into `last()`: each column's value from `r` unless it is missing there. */
  function Overlay(acc: Record, r: Record): Record
  {
    Record(
      r.dateTime, r.coin, r.priceCoinbase,
      Later(acc.priceBinance, r.priceBinance), Later(acc.premiumPct, r.premiumPct),
      LaterLagged(acc.hour, r.hour), LaterLagged(acc.day, r.day),
      LaterLagged(acc.month, r.month), LaterLagged(acc.year, r.year),
      r.volume, r.avgVolumeHour, r.avgVolumeDay, r.avgVolumeMonth, r.avgVolumeYear,
      Later(acc.volumeDiffPct, r.volumeDiffPct))
  }

  /**
   * `groupby('Coin').last()` for one coin's rows: every column's last present
   * value. The coin, the time, the Coinbase price and the volume columns are
   * never missing, so they come from the last row.
   */
  function LastValues(g: seq<Record>): (r: Record)
    requires g != []
    ensures var z := g[|g| - 1];
      && r.coin == z.coin && r.dateTime == z.dateTime && r.priceCoinbase == z.priceCoinbase
      && r.volume == z.volume && r.avgVolumeHour == z.avgVolumeHour && r.avgVolumeDay == z.avgVolumeDay
      && r.avgVolumeMonth == z.avgVolumeMonth && r.avgVolumeYear == z.avgVolumeYear
    decreases |g|
  {
    if |g| == 1 then g[0] else Overlay(LastValues(g[..|g| - 1]), g[|g| - 1])
  }

  /** The columns of the posted record that can be missing (NaN). */
  datatype NullableColumn =
    | PriceBinance | PremiumPct
    | HourAvg | HourCurrent | DayAvg | DayCurrent
    | MonthAvg | MonthCurrent | YearAvg | YearCurrent
    | VolumeDiffPct

  /** The value of column `c` in `r`, or `None` when it is missing. */
  function ValueIn(r: Record, c: NullableColumn): Option<real>
  {
    match c
    case PriceBinance => r.priceBinance
    case PremiumPct => r.premiumPct
    case HourAvg => r.hour.avg
    case HourCurrent => r.hour.current
    case DayAvg => r.day.avg
    case DayCurrent => r.day.current
    case MonthAvg => r.month.avg
    case MonthCurrent => r.month.current
    case YearAvg => r.year.avg
    case YearCurrent => r.year.current
    case VolumeDiffPct => r.volumeDiffPct
  }

  /** Folding one more row keeps each column's new value unless it is missing there. */
  lemma OverlayValue(acc: Record, r: Record, c: NullableColumn)
    ensures ValueIn(Overlay(acc, r), c) == Later(ValueIn(acc, c), ValueIn(r, c))
  {
  }

  predicate LaggedComplete(l: Lagged)
  {
    l.avg.Some? && l.current.Some?
  }

  /** No column is missing: the rows `dropna()` keeps. The volume columns are text and never missing. */
  predicate Complete(r: Record)
  {
    && r.priceBinance.Some? && r.premiumPct.Some?
    && LaggedComplete(r.hour) && LaggedComplete(r.day) && LaggedComplete(r.month) && LaggedComplete(r.year)
    && r.volumeDiffPct.Some?
  }

  /** A record is complete exactly when none of its nullable columns is missing. */
  lemma CompleteColumns(r: Record)
    ensures Complete(r) <==> forall c :: ValueIn(r, c).Some?
  {
    if !Complete(r) {
      if r.priceBinance.None? { assert ValueIn(r, PriceBinance).None?; }
      else if r.premiumPct.None? { assert ValueIn(r, PremiumPct).None?; }
      else if r.hour.avg.None? { assert ValueIn(r, HourAvg).None?; }
      else if r.hour.current.None? { assert ValueIn(r, HourCurrent).None?; }
      else if r.day.avg.None? { assert ValueIn(r, DayAvg).None?; }
      else if r.day.current.None? { assert ValueIn(r, DayCurrent).None?; }
      else if r.month.avg.None? { assert ValueIn(r, MonthAvg).None?; }
      else if r.month.current.None? { assert ValueIn(r, MonthCurrent).None?; }
      else if r.year.avg.None? { assert ValueIn(r, YearAvg).None?; }
      else if r.year.current.None? { assert ValueIn(r, YearCurrent).None?; }
      else { assert ValueIn(r, VolumeDiffPct).None?; }
    }
  }

  /** A complete row replaces every column of what came before. */
  lemma LastCompleteWins(g: seq<Record>)
    requires g != [] && Complete(g[|g| - 1])
    ensures LastValues(g) == g[|g| - 1]
  {
  }

  /** A column of the per-coin record is missing exactly when it is missing in every row of the coin. */
  lemma {:induction false} MissingEverywhere(g: seq<Record>, c: NullableColumn)
    requires g != []
    ensures ValueIn(LastValues(g), c).None? <==> forall i :: 0 <= i < |g| ==> ValueIn(g[i], c).None?
    decreases |g|
  {
    if |g| > 1 {
      var init := g[..|g| - 1];
      MissingEverywhere(init, c);
      OverlayValue(LastValues(init), g[|g| - 1], c);
      assert forall i :: 0 <= i < |g| - 1 ==> g[i] == init[i];
    }
  }

  /**
   * A column present in the per-coin record holds the value of the last row
   * where that column is present: row `k` has it, and every later row lacks it.
   */
  lemma {:induction false} LastPresentValue(g: seq<Record>, c: NullableColumn)
    requires g != [] && ValueIn(LastValues(g), c).Some?
    ensures exists k ::
      && 0 <= k < |g|
      && ValueIn(g[k], c) == ValueIn(LastValues(g), c)
      && forall m :: k < m < |g| ==> ValueIn(g[m], c).None?
    decreases |g|
  {
    var z := g[|g| - 1];
    if ValueIn(z, c).Some? {
      if |g| > 1 {
        OverlayValue(LastValues(g[..|g| - 1]), z, c);
      }
      assert ValueIn(g[|g| - 1], c) == ValueIn(LastValues(g), c);
    } else {
      var init := g[..|g| - 1];
      OverlayValue(LastValues(init), z, c);
      LastPresentValue(init, c);
      var k :|
        && 0 <= k < |init|
        && ValueIn(init[k], c) == ValueIn(LastValues(init), c)
        && forall m :: k < m < |init| ==> ValueIn(init[m], c).None?;
      assert g[k] == init[k];
      assert forall m :: k < m < |g| ==> ValueIn(g[m], c).None? by {
        forall m | k < m < |g| ensures ValueIn(g[m], c).None? {
          if m < |g| - 1 {
            assert g[m] == init[m];
          }
        }
      }
    }
  }

  function CoinOf(r: Record): string
  {
    r.coin
  }

  function WithCoin(c: string): Record -> bool
  {
    (r: Record) => r.coin == c
  }

  /** The record `last().dropna()` keeps for coin `c`, if any. */
  function CoinRecord(deduped: seq<Record>, c: string): (r: Option<Record>)
    ensures r.Some? ==> r.value.coin == c && Complete(r.value)
  {
    var g := Filter(deduped, WithCoin(c));
    if g != [] && Complete(LastValues(g)) then
      assert g[|g| - 1] in g;
      Some(LastValues(g))
    else None
  }

  /** The complete per-coin records of the coins `cs`, in their order. */
  function PerCoin(deduped: seq<Record>, cs: seq<string>): (r: seq<Record>)
    ensures forall x :: x in r ==> Complete(x) && x.coin in cs
  {
    if cs == [] then []
    else
      var rest := PerCoin(deduped, cs[1..]);
      match CoinRecord(deduped, cs[0])
      case Some(x) => [x] + rest
      case None => rest
  }

  /** `a`'s coin comes strictly before `b`'s in `groupby`'s order. */
  predicate CoinBefore(a: Record, b: Record)
  {
    a.coin != b.coin && Ordering.StrLe(a.coin, b.coin)
  }

  /** One record per coin, in coin order. */
  ghost predicate OnePerCoin(r: seq<Record>)
  {
    forall i, j :: 0 <= i < j < |r| ==> CoinBefore(r[i], r[j])
  }

  /** On sorted distinct coins, the per-coin records come one per coin, in coin order. */
  lemma {:induction false} PerCoinOrdered(deduped: seq<Record>, cs: seq<string>)
    requires Sorted(cs, Ordering.StrLe) && Distinct(cs)
    ensures OnePerCoin(PerCoin(deduped, cs))
  {
    if cs != [] {
      var tail := cs[1..];
      assert Sorted(tail, Ordering.StrLe);
      assert Distinct(tail);
      PerCoinOrdered(deduped, tail);
      var rest := PerCoin(deduped, tail);
      var r := PerCoin(deduped, cs);
      forall y | y in rest ensures y.coin != cs[0] && Ordering.StrLe(cs[0], y.coin) {
        var k :| 0 <= k < |tail| && tail[k] == y.coin;
        assert cs[k + 1] == y.coin;
      }
      if CoinRecord(deduped, cs[0]).Some? {
        assert r == [CoinRecord(deduped, cs[0]).value] + rest;
        assert r[0].coin == cs[0];
        forall i, j | 0 <= i < j < |r| ensures CoinBefore(r[i], r[j]) {
          assert r[j] == rest[j - 1];
          if i > 0 {
            assert r[i] == rest[i - 1];
            assert CoinBefore(rest[i - 1], rest[j - 1]);
          } else {
            assert r[j] in rest;
          }
        }
      }
    }
  }

  /** Every coin among `cs` whose per-coin record is complete gets that record. */
  lemma {:induction false} PerCoinIncludes(deduped: seq<Record>, cs: seq<string>, c: string)
    requires c in cs
    requires CoinRecord(deduped, c).Some?
    ensures CoinRecord(deduped, c).value in PerCoin(deduped, cs)
  {
    if cs[0] != c {
      assert c in cs[1..] by {
        assert cs == [cs[0]] + cs[1..];
      }
      PerCoinIncludes(deduped, cs[1..], c);
    }
  }

  /** `sort_values(['DateTime', 'Coin'])`: the same rows, sorted by (DateTime, Coin). */
  function SortedRecords(records: seq<Record>): (r: seq<Record>)
    ensures Sorted(r, RecordLe)
    ensures multiset(r) == multiset(records)
  {
    RecordLeTotal();
    SortBy(records, RecordLe)
  }

  /**
   * The table sorted by (DateTime, Coin) with the last row of each (Coin,
   * DateTime) kept: sorted, one row per key, and a row stays exactly when it is
   * the last sorted row with its key.
   */
  function Deduped(records: seq<Record>): (r: seq<Record>)
    ensures forall x :: x in r <==> LastOf(SortedRecords(records), RecordKey(x), RecordKey) == Some(x)
    ensures UniqueKeys(r, RecordKey)
    ensures forall x :: x in r ==> x in records
    ensures Sorted(r, RecordLe)
  {
    var sorted := SortedRecords(records);
    RecordLeTotal();
    DedupLastSorted(sorted, RecordKey, RecordLe);
    var r := DedupLast(sorted, RecordKey);
    assert forall x :: x in r ==> x in records by {
      forall x | x in r ensures x in records {
        assert x in sorted;
        assert x in multiset(sorted);
      }
    }
    r
  }

  /** A row whose (Coin, DateTime) no other row shares survives the deduplication. */
  lemma DedupedKeeps(records: seq<Record>, x: Record)
    requires x in records
    requires forall y :: y in records && y.coin == x.coin && y.dateTime == x.dateTime ==> y == x
    ensures x in Deduped(records)
  {
    var sorted := SortedRecords(records);
    assert x in sorted by {
      assert x in multiset(records);
    }
    var last := LastOf(sorted, RecordKey(x), RecordKey);
    assert last.value in multiset(sorted);
    assert last == Some(x);
  }

  /** The coins of the table, in `groupby`'s sorted order. */
  function Coins(deduped: seq<Record>): (r: seq<string>)
    ensures Sorted(r, Ordering.StrLe) && Distinct(r)
    ensures forall c :: c in r ==> exists k :: 0 <= k < |deduped| && deduped[k].coin == c
  {
    StrLeTotalPreorder();
    var r := SortedDistinct(Map(CoinOf, deduped), Ordering.StrLe);
    assert forall c :: c in r ==> exists k :: 0 <= k < |deduped| && deduped[k].coin == c by {
      forall c | c in r ensures exists k :: 0 <= k < |deduped| && deduped[k].coin == c {
        var k :| 0 <= k < |deduped| && Map(CoinOf, deduped)[k] == c;
      }
    }
    r
  }

  lemma CoinListed(deduped: seq<Record>, k: nat)
    requires k < |deduped|
    ensures deduped[k].coin in Coins(deduped)
  {
    assert Map(CoinOf, deduped)[k] == deduped[k].coin;
  }

  /** The records `send_to_web_service` posts, from the published table. */
  function Selected(records: seq<Record>): seq<Record>
  {
    var deduped := Deduped(records);
    PerCoin(deduped, Coins(deduped))
  }

  /** Every record among the per-coin records of `cs` is the complete record of one of the coins `cs`. */
  lemma {:induction false} PerCoinMember(deduped: seq<Record>, cs: seq<string>, x: Record)
    requires x in PerCoin(deduped, cs)
    ensures exists c :: c in cs && CoinRecord(deduped, c) == Some(x)
  {
    var rest := PerCoin(deduped, cs[1..]);
    if CoinRecord(deduped, cs[0]) == Some(x) {
      assert cs[0] in cs;
    } else {
      assert x in rest;
      PerCoinMember(deduped, cs[1..], x);
      var c :| c in cs[1..] && CoinRecord(deduped, c) == Some(x);
      assert c in cs;
    }
  }

  /** Each per-coin record is the complete `last()` record of its coin's rows, which are not empty. */
  lemma PerCoinLast(deduped: seq<Record>, cs: seq<string>, x: Record)
    requires x in PerCoin(deduped, cs)
    ensures Complete(x)
    ensures exists y :: y in deduped && y.coin == x.coin
    ensures var g := Filter(deduped, WithCoin(x.coin)); g != [] && x == LastValues(g)
  {
    PerCoinMember(deduped, cs, x);
    var c :| c in cs && CoinRecord(deduped, c) == Some(x);
    var g := Filter(deduped, WithCoin(c));
    assert g[0] in g;
  }

  /** A coin with a complete per-coin record has it posted. */
  lemma CoinRecordSelected(records: seq<Record>, c: string)
    requires CoinRecord(Deduped(records), c).Some?
    ensures CoinRecord(Deduped(records), c).value in Selected(records)
  {
    var deduped := Deduped(records);
    var g := Filter(deduped, WithCoin(c));
    assert g[0] in g;
    var k :| 0 <= k < |deduped| && deduped[k] == g[0];
    CoinListed(deduped, k);
    PerCoinIncludes(deduped, Coins(deduped), c);
  }

  /** The posted records are exactly the complete per-coin records of the deduplicated table. */
  lemma SelectedExactly(records: seq<Record>, x: Record)
    ensures x in Selected(records) <==> exists c :: CoinRecord(Deduped(records), c) == Some(x)
  {
    var deduped := Deduped(records);
    if x in Selected(records) {
      PerCoinMember(deduped, Coins(deduped), x);
    }
    if c :| CoinRecord(deduped, c) == Some(x) {
      CoinRecordSelected(records, c);
    }
  }

  /**
   * Each posted record is complete, belongs to a coin of the table, and is the
   * `last()` record of that coin's deduplicated rows.
   */
  lemma SelectedMember(records: seq<Record>, x: Record)
    requires x in Selected(records)
    ensures Complete(x)
    ensures exists y :: y in records && y.coin == x.coin
    ensures var g := Filter(Deduped(records), WithCoin(x.coin)); g != [] && x == LastValues(g)
  {
    var deduped := Deduped(records);
    PerCoinLast(deduped, Coins(deduped), x);
  }

  /** What is posted: one record per coin, in coin order. */
  lemma SelectedOrdered(records: seq<Record>)
    ensures OnePerCoin(Selected(records))
  {
    var deduped := Deduped(records);
    PerCoinOrdered(deduped, Coins(deduped));
  }

  /** In a group sorted by time, a row no other row of the coin matches or follows is the last. */
  lemma LatestIsLast(g: seq<Record>, x: Record)
    requires Sorted(g, RecordLe) && x in g
    requires forall y :: y in g && y != x ==> y.coin == x.coin && y.dateTime < x.dateTime
    ensures g[|g| - 1] == x
  {
    var z := g[|g| - 1];
    var i :| 0 <= i < |g| && g[i] == x;
    if i < |g| - 1 {
      assert RecordLe(x, z);
      assert z in g;
    }
  }

  /**
   * A complete record that is strictly the latest of its coin is posted
   * unchanged: the selection reports each coin's newest complete row.
   */
  lemma LatestCompletePublished(records: seq<Record>, x: Record)
    requires x in records && Complete(x)
    requires forall y :: y in records && y.coin == x.coin && y != x ==> y.dateTime < x.dateTime
    ensures x in Selected(records)
  {
    DedupedKeeps(records, x);
    var deduped := Deduped(records);
    var g := Filter(deduped, WithCoin(x.coin));
    FilterSorted(deduped, WithCoin(x.coin), RecordLe);
    assert x in g;
    LatestIsLast(g, x);
    LastCompleteWins(g);
    var k :| 0 <= k < |deduped| && deduped[k] == x;
    CoinListed(deduped, k);
    PerCoinIncludes(deduped, Coins(deduped), x.coin);
  }

  /**
   * What `send_to_web_service` posts from the combiner's current frame: nothing
   * for an empty frame, nothing for the joined table (it has no `DateTime`
   * column, so the selection fails and the error is logged), and the selection
   * for a non-empty published table.
   */
  function Payload(frame: Frame): (r: Option<seq<Record>>)
    ensures r.Some? <==> frame.Published? && frame.records != []
    ensures r.Some? ==> r.value == Selected(frame.records)
  {
    match frame
    case Published(records) => if records == [] then None else Some(Selected(records))
    case _ => None
  }
}
