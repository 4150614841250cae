/**
 * The column handling of `combine_data` and `_check_data_types`
 * (data_combiner.py): the columns each store carries, the renames and drops
 * that prepare the two frames for the join, and the required-column check.
 */
module Columns {
  import opened Wrappers

  /** The column names the two stores and the joined frame use. */
  datatype Column =
    | Market | CandleDateTimeUtc
    | Low | High | Open | Close | Volume
    | OpeningPrice | HighPrice | LowPrice | ClosePrice | QuoteVolume | MarketType
    | ClosePriceCoinbase | VolumeCoinbase | ClosePriceBinance | VolumeBinance

  /** `rename(columns={from: to})`. */
  function Rename<T(==)>(columns: seq<T>, from: T, to: T): seq<T>
  {
    if columns == [] then [] else [if columns[0] == from then to else columns[0]] + Rename(columns[1..], from, to)
  }

  lemma {:induction false} RenameMember<T>(columns: seq<T>, from: T, to: T, c: T)
    ensures c in Rename(columns, from, to) <==> (c in columns && c != from) || (c == to && from in columns)
  {
    if columns != [] {
      RenameMember(columns[1..], from, to, c);
      assert columns == [columns[0]] + columns[1..];
    }
  }

  /** The columns not among `names`, in order. */
  function Without<T(==)>(columns: seq<T>, names: seq<T>): seq<T>
  {
    if columns == [] then [] else (if columns[0] in names then [] else [columns[0]]) + Without(columns[1..], names)
  }

  lemma {:induction false} WithoutMembers<T>(columns: seq<T>, names: seq<T>)
    ensures forall c :: c in Without(columns, names) <==> c in columns && c !in names
  {
    if columns != [] {
      WithoutMembers(columns[1..], names);
      assert columns == [columns[0]] + columns[1..];
    }
  }

  /** `drop(columns=names)`: `None` (a `KeyError`) when one of `names` is not a column. */
  function DropColumns<T(==,!new)>(columns: seq<T>, names: seq<T>): (r: Option<seq<T>>)
    ensures r.Some? <==> forall n :: n in names ==> n in columns
    ensures r.Some? ==> forall c :: c in r.value <==> c in columns && c !in names
  {
    WithoutMembers(columns, names);
    if forall n :: n in names ==> n in columns then Some(Without(columns, names)) else None
  }

  /** The columns the Coinbase fetcher writes to its store. */
  const CoinbaseStoreColumns: seq<Column> := [Market, CandleDateTimeUtc, Low, High, Open, Close, Volume]
  /** The columns the Binance fetcher writes to its store. */
  const BinanceStoreColumns: seq<Column> :=
    [Market, CandleDateTimeUtc, OpeningPrice, HighPrice, LowPrice, ClosePrice, Volume, QuoteVolume, MarketType]

  /** The Coinbase frame's preparation as written: rename `close_price` and `volume`, drop four price/type columns. */
  function CoinbaseColumnsAsWritten(columns: seq<Column>): Option<seq<Column>>
  {
    DropColumns(Rename(Rename(columns, ClosePrice, ClosePriceCoinbase), Volume, VolumeCoinbase),
                [OpeningPrice, HighPrice, LowPrice, MarketType])
  }

  /** As written, a Coinbase frame without an `opening_price` column is refused, and the Coinbase store has none. */
  lemma CoinbaseStoreRejected(columns: seq<Column>)
    requires OpeningPrice !in columns
    ensures CoinbaseColumnsAsWritten(columns) == None
    ensures OpeningPrice !in CoinbaseStoreColumns
  {
    RenameMember(columns, ClosePrice, ClosePriceCoinbase, OpeningPrice);
    RenameMember(Rename(columns, ClosePrice, ClosePriceCoinbase), Volume, VolumeCoinbase, OpeningPrice);
  }

  /** The preparation the Coinbase store needs: its `close` and `volume` renamed, its `low`, `high` and `open` dropped. */
  function CoinbaseColumns(columns: seq<Column>): Option<seq<Column>>
  {
    DropColumns(Rename(Rename(columns, Close, ClosePriceCoinbase), Volume, VolumeCoinbase), [Low, High, Open])
  }

  /**
   * The corrected preparation accepts every frame with the Coinbase store's
   * columns, and leaves exactly the columns the join uses.
   */
  lemma CoinbaseStoreAccepted(columns: seq<Column>)
    requires forall c :: c in columns <==> c in CoinbaseStoreColumns
    ensures CoinbaseColumns(columns).Some?
    ensures forall c :: c in CoinbaseColumns(columns).value <==> c in [Market, CandleDateTimeUtc, ClosePriceCoinbase, VolumeCoinbase]
  {
    var renamed := Rename(columns, Close, ClosePriceCoinbase);
    forall c ensures c in Rename(renamed, Volume, VolumeCoinbase) <==> c in [Market, CandleDateTimeUtc, Low, High, Open, ClosePriceCoinbase, VolumeCoinbase] {
      RenameMember(columns, Close, ClosePriceCoinbase, c);
      RenameMember(columns, Close, ClosePriceCoinbase, Volume);
      RenameMember(renamed, Volume, VolumeCoinbase, c);
    }
  }

  /** The Binance frame's preparation: rename `close_price` and `quote_volume`, drop the other price, volume and type columns. */
  function BinanceColumns(columns: seq<Column>): Option<seq<Column>>
  {
    DropColumns(Rename(Rename(columns, ClosePrice, ClosePriceBinance), QuoteVolume, VolumeBinance),
                [OpeningPrice, Volume, HighPrice, LowPrice, MarketType])
  }

  /** Every frame with the Binance store's columns is accepted and leaves exactly the columns the join uses. */
  lemma BinanceStoreAccepted(columns: seq<Column>)
    requires forall c :: c in columns <==> c in BinanceStoreColumns
    ensures BinanceColumns(columns).Some?
    ensures forall c :: c in BinanceColumns(columns).value <==> c in [Market, CandleDateTimeUtc, ClosePriceBinance, VolumeBinance]
  {
    var renamed := Rename(columns, ClosePrice, ClosePriceBinance);
    forall c ensures c in Rename(renamed, QuoteVolume, VolumeBinance) <==>
      c in [Market, CandleDateTimeUtc, OpeningPrice, HighPrice, LowPrice, ClosePriceBinance, Volume, VolumeBinance, MarketType] {
      RenameMember(columns, ClosePrice, ClosePriceBinance, c);
      RenameMember(columns, ClosePrice, ClosePriceBinance, QuoteVolume);
      RenameMember(renamed, QuoteVolume, VolumeBinance, c);
    }
  }
}
