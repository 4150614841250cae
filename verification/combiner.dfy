/**
 * The `DataCombiner` object of data_combiner.py: input validation, the join
 * that sets `processed_data`, the per-market indicator loop, and the
 * selection handed to the web service.
 */
module Combiner {
  import opened Wrappers
  import opened Table
  import Text
  import opened Alignment
  import opened Indicators
  import opened Publishing
  import CoinbaseData
  import BinanceData

  datatype Source = Coinbase | Binance

  /** The columns `_check_data_types` demands of each source's table, in its order. */
  function Required(source: Source): (r: seq<string>)
    ensures |r| == 4 && r[0] == "market" && r[1] == "candle_date_time_utc" && r[2] == "close_price"
    ensures r[3] == (if source == Coinbase then "volume" else "quote_volume")
  {
    match source
    case Coinbase => ["market", "candle_date_time_utc", "close_price", "volume"]
    case Binance => ["market", "candle_date_time_utc", "close_price", "quote_volume"]
  }

  datatype ValidationError = Empty | MissingColumn(column: string)

  datatype Validation = Valid(columns: seq<string>) | Invalid(error: ValidationError)

  /** The header a validated table carries: every name stripped and lower-cased. */
  function Normalized(header: seq<string>): (r: seq<string>)
    ensures |r| == |header| && forall i :: 0 <= i < |header| ==> r[i] == Text.NormalizeColumnName(header[i])
  {
    Map(Text.NormalizeColumnName, header)
  }

  /** Normalising a normalised header changes nothing. */
  lemma NormalizedIdempotent(header: seq<string>)
    ensures Normalized(Normalized(header)) == Normalized(header)
  {
    forall i | 0 <= i < |header| ensures Normalized(Normalized(header))[i] == Normalized(header)[i] {
      Text.NormalizeIdempotent(header[i]);
    }
  }

  class DataCombiner {
    /** `processed_data`: empty at first, the joined table after `combine_data`, the published table after the indicators. */
    var processedData: Frame

    constructor ()
      ensures processedData == NoColumns
    {
      processedData := NoColumns;
    }

    /** `_normalize_column_names`: rewrites the header of the table in place. */
    method NormalizeColumnNames(header: seq<string>) returns (columns: seq<string>)
      ensures columns == Normalized(header)
    {
      columns := header;
      for k := 0 to |header|
        invariant |columns| == |header|
        invariant forall i :: 0 <= i < k ==> columns[i] == Text.NormalizeColumnName(header[i])
        invariant forall i :: k <= i < |header| ==> columns[i] == header[i]
      {
        columns := columns[k := Text.NormalizeColumnName(columns[k])];
      }
    }

    /** `_check_data_types`: the first required column the header lacks, if any. */
    method CheckDataTypes(columns: seq<string>, source: Source) returns (missing: Option<string>)
      ensures missing.None? <==> forall c :: c in Required(source) ==> c in columns
      ensures missing.Some? ==> missing.value !in columns
      ensures missing.Some? ==> exists k :: 0 <= k < 4 && Required(source)[k] == missing.value && forall i :: 0 <= i < k ==> Required(source)[i] in columns
    {
      var required := Required(source);
      for k := 0 to |required|
        invariant forall i :: 0 <= i < k ==> required[i] in columns
      {
        if required[k] !in columns {
          return Some(required[k]);
        }
      }
      return None;
    }

    /** `validate_input_data`: a table with no rows or no columns is refused, then the header is normalised and checked. */
    method ValidateInputData(header: seq<string>, rowCount: nat, source: Source) returns (v: Validation)
      ensures v.Invalid? && v.error == Empty <==> rowCount == 0 || header == []
      ensures v.Valid? <==> rowCount > 0 && header != [] && forall c :: c in Required(source) ==> c in Normalized(header)
      ensures v.Valid? ==> v.columns == Normalized(header)
      ensures v.Invalid? && v.error.MissingColumn? ==> v.error.column in Required(source) && v.error.column !in Normalized(header)
    {
      if rowCount == 0 || header == [] {
        return Invalid(Empty);
      }
      var columns := NormalizeColumnNames(header);
      var missing := CheckDataTypes(columns, source);
      if missing.Some? {
        return Invalid(MissingColumn(missing.value));
      }
      return Valid(columns);
    }

    /** `combine_data`: the as-of join of the two stores, kept as `processed_data`. */
    method CombineData(cbStore: seq<CoinbaseData.Candle>, bnStore: seq<BinanceData.Candle>) returns (combined: seq<AlignedRow>)
      modifies this
      ensures combined == Combined(cbStore, bnStore)
      ensures processedData == Joined(combined)
    {
      combined := Combined(cbStore, bnStore);
      processedData := Joined(combined);
    }

    /** The loop of `_calculate_indicators` over `groupby('market')`: each market's rows appended in market order. */
    method ConcatGroups(rows: seq<AlignedRow>) returns (acc: seq<IndicatorRow>)
      ensures acc == Concatenated(rows)
    {
      var markets := Markets(rows);
      acc := [];
      for k := 0 to |markets|
        invariant acc == AppendedGroups(rows, markets[..k])
      {
        AppendedGroupsStep(rows, markets, k);
        acc := acc + ForGroup(Group(rows, markets[k]));
      }
      assert markets[..|markets|] == markets;
    }

    /** The formatting loops of `_calculate_indicators`: every row's columns rewritten for output. */
    method FormatRows(sorted: seq<IndicatorRow>) returns (records: seq<Record>)
      ensures records == Map(Render, sorted)
    {
      records := [];
      for i := 0 to |sorted|
        invariant records == Map(Render, sorted[..i])
      {
        assert sorted[..i + 1] == sorted[..i] + [sorted[i]];
        MapAppend(Render, sorted[..i], [sorted[i]]);
        records := records + [Render(sorted[i])];
      }
      assert sorted[..|sorted|] == sorted;
    }

    /**
     * `_calculate_indicators`: nothing for a frame without the joined columns;
     * otherwise the per-market rows, sorted by (DateTime, Coin) and formatted.
     */
    method CalculateIndicators(frame: Frame) returns (result: Frame)
      ensures result == IndicatorsOf(frame)
    {
      if !frame.Joined? {
        return NoColumns;
      }
      var acc := ConcatGroups(frame.rows);
      IndicatorLeTotal();
      var sorted := SortBy(acc, IndicatorLe);
      var records := FormatRows(sorted);
      return Published(records);
    }

    /** `main`: join the stores and, when the join has rows, replace `processed_data` by the indicator table. */
    method Run(cbStore: seq<CoinbaseData.Candle>, bnStore: seq<BinanceData.Candle>)
      modifies this
      ensures processedData == if cbStore == [] then Joined([]) else IndicatorsOf(Joined(Combined(cbStore, bnStore)))
    {
      var combined := CombineData(cbStore, bnStore);
      CombinedKeepsCoinbaseRows(cbStore, bnStore);
      if combined != [] {
        var indicators := CalculateIndicators(processedData);
        processedData := indicators;
      }
    }

    /** `send_to_web_service`: the records it would post, or nothing when it posts nothing. */
    method SendToWebService() returns (payload: Option<seq<Record>>)
      ensures payload == Payload(processedData)
      ensures payload.Some? ==> OnePerCoin(payload.value) && forall x :: x in payload.value ==> Complete(x)
    {
      if processedData == NoColumns || processedData == Joined([]) || processedData == Published([]) {
        return None;
      }
      if !processedData.Published? {
        return None;
      }
      payload := Some(Selected(processedData.records));
      SelectedOrdered(processedData.records);
      forall x | x in payload.value ensures Complete(x) {
        SelectedMember(processedData.records, x);
      }
    }
  }
}
