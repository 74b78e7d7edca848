/** What the features of a window mean, column by column, in terms of its rows. */
module WindowFeatures {
  import opened Prelude
  import opened Statistics
  import opened FeatureExtraction

  /** A window has exactly the columns of its rows and those an aggregate adds, each with
      the cell described below. */
  lemma FeaturesAreCells(rows: seq<Row>, shape: set<Column>)
    requires |rows| > 0 && Uniform(rows, shape)
    ensures var agg := AggregateWindow(rows, shape);
      forall c :: (c in agg <==> c in shape || c in { ProtocolType, TotSum, Min, Max, Avg, Variance, Number, Rate })
               && (c in agg ==> agg[c] == AggregateCell(rows, c))
  {
  }

  // ------------------------------------------------ sums and means

  /** The columns that add up when windows are put together. */
  predicate AddsUp(c: Column)
  {
    c == AckCount || c == SynCount || c == FinCount || c == RstCount || c == TotSum || c == Number
  }

  /** The columns that average. */
  predicate Averages(c: Column)
  {
    c.Ind? || c == Iat || c == TotSize || c == Avg
  }

  /** The row column an aggregate column is taken of. */
  function Source(c: Column): (r: Column)
  {
    if c == TotSum || c == Avg || c == Min || c == Max || c == Variance then TotSize else c
  }

  lemma SumCell(rows: seq<Row>, c: Column)
    requires |rows| > 0 && AddsUp(c)
    ensures AggregateCell(rows, c) == if c == Number then |rows| as real else Sum(ColumnOf(rows, Source(c)))
  {
  }

  lemma MeanCell(rows: seq<Row>, c: Column)
    requires |rows| > 0 && Averages(c)
    ensures AggregateCell(rows, c) == Mean(ColumnOf(rows, Source(c)))
  {
  }

  lemma SizeCells(rows: seq<Row>)
    requires |rows| > 0
    ensures AggregateCell(rows, Min) == Minimum(ColumnOf(rows, TotSize))
    ensures AggregateCell(rows, Max) == Maximum(ColumnOf(rows, TotSize))
    ensures AggregateCell(rows, Variance) == SampleVariance(ColumnOf(rows, TotSize))
  {
  }

  lemma RateCell(rows: seq<Row>)
    requires |rows| > 0
    ensures var d := Maximum(Timestamps(rows)) - Minimum(Timestamps(rows));
      AggregateCell(rows, Rate) == if d > 0.0 then |rows| as real / d else 0.0
  {
  }

  lemma ColumnConcat(a: seq<Row>, b: seq<Row>, c: Column)
    ensures ColumnOf(a + b, c) == ColumnOf(a, c) + ColumnOf(b, c)
  {
  }

  lemma SumOfOne(x: real)
    ensures Sum([x]) == x && Mean([x]) == x && Minimum([x]) == x && Maximum([x]) == x && SampleVariance([x]) == 0.0
  {
    assert [x][..0] == [];
  }

  lemma ColumnOfOne(row: Row, c: Column)
    ensures ColumnOf([row], c) == [Get(row.cols, c)]
  {
  }

  /** The features of a single row are its own cells. */
  lemma OneRow(row: Row, c: Column)
    ensures AddsUp(c) || Averages(c) ==>
      AggregateCell([row], c) == if c == Number then 1.0 else Get(row.cols, Source(c))
    ensures AggregateCell([row], Min) == Get(row.cols, TotSize) == AggregateCell([row], Max)
    ensures AggregateCell([row], Variance) == 0.0
  {
    SizeCells([row]);
    ColumnOfOne(row, TotSize);
    SumOfOne(Get(row.cols, TotSize));
    ColumnOfOne(row, Source(c));
    SumOfOne(Get(row.cols, Source(c)));
    if AddsUp(c) {
      SumCell([row], c);
    } else if Averages(c) {
      MeanCell([row], c);
    }
  }

  /** Two windows put together: the counts, the total size and the number of rows add up. */
  lemma SumsAddUp(a: seq<Row>, b: seq<Row>, c: Column)
    requires |a| > 0 && |b| > 0 && AddsUp(c)
    ensures AggregateCell(a + b, c) == AggregateCell(a, c) + AggregateCell(b, c)
  {
    SumCell(a, c);
    SumCell(b, c);
    SumCell(a + b, c);
    ColumnConcat(a, b, Source(c));
    SumConcat(ColumnOf(a, Source(c)), ColumnOf(b, Source(c)));
  }

  /** A column of the rows, added up. */
  function ColumnSum(rows: seq<Row>, c: Column): (x: real)
  {
    if rows == [] then 0.0 else ColumnSum(rows[..|rows| - 1], c) + Get(rows[|rows| - 1].cols, c)
  }

  lemma {:induction false} ColumnSumIs(rows: seq<Row>, c: Column)
    ensures ColumnSum(rows, c) == Sum(ColumnOf(rows, c))
    decreases |rows|
  {
    if rows != [] {
      var init := rows[..|rows| - 1];
      ColumnSumIs(init, c);
      assert ColumnOf(rows, c)[..|rows| - 1] == ColumnOf(init, c);
    }
  }

  /** The four counts and the total size are column sums, and the number is that of the
      rows; the average, the size, the inter-arrival time and each indicator are column sums
      over the number of rows. */
  lemma SumsAndMeans(rows: seq<Row>, c: Column)
    requires |rows| > 0 && (AddsUp(c) || Averages(c))
    ensures AggregateCell(rows, c)
         == if c == Number then |rows| as real
            else if AddsUp(c) then ColumnSum(rows, Source(c))
            else ColumnSum(rows, Source(c)) / |rows| as real
  {
    ColumnSumIs(rows, Source(c));
    if AddsUp(c) {
      SumCell(rows, c);
    } else {
      MeanCell(rows, c);
    }
  }

  // ------------------------------------------------ sizes, protocol and rate

  function SizeOf(row: Row): (x: real) { Get(row.cols, TotSize) }

  /** The extremes are sizes of rows and bound them all. */
  lemma ExtremesOfSizes(rows: seq<Row>) returns (least: nat, most: nat)
    requires |rows| > 0
    ensures least < |rows| && AggregateCell(rows, Min) == SizeOf(rows[least])
    ensures most < |rows| && AggregateCell(rows, Max) == SizeOf(rows[most])
    ensures forall i | 0 <= i < |rows| :: SizeOf(rows[least]) <= SizeOf(rows[i]) <= SizeOf(rows[most])
  {
    var sizes := ColumnOf(rows, TotSize);
    SizeCells(rows);
    ExtremesBound(sizes);
    least :| 0 <= least < |sizes| && sizes[least] == Minimum(sizes);
    most :| 0 <= most < |sizes| && sizes[most] == Maximum(sizes);
    assert forall k | 0 <= k < |rows| :: SizeOf(rows[k]) == sizes[k];
  }

  /** Squared differences of the sizes from `m`, summed. */
  function Spread(rows: seq<Row>, m: real): (r: real)
  {
    if rows == [] then 0.0
    else
      var d := SizeOf(rows[|rows| - 1]) - m;
      Spread(rows[..|rows| - 1], m) + d * d
  }

  lemma {:induction false} SpreadIs(rows: seq<Row>, m: real)
    ensures Spread(rows, m) == DeviationSquares(ColumnOf(rows, TotSize), m)
    decreases |rows|
  {
    if rows != [] {
      var init := rows[..|rows| - 1];
      SpreadIs(init, m);
      assert ColumnOf(rows, TotSize)[..|rows| - 1] == ColumnOf(init, TotSize);
    }
  }

  /** The variance is the spread about the average over one less than the number of rows; a
      single row has none. */
  lemma VarianceOfSizes(rows: seq<Row>)
    requires |rows| > 0
    ensures AggregateCell(rows, Variance)
         == if |rows| == 1 then 0.0 else Spread(rows, AggregateCell(rows, Avg)) / (|rows| - 1) as real
  {
    SizeCells(rows);
    MeanCell(rows, Avg);
    SpreadIs(rows, Mean(ColumnOf(rows, TotSize)));
  }

  /** The rows of a protocol. */
  function RowsOf(rows: seq<Row>, protocol: int): (s: set<int>)
  {
    set i | 0 <= i < |rows| && rows[i].protocol == protocol
  }

  lemma {:induction false} OccurrencesAre(rows: seq<Row>, protocol: int)
    ensures Occurrences(rows, protocol) == |RowsOf(rows, protocol)|
    decreases |rows|
  {
    if |rows| > 0 {
      var init, last := rows[..|rows| - 1], |rows| - 1;
      OccurrencesAre(init, protocol);
      assert RowsOf(rows, protocol) == RowsOf(init, protocol) + if rows[last].protocol == protocol then {last} else {};
    }
  }

  lemma ProtocolCell(rows: seq<Row>)
    requires |rows| > 0
    ensures AggregateCell(rows, ProtocolType) == MostCommon(rows, |rows|) as real
  {
  }

  lemma {:induction false} FirstOf(rows: seq<Row>, protocol: int, at: nat) returns (first: nat)
    requires at < |rows| && rows[at].protocol == protocol
    ensures first <= at && rows[first].protocol == protocol
    ensures forall i | 0 <= i < first :: rows[i].protocol != protocol
    decreases at
  {
    if i: nat :| i < at && rows[i].protocol == protocol {
      first := FirstOf(rows, protocol, i);
    } else {
      first := at;
    }
  }

  /** The protocol type is that of a row; no protocol has more rows, and none met earlier has
      as many. */
  lemma ProtocolOfMost(rows: seq<Row>) returns (first: nat)
    requires |rows| > 0
    ensures first < |rows| && AggregateCell(rows, ProtocolType) == rows[first].protocol as real
    ensures forall i | 0 <= i < |rows| ::
      |RowsOf(rows, rows[i].protocol)| <= |RowsOf(rows, rows[first].protocol)|
    ensures forall i | 0 <= i < first ::
      |RowsOf(rows, rows[i].protocol)| < |RowsOf(rows, rows[first].protocol)|
  {
    ProtocolCell(rows);
    var best := MostCommon(rows, |rows|);
    var at :| 0 <= at < |rows| && rows[at].protocol == best;
    first := FirstOf(rows, best, at);
    OccurrencesAre(rows, best);
    forall i | 0 <= i < |rows|
      ensures |RowsOf(rows, rows[i].protocol)| <= |RowsOf(rows, best)|
      ensures i < first ==> |RowsOf(rows, rows[i].protocol)| < |RowsOf(rows, best)|
    {
      OccurrencesAre(rows, rows[i].protocol);
    }
  }

  /** `d` is the time from the earliest row to the latest. */
  ghost predicate Lasted(rows: seq<Row>, d: real)
  {
    && (exists i, j :: 0 <= i < |rows| && 0 <= j < |rows| && d == rows[j].ts - rows[i].ts)
    && forall i, j | 0 <= i < |rows| && 0 <= j < |rows| :: rows[j].ts - rows[i].ts <= d
  }

  lemma Lasting(rows: seq<Row>)
    requires |rows| > 0
    ensures Lasted(rows, Maximum(Timestamps(rows)) - Minimum(Timestamps(rows)))
  {
    var ts := Timestamps(rows);
    ExtremesBound(ts);
    var i, j :| 0 <= i < |ts| && ts[i] == Minimum(ts) && 0 <= j < |ts| && ts[j] == Maximum(ts);
    assert Maximum(ts) - Minimum(ts) == rows[j].ts - rows[i].ts;
    forall i, j | 0 <= i < |rows| && 0 <= j < |rows| ensures rows[j].ts - rows[i].ts <= Maximum(ts) - Minimum(ts) {
      assert ts[i] == rows[i].ts && ts[j] == rows[j].ts;
    }
  }

  /** The rate is the number of rows over the time they took, if they took any. */
  lemma RateOfSpan(rows: seq<Row>, d: real)
    requires |rows| > 0 && Lasted(rows, d)
    ensures AggregateCell(rows, Rate) == if d > 0.0 then |rows| as real / d else 0.0
  {
    RateCell(rows);
    Lasting(rows);
    LastedOnce(rows, d, Maximum(Timestamps(rows)) - Minimum(Timestamps(rows)));
  }

  lemma LastedOnce(rows: seq<Row>, d: real, e: real)
    requires Lasted(rows, d) && Lasted(rows, e)
    ensures d == e
  {
  }
}
