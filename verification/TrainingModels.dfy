/** `_reconstruct_w100_row`: a 100-packet training row rebuilt from ten 10-packet rows. */
module TrainingModels {
  import opened Prelude
  import opened Statistics
  import opened FeatureExtraction

  const W100_SUM_COLS: set<Column> := { AckCount, SynCount, FinCount, RstCount, TotSum }

  /** A table of rows with the same columns. */
  predicate Table(group: seq<Features>, cols: set<Column>)
  {
    |group| > 0 && forall i | 0 <= i < |group| :: group[i].Keys == cols
  }

  function Cells(group: seq<Features>, c: Column): (xs: seq<real>)
    ensures |xs| == |group|
  {
    seq(|group|, i requires 0 <= i < |group| => Get(group[i], c))
  }

  function PopulationVariances(vs: seq<real>): (r: seq<real>)
    ensures |r| == |vs|
  {
    seq(|vs|, i requires 0 <= i < |vs| => vs[i] * 9.0 / 10.0)
  }

  /** Pools the n-1 variances of ten-packet groups. A table without an average column
      counts no spread between its rows. */
  function Pooled(variances: seq<real>, means: Option<seq<real>>): (v: real)
    requires |variances| > 0 && (means.Some? ==> |means.value| > 0)
  {
    var between := match means
      case None => 0.0
      case Some(ms) => DeviationSquares(ms, Mean(ms)) / |ms| as real;
    (Mean(PopulationVariances(variances)) + between) * 100.0 / 99.0
  }

  /** The columns of the rebuilt row, given those of the table: the averaged and summed
      columns it has, `Number`, and what follows from sizes and variances. */
  predicate Rebuilt(cols: set<Column>, c: Column)
  {
    || (c in cols && (c.Ind? || c in W100_SUM_COLS || c == Min || c == Max || c == Variance))
    || c == Number
    || (TotSum in cols && (c == Avg || c == TotSize))
  }

  function RebuiltCell(group: seq<Features>, cols: set<Column>, c: Column): (x: real)
    requires |group| > 0
  {
    if c == Number then 100.0
    else if c == Avg || c == TotSize then Sum(Cells(group, TotSum)) / 100.0
    else if c == Min then Minimum(Cells(group, Min))
    else if c == Max then Maximum(Cells(group, Max))
    else if c == Variance then Pooled(Cells(group, Variance), if Avg in cols then Some(Cells(group, Avg)) else None)
    else if c.Ind? then Mean(Cells(group, c))
    else Sum(Cells(group, c))
  }

  /** All but four columns. `IAT` and `Rate`, which the rebuilding only approximates, are
      `RebuiltIat` and `RebuiltRate` below; `Std` is in `StdIsExact`. */
  function ReconstructW100Row(group: seq<Features>, cols: set<Column>): (row: Features)
    requires Table(group, cols)
  {
    map c | c in cols + { Number, Avg, TotSize } && Rebuilt(cols, c) :: RebuiltCell(group, cols, c)
  }

  // -------------------------------------------------- ten windows of ten rows

  ghost predicate TenByTen(windows: seq<seq<Row>>)
  {
    |windows| == 10 && forall i | 0 <= i < |windows| :: |windows[i]| == 10
  }

  /** Cell `c` of the aggregate of every window. */
  function AggregateCells(windows: seq<seq<Row>>, c: Column): (xs: seq<real>)
    requires forall i | 0 <= i < |windows| :: |windows[i]| > 0
    ensures |xs| == |windows|
  {
    seq(|windows|, i requires 0 <= i < |windows| => AggregateCell(windows[i], c))
  }

  function Columns(windows: seq<seq<Row>>, c: Column): (xss: seq<seq<real>>)
    ensures |xss| == |windows| && forall i | 0 <= i < |windows| :: |xss[i]| == |windows[i]|
  {
    seq(|windows|, i requires 0 <= i < |windows| => ColumnOf(windows[i], c))
  }

  lemma {:induction false} FlattenColumn(windows: seq<seq<Row>>, c: Column)
    ensures ColumnOf(Flatten(windows), c) == Flatten(Columns(windows, c))
    decreases |windows|
  {
    if |windows| > 0 {
      var init := windows[..|windows| - 1];
      FlattenColumn(init, c);
      assert Columns(windows, c)[..|windows| - 1] == Columns(init, c);
    }
  }

  lemma PooledExtremes(windows: seq<seq<Row>>)
    requires TenByTen(windows)
    ensures |Flatten(windows)| == 100
    ensures Minimum(AggregateCells(windows, Min)) == AggregateCell(Flatten(windows), Min)
    ensures Maximum(AggregateCells(windows, Max)) == AggregateCell(Flatten(windows), Max)
  {
    FlattenWidth(windows, 10);
    FlattenColumn(windows, TotSize);
    ExtremesFlatten(Columns(windows, TotSize), AggregateCells(windows, Min), AggregateCells(windows, Max));
  }

  lemma PooledVariances(windows: seq<seq<Row>>)
    requires TenByTen(windows)
    ensures |Flatten(windows)| == 100
    ensures Pooled(AggregateCells(windows, Variance), Some(AggregateCells(windows, Avg)))
         == AggregateCell(Flatten(windows), Variance)
  {
    FlattenWidth(windows, 10);
    FlattenColumn(windows, TotSize);
    var xss := Columns(windows, TotSize);
    assert AggregateCells(windows, Avg) == Means(xss);
    PooledVariance(xss, PopulationVariances(AggregateCells(windows, Variance)));
  }

  lemma PooledMeans(windows: seq<seq<Row>>, c: Column)
    requires TenByTen(windows) && (c.Ind? || c == Iat)
    ensures |Flatten(windows)| == 100
    ensures Mean(AggregateCells(windows, c)) == AggregateCell(Flatten(windows), c)
  {
    FlattenWidth(windows, 10);
    FlattenColumn(windows, c);
    assert AggregateCells(windows, c) == Means(Columns(windows, c));
    MeanOfMeans(Columns(windows, c));
  }

  lemma PooledSums(windows: seq<seq<Row>>, c: Column)
    requires TenByTen(windows) && c in W100_SUM_COLS
    ensures |Flatten(windows)| == 100
    ensures Sum(AggregateCells(windows, c)) == AggregateCell(Flatten(windows), c)
    ensures AggregateCell(Flatten(windows), Avg) == AggregateCell(Flatten(windows), TotSize)
         == AggregateCell(Flatten(windows), TotSum) / 100.0
  {
    FlattenWidth(windows, 10);
    var of := if c == TotSum then TotSize else c;
    FlattenColumn(windows, of);
    assert AggregateCells(windows, c) == Sums(Columns(windows, of));
    SumFlatten(Columns(windows, of));
  }

  /** The row columns the live pipeline and the training tables share: none of the
      columns that only an aggregate has. */
  predicate LiveShape(shape: set<Column>)
  {
    RowShape(shape) && TotSum !in shape && Min !in shape && Max !in shape && Avg !in shape && Variance !in shape
    && ProtocolType !in shape
  }

  function Aggregates(windows: seq<seq<Row>>, shape: set<Column>): (group: seq<Features>)
    requires forall i | 0 <= i < |windows| :: |windows[i]| > 0 && Uniform(windows[i], shape)
    ensures |group| == |windows|
    ensures forall i | 0 <= i < |group| :: group[i] == AggregateWindow(windows[i], shape)
  {
    seq(|windows|, i requires 0 <= i < |windows| => AggregateWindow(windows[i], shape))
  }

  lemma {:induction false} FlattenUniform(windows: seq<seq<Row>>, shape: set<Column>)
    requires RowShape(shape) && forall i | 0 <= i < |windows| :: Uniform(windows[i], shape)
    ensures Uniform(Flatten(windows), shape)
    decreases |windows|
  {
    if |windows| > 0 {
      FlattenUniform(windows[..|windows| - 1], shape);
    }
  }

  lemma CellsOfAggregates(windows: seq<seq<Row>>, shape: set<Column>, c: Column)
    requires |windows| > 0 && c in AggregateColumns(shape)
    requires forall i | 0 <= i < |windows| :: |windows[i]| > 0 && Uniform(windows[i], shape)
    ensures Cells(Aggregates(windows, shape), c) == AggregateCells(windows, c)
  {
  }

  lemma CellIsExact(windows: seq<seq<Row>>, shape: set<Column>, c: Column)
    requires TenByTen(windows) && LiveShape(shape) && Rebuilt(AggregateColumns(shape), c)
    requires forall i | 0 <= i < |windows| :: Uniform(windows[i], shape)
    ensures |Flatten(windows)| == 100 && c in AggregateColumns(shape)
    ensures RebuiltCell(Aggregates(windows, shape), AggregateColumns(shape), c) == AggregateCell(Flatten(windows), c)
  {
    PooledExtremes(windows);
    PooledVariances(windows);
    CellsOfAggregates(windows, shape, Avg);
    if c == Avg || c == TotSize {
      PooledSums(windows, TotSum);
      CellsOfAggregates(windows, shape, TotSum);
    } else {
      CellsOfAggregates(windows, shape, c);
      if c.Ind? {
        PooledMeans(windows, c);
      } else if c in W100_SUM_COLS {
        PooledSums(windows, c);
      }
    }
  }

  lemma TenByTenTables(windows: seq<seq<Row>>, shape: set<Column>)
    requires TenByTen(windows) && RowShape(shape)
    requires forall i | 0 <= i < |windows| :: Uniform(windows[i], shape)
    ensures |Flatten(windows)| == 100 && Uniform(Flatten(windows), shape)
    ensures Table(Aggregates(windows, shape), AggregateColumns(shape))
  {
    FlattenWidth(windows, 10);
    FlattenUniform(windows, shape);
  }

  lemma RebuiltColumns(group: seq<Features>, cols: set<Column>)
    requires Table(group, cols)
    ensures forall c :: c in ReconstructW100Row(group, cols) <==> Rebuilt(cols, c)
  {
  }

  /** Aggregating ten consecutive 10-packet windows and rebuilding a 100-packet row
      from the ten results gives, in every modelled column, exactly what aggregating
      the hundred packets directly gives. */
  lemma ReconstructionIsExact(windows: seq<seq<Row>>, shape: set<Column>)
    requires TenByTen(windows) && LiveShape(shape)
    requires forall i | 0 <= i < |windows| :: Uniform(windows[i], shape)
    ensures |Flatten(windows)| == 100 && Uniform(Flatten(windows), shape)
    ensures var group, cols := Aggregates(windows, shape), AggregateColumns(shape);
      && Table(group, cols)
      && var rebuilt, direct := ReconstructW100Row(group, cols), AggregateWindow(Flatten(windows), shape);
         forall c :: (c in rebuilt <==> Rebuilt(cols, c))
                  && (c in rebuilt ==> c in direct && rebuilt[c] == direct[c])
  {
    TenByTenTables(windows, shape);
    var group, cols := Aggregates(windows, shape), AggregateColumns(shape);
    RebuiltColumns(group, cols);
    forall c | Rebuilt(cols, c)
      ensures c in cols && RebuiltCell(group, cols, c) == AggregateCell(Flatten(windows), c)
    {
      CellIsExact(windows, shape, c);
    }
  }

  /** Nothing is left out but three columns: of ten aggregated windows the rebuilt row has
      every other column of the direct aggregate. */
  lemma RebuiltHasAll(shape: set<Column>, c: Column)
    requires LiveShape(shape)
    ensures Rebuilt(AggregateColumns(shape), c)
       <==> c in AggregateColumns(shape) && c != Rate && c != Iat && c != ProtocolType
  {
  }

  /** The standard deviation, for any square root: the aggregate takes it of the variance,
      the rebuilt row of the variance cut off at zero. The cut never matters, so the two
      columns agree. */
  lemma StdIsExact(windows: seq<seq<Row>>, shape: set<Column>, sqrt: real -> real)
    requires TenByTen(windows) && LiveShape(shape)
    requires forall i | 0 <= i < |windows| :: Uniform(windows[i], shape)
    ensures |Flatten(windows)| == 100
    ensures var rebuilt := RebuiltCell(Aggregates(windows, shape), AggregateColumns(shape), Variance);
      sqrt(if rebuilt > 0.0 then rebuilt else 0.0) == sqrt(SampleVariance(ColumnOf(Flatten(windows), TotSize)))
  {
    CellIsExact(windows, shape, Variance);
    VarianceNonnegative(ColumnOf(Flatten(windows), TotSize));
  }

  // -------------------------------------------- the two columns rebuilt approximately

  function Nines(xs: seq<real>): (r: seq<real>)
    ensures |r| == |xs|
  {
    seq(|xs|, i requires 0 <= i < |xs| => 9.0 * xs[i])
  }

  /** The rebuilt `IAT`: nine gaps a row, over the ninety-nine of a hundred packets. */
  function RebuiltIat(group: seq<Features>): (x: real)
  {
    Sum(Nines(Cells(group, Iat))) / 99.0
  }

  lemma {:induction false} SumNines(xs: seq<real>)
    ensures Sum(Nines(xs)) == 9.0 * Sum(xs)
    decreases |xs|
  {
    if |xs| > 0 {
      SumNines(xs[..|xs| - 1]);
      assert Nines(xs)[..|xs| - 1] == Nines(xs[..|xs| - 1]);
    }
  }

  lemma IatOfTen(xs: seq<real>)
    requires |xs| == 10
    ensures 11.0 * (Sum(Nines(xs)) / 99.0) == 10.0 * Mean(xs)
  {
    SumNines(xs);
  }

  /** Each row of a window carries the gap before it, so ten windows carry a hundred gaps,
      of which the rebuilding counts ninety: the rebuilt inter-arrival time is ten
      elevenths of the aggregated one, whatever the traffic. */
  lemma IatIsTenElevenths(windows: seq<seq<Row>>, shape: set<Column>)
    requires TenByTen(windows) && LiveShape(shape) && Iat in shape
    requires forall i | 0 <= i < |windows| :: Uniform(windows[i], shape)
    ensures |Flatten(windows)| == 100
    ensures 11.0 * RebuiltIat(Aggregates(windows, shape)) == 10.0 * AggregateCell(Flatten(windows), Iat)
  {
    PooledMeans(windows, Iat);
    CellsOfAggregates(windows, shape, Iat);
    IatOfTen(AggregateCells(windows, Iat));
  }

  /** How long a row's ten packets took, by its `Rate`; nothing for a rate of zero. */
  function Durations(rates: seq<real>): (r: seq<real>)
    ensures |r| == |rates|
  {
    seq(|rates|, i requires 0 <= i < |rates| => if rates[i] == 0.0 then 0.0 else 10.0 / rates[i])
  }

  function RebuiltRate(group: seq<Features>): (x: real)
  {
    var total := Sum(Durations(Cells(group, Rate)));
    if total != 0.0 then 100.0 / total else 0.0
  }

  function Span(rows: seq<Row>): (d: real)
    requires |rows| > 0
  {
    Maximum(Timestamps(rows)) - Minimum(Timestamps(rows))
  }

  function Spans(windows: seq<seq<Row>>): (ds: seq<real>)
    requires forall i | 0 <= i < |windows| :: |windows[i]| > 0
    ensures |ds| == |windows|
  {
    seq(|windows|, i requires 0 <= i < |windows| => Span(windows[i]))
  }

  lemma SpanNotNegative(rows: seq<Row>)
    requires |rows| > 0
    ensures Span(rows) >= 0.0
  {
    ExtremesBound(Timestamps(rows));
  }

  lemma TenthOf(d: real)
    ensures d != 0.0 ==> 10.0 / d != 0.0 && 10.0 / (10.0 / d) == d
  {
  }

  lemma {:induction false} SumNotNegative(xs: seq<real>)
    requires forall i | 0 <= i < |xs| :: xs[i] >= 0.0
    ensures Sum(xs) >= 0.0
    decreases |xs|
  {
    if |xs| > 0 {
      SumNotNegative(xs[..|xs| - 1]);
    }
  }

  lemma DurationsAreSpans(windows: seq<seq<Row>>, shape: set<Column>)
    requires TenByTen(windows) && LiveShape(shape)
    requires forall i | 0 <= i < |windows| :: Uniform(windows[i], shape)
    ensures Durations(Cells(Aggregates(windows, shape), Rate)) == Spans(windows)
    ensures Sum(Spans(windows)) >= 0.0
  {
    CellsOfAggregates(windows, shape, Rate);
    forall i | 0 <= i < |windows|
      ensures Durations(AggregateCells(windows, Rate))[i] == Spans(windows)[i] && Spans(windows)[i] >= 0.0
    {
      SpanNotNegative(windows[i]);
      TenthOf(Span(windows[i]));
    }
    SumNotNegative(Spans(windows));
  }

  /** A hundred packets over the time they took; zero if they took none. */
  function Pace(d: real): (r: real)
  {
    if d > 0.0 then 100.0 / d else 0.0
  }

  lemma PaceLaws(x: real, y: real)
    requires x >= 0.0 && y >= 0.0
    ensures Pace(x) == Pace(y) <==> x == y
    ensures x <= y ==> (Pace(x) >= Pace(y) <==> x > 0.0 || y == 0.0)
  {
    if x > 0.0 && y > 0.0 {
      assert x * (100.0 / x) == 100.0 == y * (100.0 / y);
    }
  }

  lemma RatesArePaces(windows: seq<seq<Row>>, shape: set<Column>)
    requires TenByTen(windows) && LiveShape(shape)
    requires forall i | 0 <= i < |windows| :: Uniform(windows[i], shape)
    ensures |Flatten(windows)| == 100
    ensures Sum(Spans(windows)) >= 0.0 && Span(Flatten(windows)) >= 0.0
    ensures RebuiltRate(Aggregates(windows, shape)) == Pace(Sum(Spans(windows)))
    ensures AggregateCell(Flatten(windows), Rate) == Pace(Span(Flatten(windows)))
  {
    FlattenWidth(windows, 10);
    DurationsAreSpans(windows, shape);
    SpanNotNegative(Flatten(windows));
  }

  /** The rebuilt rate leaves out the time between the windows: it is the directly
      aggregated one exactly when the ten spans add up to the span of the hundred packets. */
  lemma RateIsExactIff(windows: seq<seq<Row>>, shape: set<Column>)
    requires TenByTen(windows) && LiveShape(shape)
    requires forall i | 0 <= i < |windows| :: Uniform(windows[i], shape)
    ensures |Flatten(windows)| == 100
    ensures RebuiltRate(Aggregates(windows, shape)) == AggregateCell(Flatten(windows), Rate)
       <==> Sum(Spans(windows)) == Span(Flatten(windows))
  {
    RatesArePaces(windows, shape);
    PaceLaws(Sum(Spans(windows)), Span(Flatten(windows)));
  }

  predicate InTime(rows: seq<Row>)
  {
    forall i, j | 0 <= i < j < |rows| :: rows[i].ts <= rows[j].ts
  }

  lemma SpanInTime(rows: seq<Row>)
    requires |rows| > 0 && InTime(rows)
    ensures Span(rows) == rows[|rows| - 1].ts - rows[0].ts
  {
    var ts := Timestamps(rows);
    ExtremesBound(ts);
    var i, j :| 0 <= i < |ts| && ts[i] == Minimum(ts) && 0 <= j < |ts| && ts[j] == Maximum(ts);
    assert ts[0] <= ts[i] && ts[j] <= ts[|ts| - 1];
  }

  lemma SpansOfTwo(a: seq<Row>, b: seq<Row>)
    requires |a| > 0 && |b| > 0 && InTime(a + b)
    ensures InTime(a) && Span(a) + Span(b) <= Span(a + b)
  {
    var all := a + b;
    assert forall i | 0 <= i < |a| :: a[i] == all[i];
    assert forall i | 0 <= i < |b| :: b[i] == all[|a| + i];
    SpanInTime(all);
    SpanInTime(a);
    SpanInTime(b);
  }

  lemma {:induction false} SpansFit(windows: seq<seq<Row>>)
    requires |windows| > 0 && (forall i | 0 <= i < |windows| :: |windows[i]| > 0) && InTime(Flatten(windows))
    ensures |Flatten(windows)| > 0 && Sum(Spans(windows)) <= Span(Flatten(windows))
    decreases |windows|
  {
    var init, last := windows[..|windows| - 1], windows[|windows| - 1];
    assert Spans(windows)[..|windows| - 1] == Spans(init);
    if init == [] {
      assert Flatten(windows) == last;
    } else {
      assert Flatten(init) != [] by {
        assert Flatten(init) == Flatten(init[..|init| - 1]) + init[|init| - 1];
      }
      SpansOfTwo(Flatten(init), last);
      SpansFit(init);
    }
  }

  /** For packets in time order the rebuilt rate is never below the aggregated one, unless
      every window took no time at all. */
  lemma RateNeverBelow(windows: seq<seq<Row>>, shape: set<Column>)
    requires TenByTen(windows) && LiveShape(shape) && InTime(Flatten(windows))
    requires forall i | 0 <= i < |windows| :: Uniform(windows[i], shape)
    ensures |Flatten(windows)| == 100
    ensures RebuiltRate(Aggregates(windows, shape)) >= AggregateCell(Flatten(windows), Rate)
       <==> Sum(Spans(windows)) > 0.0 || Span(Flatten(windows)) == 0.0
  {
    RatesArePaces(windows, shape);
    SpansFit(windows);
    PaceLaws(Sum(Spans(windows)), Span(Flatten(windows)));
  }
}
