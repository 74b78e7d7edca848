/** `aggregate_window`: the feature vector of one window of packet rows. */
module FeatureExtraction {
  import opened Prelude
  import opened Statistics

  /** The columns a 100-packet row averages; live packet rows lack some of them. */
  datatype Indicator =
    | HeaderLength | TimeToLive | FinFlag | SynFlag | RstFlag | PshFlag | AckFlag | EceFlag | CwrFlag
    | Http | Https | Dns | Telnet | Smtp | Ssh | Irc | Tcp | Udp | Dhcp | Arp | Icmp | Igmp | IPv | Llc

  /** The columns of packet rows, of window features and of the training tables. */
  datatype Column =
    | Ind(i: Indicator) | AckCount | SynCount | FinCount | RstCount | TotSize | Iat | Number | Rate
    | TotSum | Min | Max | Avg | Variance | ProtocolType

  /** One packet row; `cols` holds every column but `ts` and `Protocol Type`. */
  datatype Row = Row(ts: real, protocol: int, cols: map<Column, real>)

  type Features = map<Column, real>

  /** A shape the aggregation can read: it looks up the sizes and the four counts. */
  predicate RowShape(shape: set<Column>)
  {
    AckCount in shape && SynCount in shape && FinCount in shape && RstCount in shape && TotSize in shape
  }

  /** Every row is a dictionary of the same shape. */
  predicate Uniform(rows: seq<Row>, shape: set<Column>)
  {
    RowShape(shape) && forall i | 0 <= i < |rows| :: rows[i].cols.Keys == shape
  }

  /** A dictionary lookup; it is only used for keys the dictionary has. */
  function Get(m: map<Column, real>, c: Column): (x: real)
  {
    if c in m then m[c] else 0.0
  }

  function ColumnOf(rows: seq<Row>, c: Column): (xs: seq<real>)
    ensures |xs| == |rows|
  {
    seq(|rows|, i requires 0 <= i < |rows| => Get(rows[i].cols, c))
  }

  function Timestamps(rows: seq<Row>): (xs: seq<real>)
    ensures |xs| == |rows|
  {
    seq(|rows|, i requires 0 <= i < |rows| => rows[i].ts)
  }

  function Occurrences(rows: seq<Row>, protocol: int): (n: nat)
  {
    if |rows| == 0 then 0
    else Occurrences(rows[..|rows| - 1], protocol) + if rows[|rows| - 1].protocol == protocol then 1 else 0
  }

  /** `Counter(values).most_common(1)[0][0]`: the most frequent value, the one met
      first when several tie. `best` is the answer over the first `k` rows. */
  function MostCommon(rows: seq<Row>, k: nat): (best: int)
    requires 0 < k <= |rows|
    ensures exists i :: 0 <= i < k && rows[i].protocol == best
    ensures forall i | 0 <= i < k :: Occurrences(rows, rows[i].protocol) <= Occurrences(rows, best)
    ensures forall i | 0 <= i < k && rows[i].protocol != best
              && Occurrences(rows, rows[i].protocol) == Occurrences(rows, best) ::
              exists j :: 0 <= j < i && rows[j].protocol == best
  {
    if k == 1 then rows[0].protocol
    else
      var best := MostCommon(rows, k - 1);
      if Occurrences(rows, rows[k - 1].protocol) > Occurrences(rows, best) then rows[k - 1].protocol else best
  }

  function AggregateColumns(shape: set<Column>): (r: set<Column>)
  {
    shape + { ProtocolType, TotSum, Min, Max, Avg, Variance, Number, Rate }
  }

  /** One column of a window: the mean of the row column unless the source replaces it. */
  function AggregateCell(rows: seq<Row>, c: Column): (x: real)
    requires |rows| > 0
  {
    match c
    case ProtocolType => MostCommon(rows, |rows|) as real
    case AckCount => Sum(ColumnOf(rows, AckCount))
    case SynCount => Sum(ColumnOf(rows, SynCount))
    case FinCount => Sum(ColumnOf(rows, FinCount))
    case RstCount => Sum(ColumnOf(rows, RstCount))
    case TotSum => Sum(ColumnOf(rows, TotSize))
    case Min => Minimum(ColumnOf(rows, TotSize))
    case Max => Maximum(ColumnOf(rows, TotSize))
    case Avg => Mean(ColumnOf(rows, TotSize))
    case Variance => SampleVariance(ColumnOf(rows, TotSize))
    case Number => |rows| as real
    case Rate =>
      var duration := Maximum(Timestamps(rows)) - Minimum(Timestamps(rows));
      if duration > 0.0 then |rows| as real / duration else 0.0
    case _ => Mean(ColumnOf(rows, c))
  }

  /** The standard deviation column is a square root and is not part of the model. */
  function AggregateWindow(rows: seq<Row>, shape: set<Column>): (agg: Features)
    requires |rows| > 0 && Uniform(rows, shape)
  {
    map c | c in AggregateColumns(shape) :: AggregateCell(rows, c)
  }
}
