/** `flow_builder.py`: packet rows and the `WindowBuilder` that groups them. */
module FlowBuilder {
  import opened Prelude
  import opened Statistics
  import opened FeatureExtraction

  /** The replay job and packet number the envelope carried; a packet rebuilt from
      fragments may carry neither. */
  datatype Ident = Ident(flowId: Option<nat>, packetId: Option<nat>)

  /** A decoded packet. `headers` holds the columns its headers set to something other
      than zero: flags, counts, protocol and port indicators. */
  datatype Packet = Packet(hasIp: bool, id: Ident, time: real, length: nat, linktype: Option<int>,
                           protocol: int, headers: map<Column, real>)

  const ETHERNET_HEADER_LEN: nat := 14

  /** The row columns besides the ones every row computes. */
  predicate HeaderColumn(i: Indicator)
  {
    match i
    case TimeToLive => false
    case Arp => false
    case Igmp => false
    case IPv => false
    case Llc => false
    case _ => true
  }

  const ROW_COLUMNS: set<Column> :=
    (set i: Indicator | HeaderColumn(i) :: Ind(i))
    + { AckCount, SynCount, FinCount, RstCount, TotSize, Iat, Number, Rate }

  function WireSize(pkt: Packet): (n: nat)
  {
    if pkt.linktype == None || pkt.linktype == Some(1) then pkt.length + ETHERNET_HEADER_LEN else pkt.length
  }

  /** The inter-arrival time: never negative, zero for the first packet seen. */
  function InterArrival(ts: real, last: Option<real>): (iat: real)
  {
    match last
    case None => 0.0
    case Some(prev) => if ts - prev > 0.0 then ts - prev else 0.0
  }

  function RowCell(pkt: Packet, last: Option<real>, c: Column): (x: real)
  {
    match c
    case TotSize => WireSize(pkt) as real
    case Iat => InterArrival(pkt.time, last)
    case Number => 1.0
    case Rate => 0.0
    case _ => Get(pkt.headers, c)
  }

  function BuildPacketRow(pkt: Packet, last: Option<real>): (row: Row)
  {
    Row(pkt.time, pkt.protocol, map c | c in ROW_COLUMNS :: RowCell(pkt, last, c))
  }

  /** Rows whose timestamp is below the one before. */
  function OutOfOrder(rows: seq<Row>): (n: nat)
  {
    if |rows| < 2 then 0
    else OutOfOrder(rows[..|rows| - 1]) + if rows[|rows| - 1].ts < rows[|rows| - 2].ts then 1 else 0
  }

  datatype Reason = WindowSize | IdleStale | ShutdownFlush

  /** A closed window: its rows, its packets and what was measured while it was open.
      The other entries of the source's dictionary follow from these. */
  datatype Window = Window(closeReason: Reason, rows: seq<Row>, packets: seq<Packet>, trueSpan: real, outOfOrder: nat)
  {
    function PacketCount(): (n: nat) { |rows| }

    function FlowIds(): (s: set<nat>)
    {
      set p | p in packets && p.id.flowId.Some? :: p.id.flowId.value
    }

    function PacketIds(): (s: set<nat>)
    {
      set p | p in packets && p.id.packetId.Some? :: p.id.packetId.value
    }

    predicate MixedFlow() { |FlowIds()| > 1 }

    /** The flow the window is attributed to: its flow id, when it has just one. */
    function FlowId(): (f: Option<nat>)
    {
      if |FlowIds()| == 1 then FirstFlow(packets) else None
    }

    /** A window is attributed to a flow exactly when it holds that flow id and no other. */
    lemma AttributedFlow(f: nat)
      ensures FlowId() == Some(f) <==> FlowIds() == {f}
    {
      FirstFlowFound(packets);
      if FirstFlow(packets).Some? {
        var x := FirstFlow(packets).value;
        assert x in FlowIds();
        SubsetSize({x}, FlowIds());
      } else {
        assert FlowIds() == {};
      }
    }

    /** Two packets of the window with different flow ids. */
    predicate Differ(p: Packet, q: Packet)
    {
      p in packets && q in packets && p.id.flowId.Some? && q.id.flowId.Some? && p.id.flowId != q.id.flowId
    }

    /** A window is mixed exactly when two of its packets carry different flow ids. */
    lemma MixedIff()
      ensures MixedFlow() <==> exists p, q :: Differ(p, q)
    {
      if MixedFlow() {
        var f :| f in FlowIds();
        var rest := FlowIds() - {f};
        assert |rest| > 0;
        var g :| g in rest;
        var p :| p in packets && p.id.flowId == Some(f);
        var q :| q in packets && q.id.flowId == Some(g);
        assert Differ(p, q);
      }
      if p, q :| Differ(p, q) {
        SubsetSize({p.id.flowId.value, q.id.flowId.value}, FlowIds());
      }
    }
  }

  function FirstFlow(packets: seq<Packet>): (f: Option<nat>)
  {
    if packets == [] then None
    else if packets[0].id.flowId.Some? then packets[0].id.flowId
    else FirstFlow(packets[1..])
  }

  lemma {:induction false} FirstFlowFound(packets: seq<Packet>)
    ensures FirstFlow(packets).None? ==> forall p | p in packets :: p.id.flowId.None?
    ensures FirstFlow(packets).Some? ==> exists p :: p in packets && p.id.flowId == FirstFlow(packets)
    decreases |packets|
  {
    if packets != [] && packets[0].id.flowId.None? {
      FirstFlowFound(packets[1..]);
      assert packets == [packets[0]] + packets[1..];
    }
  }

  function WindowOf(rows: seq<Row>, packets: seq<Packet>, reason: Reason): (w: Window)
    requires |rows| > 0
  {
    Window(reason, rows, packets, Maximum(Timestamps(rows)) - Minimum(Timestamps(rows)), OutOfOrder(rows))
  }

  // --------------------------------------------------------- specification

  /** What a builder holds. `openedAt` is the real clock when the pending window was
      opened and means nothing while no row is pending. */
  datatype Builder = Builder(size: nat, idle: real, rows: seq<Row>, packets: seq<Packet>,
                             last: Option<real>, openedAt: real)
  {
    predicate Ok() { |rows| == |packets| < size }

    function Closed(reason: Reason): (r: (Builder, Option<Window>))
      requires |rows| > 0
    {
      (this.(rows := [], packets := [], openedAt := 0.0), Some(WindowOf(rows, packets, reason)))
    }

    function Grown(pkt: Packet, now: real): (b: Builder)
    {
      this.(rows := rows + [BuildPacketRow(pkt, last)], packets := packets + [pkt],
            last := Some(pkt.time), openedAt := if rows == [] then now else openedAt)
    }

    function Add(pkt: Packet, now: real): (r: (Builder, Option<Window>))
    {
      if !pkt.hasIp then (this, None)
      else
        var b := Grown(pkt, now);
        if |b.rows| >= size then b.Closed(WindowSize) else (b, None)
    }

    function Expire(now: real): (r: (Builder, Option<Window>))
    {
      if rows != [] && now - openedAt >= idle then Closed(IdleStale) else (this, None)
    }

    function Flush(): (r: (Builder, Option<Window>))
    {
      if rows != [] then Closed(ShutdownFlush) else (this, None)
    }
  }

  const IDLE_FLUSH_SECONDS: real := 60.0

  function NewBuilder(size: nat): (b: Builder)
  {
    Builder(size, IDLE_FLUSH_SECONDS, [], [], None, 0.0)
  }

  /** The extremes of the timestamps when one row is appended. */
  lemma TimestampsAppend(rows: seq<Row>, row: Row)
    ensures var before, after := Timestamps(rows), Timestamps(rows + [row]);
      && Minimum(after) == (if rows == [] || row.ts < Minimum(before) then row.ts else Minimum(before))
      && Maximum(after) == (if rows == [] || Maximum(before) < row.ts then row.ts else Maximum(before))
  {
    assert Timestamps(rows + [row])[..|rows|] == Timestamps(rows);
  }

  class WindowBuilder {
    const windowSize: nat
    const idleFlushSeconds: real
    var rows: seq<Row>
    var packets: seq<Packet>
    var lastPacTime: Option<real>
    var trueMinTs: Option<real>
    var trueMaxTs: Option<real>
    var realWindowOpenedAt: Option<real>

    ghost predicate Valid()
      reads this
    {
      && |rows| == |packets|
      && (rows == [] ==> trueMinTs.None? && trueMaxTs.None? && realWindowOpenedAt.None?)
      && (rows != [] ==>
            && trueMinTs == Some(Minimum(Timestamps(rows))) && trueMaxTs == Some(Maximum(Timestamps(rows)))
            && realWindowOpenedAt.Some?)
    }

    ghost function State(): (b: Builder)
      reads this
    {
      Builder(windowSize, idleFlushSeconds, rows, packets, lastPacTime,
              if realWindowOpenedAt.Some? then realWindowOpenedAt.value else 0.0)
    }

    constructor (windowSize: nat)
      ensures Valid() && State() == NewBuilder(windowSize)
    {
      this.windowSize, idleFlushSeconds := windowSize, IDLE_FLUSH_SECONDS;
      rows, packets := [], [];
      lastPacTime, trueMinTs, trueMaxTs, realWindowOpenedAt := None, None, None, None;
    }

    method AddPacket(pkt: Packet, now: real) returns (w: Option<Window>)
      requires Valid()
      modifies this
      ensures Valid() && (State(), w) == old(State()).Add(pkt, now)
    {
      if !pkt.hasIp {
        return None;
      }
      if realWindowOpenedAt.None? {
        realWindowOpenedAt := Some(now);
      }
      Append(pkt);
      if |rows| >= windowSize {
        w := Finalize(WindowSize);
      } else {
        w := None;
      }
    }

    /** The running extremes and the row, packet and clock appended by `add_packet`. */
    method Append(pkt: Packet)
      requires |rows| == |packets| && realWindowOpenedAt.Some?
      requires rows == [] ==> trueMinTs.None? && trueMaxTs.None?
      requires rows != [] ==>
        trueMinTs == Some(Minimum(Timestamps(rows))) && trueMaxTs == Some(Maximum(Timestamps(rows)))
      modifies this
      ensures Valid() && realWindowOpenedAt == old(realWindowOpenedAt)
      ensures rows == old(rows) + [BuildPacketRow(pkt, old(lastPacTime))] && packets == old(packets) + [pkt]
      ensures lastPacTime == Some(pkt.time)
    {
      var ts := pkt.time;
      if trueMinTs.None? {
        trueMinTs, trueMaxTs := Some(ts), Some(ts);
      } else {
        if ts < trueMinTs.value {
          trueMinTs := Some(ts);
        }
        if ts > trueMaxTs.value {
          trueMaxTs := Some(ts);
        }
      }
      var row := BuildPacketRow(pkt, lastPacTime);
      lastPacTime := Some(ts);
      rows := rows + [row];
      packets := packets + [pkt];
      TimestampsAppend(old(rows), row);
    }

    method ExpireStalePartialWindow(now: real) returns (w: Option<Window>)
      requires Valid()
      modifies this
      ensures Valid() && (State(), w) == old(State()).Expire(now)
    {
      if rows == [] {
        return None;
      }
      if now - realWindowOpenedAt.value >= idleFlushSeconds {
        w := Finalize(IdleStale);
      } else {
        w := None;
      }
    }

    method Flush() returns (w: Option<Window>)
      requires Valid()
      modifies this
      ensures Valid() && (State(), w) == old(State()).Flush()
    {
      if rows != [] {
        w := Finalize(ShutdownFlush);
      } else {
        w := None;
      }
    }

    method Finalize(reason: Reason) returns (w: Option<Window>)
      requires Valid() && rows != []
      modifies this
      ensures Valid() && (State(), w) == old(State()).Closed(reason)
    {
      var outOfOrderCount := 0;
      for i := 1 to |rows|
        invariant outOfOrderCount == OutOfOrder(rows[..i])
      {
        assert rows[..i + 1][..i] == rows[..i];
        if rows[i].ts < rows[i - 1].ts {
          outOfOrderCount := outOfOrderCount + 1;
        }
      }
      assert rows[..|rows|] == rows;
      w := Some(Window(reason, rows, packets, trueMaxTs.value - trueMinTs.value, outOfOrderCount));
      rows, packets := [], [];
      realWindowOpenedAt, trueMinTs, trueMaxTs := None, None, None;
    }
  }

  // ------------------------------------------------------------ conservation

  function LastTime(stream: seq<Packet>): (t: Option<real>)
  {
    if stream == [] then None else Some(stream[|stream| - 1].time)
  }

  /** The rows of a packet stream, built one after the other without any reset. */
  function StreamRows(stream: seq<Packet>): (rows: seq<Row>)
    ensures |rows| == |stream|
  {
    if stream == [] then []
    else
      var init := stream[..|stream| - 1];
      StreamRows(init) + [BuildPacketRow(stream[|stream| - 1], LastTime(init))]
  }

  lemma {:induction false} StreamRowsUniform(stream: seq<Packet>)
    ensures Uniform(StreamRows(stream), ROW_COLUMNS)
    decreases |stream|
  {
    if stream != [] {
      StreamRowsUniform(stream[..|stream| - 1]);
    }
  }

  lemma StreamAppend(stream: seq<Packet>, pkt: Packet)
    ensures StreamRows(stream + [pkt]) == StreamRows(stream) + [BuildPacketRow(pkt, LastTime(stream))]
    ensures LastTime(stream + [pkt]) == Some(pkt.time)
  {
    assert (stream + [pkt])[..|stream|] == stream;
  }

  lemma RowIat(pkt: Packet, last: Option<real>)
    ensures Get(BuildPacketRow(pkt, last).cols, Iat) == InterArrival(pkt.time, last) >= 0.0
  {
    assert Iat in ROW_COLUMNS;
  }

  /** A row depends on its packet and the packet before it in the stream alone, whichever
      windows they fell into. */
  lemma {:induction false} StreamRowAt(stream: seq<Packet>, i: nat)
    requires i < |stream|
    ensures StreamRows(stream)[i] == BuildPacketRow(stream[i], if i == 0 then None else Some(stream[i - 1].time))
    decreases |stream|
  {
    if i < |stream| - 1 {
      StreamRowAt(stream[..|stream| - 1], i);
    }
  }

  function Gaps(stream: seq<Packet>): (xs: seq<real>)
  {
    ColumnOf(StreamRows(stream), Iat)
  }

  lemma GapsAppend(stream: seq<Packet>, pkt: Packet)
    ensures Gaps(stream + [pkt]) == Gaps(stream) + [InterArrival(pkt.time, LastTime(stream))]
  {
    StreamAppend(stream, pkt);
    RowIat(pkt, LastTime(stream));
  }

  ghost predicate Chronological(stream: seq<Packet>)
  {
    forall i | 0 < i < |stream| :: stream[i - 1].time <= stream[i].time
  }

  /** The inter-arrival times of a chronological stream add up to its span: closing a
      window loses no gap and counts none twice. */
  lemma {:induction false} GapsAddUp(stream: seq<Packet>)
    requires stream != [] && Chronological(stream)
    ensures Sum(Gaps(stream)) == stream[|stream| - 1].time - stream[0].time
    decreases |stream|
  {
    var init, last := stream[..|stream| - 1], stream[|stream| - 1];
    assert stream == init + [last];
    GapsAppend(init, last);
    SumConcat(Gaps(init), [InterArrival(last.time, LastTime(init))]);
    assert Sum([InterArrival(last.time, LastTime(init))]) == InterArrival(last.time, LastTime(init));
    if init != [] {
      GapsAddUp(init);
    }
  }

  function PacketLists(ws: seq<Window>): (r: seq<seq<Packet>>)
    ensures |r| == |ws|
  {
    seq(|ws|, i requires 0 <= i < |ws| => ws[i].packets)
  }

  function RowLists(ws: seq<Window>): (r: seq<seq<Row>>)
    ensures |r| == |ws|
  {
    seq(|ws|, i requires 0 <= i < |ws| => ws[i].rows)
  }

  /** Each window is non-empty, at most full, and full exactly when it closed by size. */
  predicate WellMade(w: Window, size: nat)
  {
    0 < |w.rows| == |w.packets| <= size && (w.closeReason == WindowSize <==> w.PacketCount() == size)
  }

  /** The windows a builder emitted and what it still holds are, in order and without
      loss or repetition, the stream it was given; its rows are those of the unbroken
      stream, whatever windows they fell into. */
  ghost predicate Conserved(ws: seq<Window>, b: Builder, stream: seq<Packet>)
  {
    && b.Ok() && b.last == LastTime(stream)
    && Flatten(PacketLists(ws)) + b.packets == stream
    && Flatten(RowLists(ws)) + b.rows == StreamRows(stream)
    && forall i | 0 <= i < |ws| :: WellMade(ws[i], b.size)
  }

  function Emit(ws: seq<Window>, w: Option<Window>): (r: seq<Window>)
  {
    if w.Some? then ws + [w.value] else ws
  }

  lemma EmitLists(ws: seq<Window>, w: Window)
    ensures Flatten(PacketLists(ws + [w])) == Flatten(PacketLists(ws)) + w.packets
    ensures Flatten(RowLists(ws + [w])) == Flatten(RowLists(ws)) + w.rows
  {
    assert PacketLists(ws + [w]) == PacketLists(ws) + [w.packets];
    assert RowLists(ws + [w]) == RowLists(ws) + [w.rows];
    FlattenAppend(PacketLists(ws), w.packets);
    FlattenAppend(RowLists(ws), w.rows);
  }

  /** A pending packet more: nothing is lost yet, and the builder may be full. */
  lemma GrownConserves(ws: seq<Window>, b: Builder, stream: seq<Packet>, pkt: Packet, now: real)
    requires Conserved(ws, b, stream)
    ensures var grown := b.Grown(pkt, now);
      && |grown.rows| == |grown.packets| <= b.size && grown.last == LastTime(stream + [pkt])
      && Flatten(PacketLists(ws)) + grown.packets == stream + [pkt]
      && Flatten(RowLists(ws)) + grown.rows == StreamRows(stream + [pkt])
  {
    StreamAppend(stream, pkt);
    assert Flatten(PacketLists(ws)) + (b.packets + [pkt]) == stream + [pkt];
    var row := BuildPacketRow(pkt, b.last);
    assert Flatten(RowLists(ws)) + (b.rows + [row]) == StreamRows(stream) + [row];
  }

  /** A window that takes everything pending. */
  lemma WindowConserves(ws: seq<Window>, w: Window, b: Builder, stream: seq<Packet>)
    requires Flatten(PacketLists(ws)) + w.packets == stream && Flatten(RowLists(ws)) + w.rows == StreamRows(stream)
    requires b.rows == [] && b.packets == [] && b.size > 0 && b.last == LastTime(stream)
    requires WellMade(w, b.size) && forall i | 0 <= i < |ws| :: WellMade(ws[i], b.size)
    ensures Conserved(ws + [w], b, stream)
  {
    EmitLists(ws, w);
  }

  /** Closing moves what is pending into one more window. */
  lemma ClosedConserves(ws: seq<Window>, b: Builder, stream: seq<Packet>, reason: Reason)
    requires 0 < |b.rows| == |b.packets| <= b.size && b.last == LastTime(stream)
    requires reason == WindowSize <==> |b.rows| == b.size
    requires Flatten(PacketLists(ws)) + b.packets == stream && Flatten(RowLists(ws)) + b.rows == StreamRows(stream)
    requires forall i | 0 <= i < |ws| :: WellMade(ws[i], b.size)
    ensures Conserved(ws + [b.Closed(reason).1.value], b.Closed(reason).0, stream)
  {
    var w := b.Closed(reason).1.value;
    assert w.rows == b.rows && w.packets == b.packets && w.closeReason == reason;
    WindowConserves(ws, w, b.Closed(reason).0, stream);
  }

  lemma AddConserves(ws: seq<Window>, b: Builder, stream: seq<Packet>, pkt: Packet, now: real)
    requires Conserved(ws, b, stream) && pkt.hasIp
    ensures var (b', w) := b.Add(pkt, now); Conserved(Emit(ws, w), b', stream + [pkt])
  {
    GrownConserves(ws, b, stream, pkt, now);
    var grown := b.Grown(pkt, now);
    if |grown.rows| >= b.size {
      ClosedConserves(ws, grown, stream + [pkt], WindowSize);
    }
  }

  lemma ExpireConserves(ws: seq<Window>, b: Builder, stream: seq<Packet>, now: real)
    requires Conserved(ws, b, stream)
    ensures var (b', w) := b.Expire(now); Conserved(Emit(ws, w), b', stream)
  {
    if b.Expire(now).1.Some? {
      ClosedConserves(ws, b, stream, IdleStale);
    }
  }

  lemma FlushConserves(ws: seq<Window>, b: Builder, stream: seq<Packet>)
    requires Conserved(ws, b, stream)
    ensures var (b', w) := b.Flush(); Conserved(Emit(ws, w), b', stream) && b'.rows == []
  {
    if b.rows != [] {
      ClosedConserves(ws, b, stream, ShutdownFlush);
    }
  }

  lemma SliceOf<T>(parts: seq<seq<T>>, n: nat, k: nat, tail: seq<T>, whole: seq<T>)
    requires forall i | 0 <= i < |parts| :: |parts[i]| == n
    requires k < |parts| && Flatten(parts) + tail == whole
    ensures 0 <= n * k <= n * k + n <= |whole|
    ensures parts[k] == whole[n * k..n * k + n]
  {
    FlattenSlice(parts, n, k, tail);
  }

  lemma SizedLists(ws: seq<Window>, n: nat)
    requires forall i | 0 <= i < |ws| :: WellMade(ws[i], n) && ws[i].closeReason == WindowSize
    ensures forall i | 0 <= i < |ws| :: |PacketLists(ws)[i]| == n && |RowLists(ws)[i]| == n
  {
    forall i | 0 <= i < |ws| ensures |PacketLists(ws)[i]| == n && |RowLists(ws)[i]| == n {
      assert WellMade(ws[i], n);
    }
  }

  /** If every window closed by size, the k-th window is the k-th slice of the packets
      and of the rows that the windows and the pending tail make up. */
  lemma SizedWindows(ws: seq<Window>, b: Builder, stream: seq<Packet>, rows: seq<Row>, n: nat, k: nat)
    requires Flatten(PacketLists(ws)) + b.packets == stream && Flatten(RowLists(ws)) + b.rows == rows
    requires forall i | 0 <= i < |ws| :: WellMade(ws[i], n) && ws[i].closeReason == WindowSize
    requires k < |ws|
    ensures 0 <= n * k <= n * k + n <= |stream| && n * k + n <= |rows|
    ensures ws[k].packets == stream[n * k..n * k + n] && ws[k].rows == rows[n * k..n * k + n]
  {
    SizedLists(ws, n);
    SliceOf(PacketLists(ws), n, k, b.packets, stream);
    SliceOf(RowLists(ws), n, k, b.rows, rows);
  }
}
