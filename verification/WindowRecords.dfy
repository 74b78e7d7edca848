/** What rows and windows record over every run: the cells of a row, the measures of a
    window, and when a window closes for idleness. */
module WindowRecords {
  import opened Prelude
  import opened FeatureExtraction
  import opened FlowBuilder
  import opened ModelEngine
  import opened Pipeline
  import opened PipelineRuns
  import opened Evidence
  import opened WindowFeatures

  // ------------------------------------------------------------ rows

  /** The columns a row computes; the others are the packet's own header columns. */
  predicate Computed(c: Column)
  {
    c == TotSize || c == Iat || c == Number || c == Rate
  }

  /** A row of a packet: its time and protocol, its size on the wire with the Ethernet header
      the decoder drops, the time since the packet before, and its header columns. */
  ghost predicate RowTells(row: Row, pkt: Packet, before: Option<Packet>)
  {
    && row.ts == pkt.time && row.protocol == pkt.protocol
    && Get(row.cols, TotSize)
       == (pkt.length + if pkt.linktype == None || pkt.linktype == Some(1) then 14 else 0) as real
    && Get(row.cols, Number) == 1.0 && Get(row.cols, Rate) == 0.0
    && Get(row.cols, Iat) >= 0.0
    && (before.None? ==> Get(row.cols, Iat) == 0.0)
    && (before.Some? ==>
          Get(row.cols, Iat) == if before.value.time <= pkt.time then pkt.time - before.value.time else 0.0)
    && KeepsHeaders(row, pkt)
  }

  lemma RowCellOf(pkt: Packet, last: Option<real>, c: Column)
    requires c in ROW_COLUMNS
    ensures Get(BuildPacketRow(pkt, last).cols, c) == RowCell(pkt, last, c)
  {
  }

  lemma OtherCells(pkt: Packet, last: Option<real>, c: Column)
    requires c in ROW_COLUMNS && !Computed(c)
    ensures Get(BuildPacketRow(pkt, last).cols, c) == Get(pkt.headers, c)
  {
    RowCellOf(pkt, last, c);
    assert c.Ind? || c == AckCount || c == SynCount || c == FinCount || c == RstCount;
  }

  lemma SizeCell(pkt: Packet, last: Option<real>)
    ensures Get(BuildPacketRow(pkt, last).cols, TotSize)
         == (pkt.length + if pkt.linktype == None || pkt.linktype == Some(1) then 14 else 0) as real
  {
    assert TotSize in ROW_COLUMNS;
    RowCellOf(pkt, last, TotSize);
  }

  lemma FixedCells(pkt: Packet, last: Option<real>)
    ensures Get(BuildPacketRow(pkt, last).cols, Number) == 1.0 && Get(BuildPacketRow(pkt, last).cols, Rate) == 0.0
  {
    assert Number in ROW_COLUMNS && Rate in ROW_COLUMNS;
    RowCellOf(pkt, last, Number);
    RowCellOf(pkt, last, Rate);
  }

  /** The columns of a row: all indicators but five, the four counts, the size, the
      inter-arrival time, the number and the rate. */
  lemma RowColumnsAre(c: Column)
    ensures c in ROW_COLUMNS <==>
      match c
      case Ind(i) => i != TimeToLive && i != Arp && i != Igmp && i != IPv && i != Llc
      case TotSum => false
      case Min => false
      case Max => false
      case Avg => false
      case Variance => false
      case ProtocolType => false
      case _ => true
  {
  }

  /** Row `i` of a stream tells of packet `i` and the one before it. */
  lemma StreamRowTells(stream: seq<Packet>, i: nat)
    requires i < |stream|
    ensures RowTells(StreamRows(stream)[i], stream[i], if i == 0 then None else Some(stream[i - 1]))
  {
    StreamRowAt(stream, i);
    BuiltRowTells(stream[i], if i == 0 then None else Some(stream[i - 1]));
  }

  lemma BuiltRowTells(pkt: Packet, before: Option<Packet>)
    ensures RowTells(BuildPacketRow(pkt, if before.None? then None else Some(before.value.time)), pkt, before)
  {
    var last := if before.None? then None else Some(before.value.time);
    SizeCell(pkt, last);
    FixedCells(pkt, last);
    RowIat(pkt, last);
    HeaderCells(BuildPacketRow(pkt, last), pkt, last);
  }

  ghost predicate KeepsHeaders(row: Row, pkt: Packet)
  {
    forall c | c in ROW_COLUMNS && !Computed(c) :: Get(row.cols, c) == Get(pkt.headers, c)
  }

  lemma HeaderCells(row: Row, pkt: Packet, last: Option<real>)
    requires row == BuildPacketRow(pkt, last)
    ensures KeepsHeaders(row, pkt)
  {
    forall c | c in ROW_COLUMNS && !Computed(c) ensures Get(row.cols, c) == Get(pkt.headers, c) {
      OtherCells(pkt, last, c);
    }
  }

  // ------------------------------------------------------------ windows

  /** Row `i` is earlier than the row before it. */
  predicate DropAt(rows: seq<Row>, i: int)
  {
    0 < i < |rows| && rows[i].ts < rows[i - 1].ts
  }

  function Drops(rows: seq<Row>): (s: set<int>)
  {
    set i | 0 < i < |rows| && DropAt(rows, i)
  }

  lemma {:induction false} OutOfOrderAre(rows: seq<Row>)
    ensures OutOfOrder(rows) == |Drops(rows)|
    decreases |rows|
  {
    if |rows| >= 2 {
      var init, last := rows[..|rows| - 1], |rows| - 1;
      OutOfOrderAre(init);
      assert forall i | 0 < i < last :: DropAt(init, i) == DropAt(rows, i);
      assert Drops(rows) == Drops(init) + if DropAt(rows, last) then {last} else {};
    } else {
      assert Drops(rows) == {};
    }
  }

  /** A window's span is the time from its earliest row to its latest, and its out-of-order
      count is the number of rows earlier than the one before. */
  ghost predicate Measured(w: Window)
  {
    w.rows != [] && Lasted(w.rows, w.trueSpan) && w.outOfOrder == |Drops(w.rows)|
  }

  lemma ClosedMeasured(rows: seq<Row>, packets: seq<Packet>, reason: Reason)
    requires |rows| > 0
    ensures Measured(WindowOf(rows, packets, reason))
  {
    Lasting(rows);
    OutOfOrderAre(rows);
  }

  /** Every window a builder gives up is measured. */
  lemma GivenUpMeasured(b: Builder, pkt: Packet, now: real)
    ensures b.Add(pkt, now).1.Some? ==> Measured(b.Add(pkt, now).1.value)
    ensures b.Expire(now).1.Some? ==> Measured(b.Expire(now).1.value)
    ensures b.Flush().1.Some? ==> Measured(b.Flush().1.value)
  {
    if pkt.hasIp {
      ClosedMeasured(b.Grown(pkt, now).rows, b.Grown(pkt, now).packets, WindowSize);
    }
    if b.rows != [] {
      ClosedMeasured(b.rows, b.packets, IdleStale);
      ClosedMeasured(b.rows, b.packets, ShutdownFlush);
    }
  }

  ghost predicate AllMeasured(items: seq<Item>)
  {
    forall i | 0 <= i < |items| :: Measured(items[i].window)
  }

  lemma HandleMeasured(c: Core, c': Core, w: Option<Window>, tag: Tag, o: WindowOracle)
    requires AllMeasured(c.items) && c'.items == c.items && (w.Some? ==> Measured(w.value))
    ensures AllMeasured(Handle(c', w, tag, o).items)
  {
    if w.Some? {
      var item := NewItem(c', w.value, tag, o);
    }
  }

  lemma ProcessMeasured(c: Core, s: Step)
    requires AllMeasured(c.items)
    ensures AllMeasured(Process(c, s).items)
  {
    var pkt, t := s.pkt, s.tick;
    var c0 := Counted(c, pkt);
    GivenUpMeasured(c0.b10, pkt, t.open10);
    HandleMeasured(c0, c0.(b10 := c0.b10.Add(pkt, t.open10).0), c0.b10.Add(pkt, t.open10).1, W10, t.o10);
    var c1 := Add10(c0, pkt, t);
    GivenUpMeasured(c1.b100, pkt, t.open100);
    HandleMeasured(c1, c1.(b100 := c1.b100.Add(pkt, t.open100).0), c1.b100.Add(pkt, t.open100).1, W100, t.o100);
    var c2 := Add100(c1, pkt, t);
    GivenUpMeasured(c2.b10, pkt, t.expire10);
    HandleMeasured(c2, c2.(b10 := c2.b10.Expire(t.expire10).0), c2.b10.Expire(t.expire10).1, W10, t.o10);
    var c3 := Stale10(c2, t);
    GivenUpMeasured(c3.b100, pkt, t.expire100);
    HandleMeasured(c3, c3.(b100 := c3.b100.Expire(t.expire100).0), c3.b100.Expire(t.expire100).1, W100, t.o100);
  }

  lemma {:induction false} RunMeasured(mem: Memory, steps: seq<Step>)
    ensures AllMeasured(Run(mem, steps).items)
    decreases |steps|
  {
    if steps != [] {
      RunMeasured(mem, steps[..|steps| - 1]);
      ProcessMeasured(Run(mem, steps[..|steps| - 1]), steps[|steps| - 1]);
    }
  }

  /** Every logged window of every run, trailing ones included, is measured. */
  lemma LoggedMeasured(mem: Memory, steps: seq<Step>, o10: WindowOracle, o100: WindowOracle)
    ensures AllMeasured(Shutdown(Run(mem, steps), o10, o100).items)
  {
    RunMeasured(mem, steps);
    var c, none := Run(mem, steps), Packet(false, Ident(None, None), 0.0, 0, None, 0, map[]);
    GivenUpMeasured(c.b10, none, 0.0);
    HandleMeasured(c, c.(b10 := c.b10.Flush().0), c.b10.Flush().1, W10, o10);
    var c1 := Handle(c.(b10 := c.b10.Flush().0), c.b10.Flush().1, W10, o10);
    GivenUpMeasured(c1.b100, none, 0.0);
    HandleMeasured(c1, c1.(b100 := c1.b100.Flush().0), c1.b100.Flush().1, W100, o100);
  }

  // ------------------------------------------------------------ idle closing

  function OpenOf(t: Tick, tag: Tag): (x: real) { if tag == W100 then t.open100 else t.open10 }

  function ExpireOf(t: Tick, tag: Tag): (x: real) { if tag == W100 then t.expire100 else t.expire10 }

  function BuilderOf(c: Core, tag: Tag): (b: Builder) { if tag == W100 then c.b100 else c.b10 }

  /** A window whose first packet is `first` was opened at step `t`, at the reading `at`. */
  ghost predicate OpenedAt(steps: seq<Step>, tag: Tag, first: Packet, t: int, at: real)
  {
    0 <= t < |steps| && steps[t].pkt == first && first.hasIp && at == OpenOf(steps[t].tick, tag)
  }

  /** What is pending remembers when its first packet came. */
  ghost predicate Remembers(b: Builder, steps: seq<Step>, tag: Tag)
  {
    && b.idle == 60.0 && |b.rows| == |b.packets|
    && (b.packets != [] ==> exists t :: OpenedAt(steps, tag, b.packets[0], t, b.openedAt))
  }

  /** A window closed for idleness had been open for sixty seconds or more at the stale check
      that closed it. */
  ghost predicate WasStale(item: Item, steps: seq<Step>)
  {
    item.window.closeReason == IdleStale ==>
      && 1 <= item.position <= |steps| && item.window.packets != []
      && exists t, at :: OpenedAt(steps, item.tag, item.window.packets[0], t, at) && t < item.position
                      && ExpireOf(steps[item.position - 1].tick, item.tag) - at >= 60.0
  }

  ghost predicate Timed(c: Core, steps: seq<Step>)
  {
    && c.position == |steps| && Remembers(c.b10, steps, W10) && Remembers(c.b100, steps, W100)
    && forall i | 0 <= i < |c.items| :: WasStale(c.items[i], steps)
  }

  lemma OpenedAtMore(steps: seq<Step>, s: Step, tag: Tag, first: Packet, t: int, at: real)
    requires OpenedAt(steps, tag, first, t, at)
    ensures OpenedAt(steps + [s], tag, first, t, at)
  {
  }

  lemma RemembersMore(b: Builder, steps: seq<Step>, s: Step, tag: Tag)
    requires Remembers(b, steps, tag)
    ensures Remembers(b, steps + [s], tag)
  {
    if b.packets != [] {
      var t :| OpenedAt(steps, tag, b.packets[0], t, b.openedAt);
      OpenedAtMore(steps, s, tag, b.packets[0], t, b.openedAt);
    }
  }

  lemma WasStaleMore(item: Item, steps: seq<Step>, s: Step)
    requires WasStale(item, steps)
    ensures WasStale(item, steps + [s])
  {
    if item.window.closeReason == IdleStale {
      var t, at :| OpenedAt(steps, item.tag, item.window.packets[0], t, at) && t < item.position
                && ExpireOf(steps[item.position - 1].tick, item.tag) - at >= 60.0;
      OpenedAtMore(steps, s, item.tag, item.window.packets[0], t, at);
    }
  }

  lemma CountedTimed(c: Core, steps: seq<Step>, s: Step)
    requires Timed(c, steps)
    ensures Timed(Counted(c, s.pkt), steps + [s])
  {
    RemembersMore(c.b10, steps, s, W10);
    RemembersMore(c.b100, steps, s, W100);
    forall i | 0 <= i < |c.items| ensures WasStale(c.items[i], steps + [s]) {
      WasStaleMore(c.items[i], steps, s);
    }
  }

  /** Adding the current step's packet: if it opens the window, the reading is its own. */
  lemma AddRemembers(b: Builder, steps: seq<Step>, tag: Tag)
    requires steps != [] && Remembers(b, steps, tag)
    ensures var s := steps[|steps| - 1]; var (r, w) := b.Add(s.pkt, OpenOf(s.tick, tag));
      Remembers(r, steps, tag) && (w.Some? ==> w.value.closeReason == WindowSize)
  {
    var s := steps[|steps| - 1];
    var grown := b.Grown(s.pkt, OpenOf(s.tick, tag));
    if s.pkt.hasIp {
      if b.packets == [] {
        assert OpenedAt(steps, tag, s.pkt, |steps| - 1, OpenOf(s.tick, tag));
        assert grown.packets[0] == s.pkt && grown.openedAt == OpenOf(s.tick, tag);
      } else {
        assert grown.packets[0] == b.packets[0] && grown.openedAt == b.openedAt;
      }
    }
  }

  /** A stale check gives up exactly what has been open for sixty seconds. */
  lemma ExpireRemembers(b: Builder, steps: seq<Step>, tag: Tag)
    requires steps != [] && Remembers(b, steps, tag)
    ensures var now := ExpireOf(steps[|steps| - 1].tick, tag); var (r, w) := b.Expire(now);
      && Remembers(r, steps, tag)
      && (w.Some? <==> b.packets != [] && now - b.openedAt >= 60.0)
      && (w.Some? ==> w.value.packets == b.packets && r.packets == [] && w.value.closeReason == IdleStale)
      && (w.None? ==> r == b)
  {
  }

  lemma HandleTimed(c: Core, c': Core, w: Option<Window>, tag: Tag, o: WindowOracle, steps: seq<Step>)
    requires Timed(c, steps) && c'.items == c.items && c'.position == c.position
    requires Remembers(c'.b10, steps, W10) && Remembers(c'.b100, steps, W100)
    requires w.Some? ==> steps != [] && (w.value.closeReason == IdleStale ==>
      w.value.packets != []
      && exists t, at :: OpenedAt(steps, tag, w.value.packets[0], t, at)
                      && ExpireOf(steps[|steps| - 1].tick, tag) - at >= 60.0)
    ensures Timed(Handle(c', w, tag, o), steps)
    ensures Handle(c', w, tag, o).b10 == c'.b10 && Handle(c', w, tag, o).b100 == c'.b100
  {
    HandleEmits(c', w, tag, o);
    if w.Some? {
      var item := NewItem(c', w.value, tag, o);
      if w.value.closeReason == IdleStale {
        var t, at :| OpenedAt(steps, tag, w.value.packets[0], t, at)
                  && ExpireOf(steps[|steps| - 1].tick, tag) - at >= 60.0;
        assert OpenedAt(steps, item.tag, item.window.packets[0], t, at) && t < item.position;
      }
      assert WasStale(item, steps);
    }
  }

  lemma AddsTimed(c: Core, steps: seq<Step>)
    requires steps != [] && Timed(c, steps)
    ensures var s := steps[|steps| - 1]; Timed(Add100(Add10(c, s.pkt, s.tick), s.pkt, s.tick), steps)
  {
    var s := steps[|steps| - 1];
    AddRemembers(c.b10, steps, W10);
    var (b10, w10) := c.b10.Add(s.pkt, s.tick.open10);
    HandleTimed(c, c.(b10 := b10), w10, W10, s.tick.o10, steps);
    var c1 := Add10(c, s.pkt, s.tick);
    AddRemembers(c1.b100, steps, W100);
    var (b100, w100) := c1.b100.Add(s.pkt, s.tick.open100);
    HandleTimed(c1, c1.(b100 := b100), w100, W100, s.tick.o100, steps);
  }

  /** What is pending in a builder is younger than sixty seconds at the last stale check. */
  ghost predicate Young(c: Core, steps: seq<Step>, tag: Tag)
  {
    BuilderOf(c, tag).packets != [] && steps != [] ==>
      exists t, at :: OpenedAt(steps, tag, BuilderOf(c, tag).packets[0], t, at)
                   && ExpireOf(steps[|steps| - 1].tick, tag) - at < 60.0
  }

  lemma Stale10Timed(c: Core, steps: seq<Step>)
    requires steps != [] && Timed(c, steps)
    ensures var r := Stale10(c, steps[|steps| - 1].tick); Timed(r, steps) && Young(r, steps, W10) && r.b100 == c.b100
  {
    var t := steps[|steps| - 1].tick;
    ExpireRemembers(c.b10, steps, W10);
    var (b, w) := c.b10.Expire(t.expire10);
    HandleTimed(c, c.(b10 := b), w, W10, t.o10, steps);
  }

  lemma Stale100Timed(c: Core, steps: seq<Step>)
    requires steps != [] && Timed(c, steps)
    ensures var r := Stale100(c, steps[|steps| - 1].tick); Timed(r, steps) && Young(r, steps, W100) && r.b10 == c.b10
  {
    var t := steps[|steps| - 1].tick;
    ExpireRemembers(c.b100, steps, W100);
    var (b, w) := c.b100.Expire(t.expire100);
    HandleTimed(c, c.(b100 := b), w, W100, t.o100, steps);
  }

  lemma ProcessTimed(c: Core, steps: seq<Step>, s: Step)
    requires Timed(c, steps)
    ensures var r := Process(c, s); Timed(r, steps + [s]) && forall tag: Tag :: Young(r, steps + [s], tag)
  {
    var all := steps + [s];
    CountedTimed(c, steps, s);
    var c0 := Counted(c, s.pkt);
    AddsTimed(c0, all);
    var c2 := Add100(Add10(c0, s.pkt, s.tick), s.pkt, s.tick);
    Stale10Timed(c2, all);
    Stale100Timed(Stale10(c2, s.tick), all);
  }

  /** Over every run: a window closes for idleness exactly when it has been open for sixty
      seconds at a stale check. What closed so had been, and what is still pending after a
      step has not. */
  lemma {:induction false} IdleClosesIff(mem: Memory, steps: seq<Step>)
    ensures Timed(Run(mem, steps), steps) && forall tag: Tag :: Young(Run(mem, steps), steps, tag)
    decreases |steps|
  {
    if steps != [] {
      var init, s := steps[..|steps| - 1], steps[|steps| - 1];
      IdleClosesIff(mem, init);
      ProcessTimed(Run(mem, init), init, s);
      assert steps == init + [s];
    }
  }
}
