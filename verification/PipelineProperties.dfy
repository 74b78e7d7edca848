/** Two consequences over whole runs: what evidence is never taken for, and how the
    10-packet and 100-packet windows line up. */
module PipelineProperties {
  import opened Prelude
  import opened FlowBuilder
  import opened ModelEngine
  import opened Pipeline
  import opened PipelineRuns
  import opened FeatureExtraction
  import opened TrainingModels
  import Trigger

  // ------------------------------------------------------- no uncertain evidence

  ghost predicate TrainedSteps(steps: seq<Step>)
  {
    forall i | 0 <= i < |steps| :: Trained(steps[i].tick.o10.inference) && Trained(steps[i].tick.o100.inference)
  }

  /** The remembered verdicts name an attack or are too weak to fire, and nothing
      inconclusive has fired. */
  ghost predicate Reliable(c: Core)
  {
    && c.mem.Slots?
    && (forall t | t in c.mem.slots ::
          var r := c.mem.slots[t].verdict.Answer(); Sound(r) && r.name != Benign)
    && forall i | 0 <= i < |c.items| :: c.items[i].fired ==> !Inconclusive(c.items[i].result.name)
  }

  lemma ClassifiedIsSound(c: Core, w: Window, tag: Tag, o: WindowOracle)
    requires Reliable(c) && Trained(o.inference)
    ensures var (mem, r) := Classified(c.mem, w, tag, c.position, o);
      Sound(r) && Reliable(c.(mem := mem))
  {
    if o.inference.Scores? && RunStages(o.inference).Some? {
      TrainedVerdictIsSound(o.inference);
    }
  }

  lemma HandleReliable(c: Core, w: Option<Window>, tag: Tag, o: WindowOracle)
    requires Reliable(c) && Trained(o.inference)
    ensures Reliable(Handle(c, w, tag, o))
  {
    if w.Some? {
      ClassifiedIsSound(c, w.value, tag, o);
    }
  }

  lemma ProcessReliable(c: Core, s: Step)
    requires Reliable(c) && Trained(s.tick.o10.inference) && Trained(s.tick.o100.inference)
    ensures Reliable(Process(c, s))
  {
    var t := s.tick;
    var c0 := Counted(c, s.pkt);
    var (b0, w0) := c0.b10.Add(s.pkt, t.open10);
    HandleReliable(c0.(b10 := b0), w0, W10, t.o10);
    var c1 := Add10(c0, s.pkt, t);
    var (b1, w1) := c1.b100.Add(s.pkt, t.open100);
    HandleReliable(c1.(b100 := b1), w1, W100, t.o100);
    var c2 := Add100(c1, s.pkt, t);
    var (b2, w2) := c2.b10.Expire(t.expire10);
    HandleReliable(c2.(b10 := b2), w2, W10, t.o10);
    var c3 := Stale10(c2, t);
    var (b3, w3) := c3.b100.Expire(t.expire100);
    HandleReliable(c3.(b100 := b3), w3, W100, t.o100);
  }

  lemma {:induction false} RunReliable(steps: seq<Step>)
    requires TrainedSteps(steps)
    ensures Reliable(Run(Slots(map[]), steps))
    decreases |steps|
  {
    if steps != [] {
      RunReliable(steps[..|steps| - 1]);
      ProcessReliable(Run(Slots(map[]), steps[..|steps| - 1]), steps[|steps| - 1]);
    }
  }

  lemma NoneWhileRunning(steps: seq<Step>, i: nat)
    requires TrainedSteps(steps) && i < |Run(Slots(map[]), steps).items|
    ensures var item := Run(Slots(map[]), steps).items[i];
      item.incident || item.fired ==> !Inconclusive(item.result.name)
  {
    RunReliable(steps);
    RunKeeps(Slots(map[]), steps);
    assert Answered(Run(Slots(map[]), steps), Run(Slots(map[]), steps).items[i]);
  }

  /** Over every run and its shutdown flush, overrides included, evidence is never
      acquired for a benign, uncertain, unavailable or partial window. */
  lemma NoUncertainEvidence(steps: seq<Step>, o10: WindowOracle, o100: WindowOracle, i: nat)
    requires TrainedSteps(steps) && i < |Shutdown(Run(Slots(map[]), steps), o10, o100).items|
    ensures var item := Shutdown(Run(Slots(map[]), steps), o10, o100).items[i];
      item.incident || item.fired ==>
        item.result.name !in { Benign, FloodUncertain, ModelUnavailable, InsufficientData }
  {
    ShutdownAccounts(Slots(map[]), steps, o10, o100);
    if i < |Run(Slots(map[]), steps).items| {
      NoneWhileRunning(steps, i);
    }
  }

  // --------------------------------------------------------- dual-window alignment

  /** Every packet had an IP layer and no window closed for idleness. */
  ghost predicate Undisturbed(c: Core)
  {
    && c.position == |c.stream|
    && forall tag: Tag, i | 0 <= i < |WindowsOf(c, tag)| :: WindowsOf(c, tag)[i].closeReason == WindowSize
  }

  /** The k-th window holds the k-th ten packets and was handled at the last of them. */
  ghost predicate Tens(items: seq<Item>, ws: seq<Window>, stream: seq<Packet>, rows: seq<Row>)
  {
    && |items| == |ws| && |rows| == |stream| < 10 * |ws| + 10
    && forall k | 0 <= k < |ws| ::
         && 10 * k + 10 <= |stream| && items[k].position == 10 * k + 10
         && ws[k].packets == stream[10 * k..10 * k + 10] && ws[k].rows == rows[10 * k..10 * k + 10]
  }

  ghost predicate Hundreds(items: seq<Item>, ws: seq<Window>, stream: seq<Packet>, rows: seq<Row>)
  {
    && |items| == |ws| && |rows| == |stream| < 100 * |ws| + 100
    && forall k | 0 <= k < |ws| ::
         && 100 * k + 100 <= |stream| && items[k].position == 100 * k + 100
         && ws[k].packets == stream[100 * k..100 * k + 100] && ws[k].rows == rows[100 * k..100 * k + 100]
  }

  lemma PrefixWidth(ws: seq<Window>, n: nat, m: nat)
    requires m <= |ws| && forall i | 0 <= i < |ws| :: WellMade(ws[i], n) && ws[i].closeReason == WindowSize
    ensures |Flatten(PacketLists(ws[..m]))| == n * m
  {
    SizedLists(ws[..m], n);
    FlattenWidth(PacketLists(ws[..m]), n);
  }

  lemma PositionIs(c: Core, tag: Tag, n: nat, k: nat)
    requires Undisturbed(c) && Placed(c) && k < |WindowsOf(c, tag)|
    requires forall i | 0 <= i < |WindowsOf(c, tag)| :: WellMade(WindowsOf(c, tag)[i], n)
    ensures ItemsOf(c.items, tag)[k].position == n * (k + 1)
  {
    assert PlacedAt(ItemsOf(c.items, tag));
    assert Windows(ItemsOf(c.items, tag)[..k + 1]) == WindowsOf(c, tag)[..k + 1];
    PrefixWidth(WindowsOf(c, tag), n, k + 1);
  }

  lemma CountWindows(c: Core, tag: Tag, b: Builder, n: nat)
    requires Undisturbed(c) && Conserved(WindowsOf(c, tag), b, c.stream) && b.size == n
    ensures |c.stream| < n * |WindowsOf(c, tag)| + n
  {
    var ws := WindowsOf(c, tag);
    PrefixWidth(ws, n, |ws|);
    assert ws[..|ws|] == ws;
  }

  lemma SmallSliceAt(c: Core, k: nat)
    requires Placed(c) && Undisturbed(c) && c.b10.size == 10 && Conserved(WindowsOf(c, W10), c.b10, c.stream)
    requires k < |WindowsOf(c, W10)|
    ensures var w := WindowsOf(c, W10)[k];
      && 10 * k + 10 <= |c.stream| && ItemsOf(c.items, W10)[k].position == 10 * k + 10
      && w.packets == c.stream[10 * k..10 * k + 10] && w.rows == StreamRows(c.stream)[10 * k..10 * k + 10]
  {
    SizedWindows(WindowsOf(c, W10), c.b10, c.stream, StreamRows(c.stream), 10, k);
    PositionIs(c, W10, 10, k);
  }

  lemma SmallWindowsAreSlices(c: Core)
    requires Placed(c) && Undisturbed(c) && c.b10.size == 10 && Conserved(WindowsOf(c, W10), c.b10, c.stream)
    ensures Tens(ItemsOf(c.items, W10), WindowsOf(c, W10), c.stream, StreamRows(c.stream))
  {
    CountWindows(c, W10, c.b10, 10);
    forall k | 0 <= k < |WindowsOf(c, W10)|
      ensures var w := WindowsOf(c, W10)[k];
        && 10 * k + 10 <= |c.stream| && ItemsOf(c.items, W10)[k].position == 10 * k + 10
        && w.packets == c.stream[10 * k..10 * k + 10] && w.rows == StreamRows(c.stream)[10 * k..10 * k + 10]
    {
      SmallSliceAt(c, k);
    }
  }

  lemma LargeSliceAt(c: Core, k: nat)
    requires Placed(c) && Undisturbed(c) && c.b100.size == 100 && Conserved(WindowsOf(c, W100), c.b100, c.stream)
    requires k < |WindowsOf(c, W100)|
    ensures var w := WindowsOf(c, W100)[k];
      && 100 * k + 100 <= |c.stream| && ItemsOf(c.items, W100)[k].position == 100 * k + 100
      && w.packets == c.stream[100 * k..100 * k + 100] && w.rows == StreamRows(c.stream)[100 * k..100 * k + 100]
  {
    SizedWindows(WindowsOf(c, W100), c.b100, c.stream, StreamRows(c.stream), 100, k);
    PositionIs(c, W100, 100, k);
  }

  lemma LargeWindowsAreSlices(c: Core)
    requires Placed(c) && Undisturbed(c) && c.b100.size == 100 && Conserved(WindowsOf(c, W100), c.b100, c.stream)
    ensures Hundreds(ItemsOf(c.items, W100), WindowsOf(c, W100), c.stream, StreamRows(c.stream))
  {
    CountWindows(c, W100, c.b100, 100);
    forall k | 0 <= k < |WindowsOf(c, W100)|
      ensures var w := WindowsOf(c, W100)[k];
        && 100 * k + 100 <= |c.stream| && ItemsOf(c.items, W100)[k].position == 100 * k + 100
        && w.packets == c.stream[100 * k..100 * k + 100] && w.rows == StreamRows(c.stream)[100 * k..100 * k + 100]
    {
      LargeSliceAt(c, k);
    }
  }

  /** The ten 10-packet windows that fill the 100-packet window k. */
  function TenOf(ws: seq<Window>, k: nat): (r: seq<Window>)
    requires 10 * k + 10 <= |ws|
    ensures |r| == 10
  {
    ws[10 * k..10 * k + 10]
  }

  lemma {:induction false} SlicesJoin<T>(s: seq<T>, ss: seq<seq<T>>, from: nat)
    requires from + 10 * |ss| <= |s|
    requires forall i | 0 <= i < |ss| :: ss[i] == s[from + 10 * i..from + 10 * i + 10]
    ensures Flatten(ss) == s[from..from + 10 * |ss|]
    decreases |ss|
  {
    if |ss| > 0 {
      SlicesJoin(s, ss[..|ss| - 1], from);
    }
  }

  lemma TenAt(i10: seq<Item>, ws10: seq<Window>, stream: seq<Packet>, rows: seq<Row>, k: nat, i: nat)
    requires Tens(i10, ws10, stream, rows) && 10 * k + 10 <= |ws10| && i < 10
    ensures var at, w := 100 * k + 10 * i, TenOf(ws10, k)[i];
      at + 10 <= |stream| && w.packets == stream[at..at + 10] && w.rows == rows[at..at + 10]
  {
    assert TenOf(ws10, k)[i] == ws10[10 * k + i];
    assert 10 * (10 * k + i) + 10 <= |stream|;
  }

  lemma TensFillHundred(i10: seq<Item>, ws10: seq<Window>, i100: seq<Item>, ws100: seq<Window>,
                        stream: seq<Packet>, rows: seq<Row>, k: nat)
    requires Tens(i10, ws10, stream, rows) && Hundreds(i100, ws100, stream, rows) && k < |ws100|
    ensures 10 * k + 10 <= |ws10|
    ensures ws100[k].packets == Flatten(PacketLists(TenOf(ws10, k)))
    ensures ws100[k].rows == Flatten(RowLists(TenOf(ws10, k)))
    ensures forall i | 0 <= i < 10 :: |TenOf(ws10, k)[i].rows| == 10
  {
    assert 100 * k + 100 <= |stream|;
    var small, from := TenOf(ws10, k), 100 * k;
    forall i | 0 <= i < 10
      ensures PacketLists(small)[i] == stream[from + 10 * i..from + 10 * i + 10]
      ensures RowLists(small)[i] == rows[from + 10 * i..from + 10 * i + 10]
    {
      TenAt(i10, ws10, stream, rows, k, i);
    }
    SlicesJoin(stream, PacketLists(small), from);
    SlicesJoin(rows, RowLists(small), from);
  }

  lemma RowsOfTens(i10: seq<Item>, ws10: seq<Window>, stream: seq<Packet>, k: nat)
    requires Tens(i10, ws10, stream, StreamRows(stream)) && 10 * k + 10 <= |ws10|
    ensures forall i | 0 <= i < 10 ::
      |RowLists(TenOf(ws10, k))[i]| == 10 && Uniform(RowLists(TenOf(ws10, k))[i], ROW_COLUMNS)
  {
    StreamRowsUniform(stream);
    forall i | 0 <= i < 10 ensures Uniform(TenOf(ws10, k)[i].rows, ROW_COLUMNS) && |TenOf(ws10, k)[i].rows| == 10 {
      assert TenOf(ws10, k)[i] == ws10[10 * k + i];
    }
  }

  lemma LiveRowShape()
    ensures LiveShape(ROW_COLUMNS)
  {
  }

  /** Training and serving agree: without idle closings, rebuilding a 100-packet row from
      the live features of ten consecutive 10-packet windows gives, in every modelled
      column, the live features of the 100-packet window over the same packets. */
  lemma RebuiltRowIsLiveRow(mem: Memory, steps: seq<Step>, k: nat)
    requires var c := Run(mem, steps); Undisturbed(c) && k < |WindowsOf(c, W100)|
    ensures var c := Run(mem, steps); 10 * k + 10 <= |WindowsOf(c, W10)|
    ensures var c := Run(mem, steps);
      var small, big := RowLists(TenOf(WindowsOf(c, W10), k)), WindowsOf(c, W100)[k];
      && (forall i | 0 <= i < |small| :: |small[i]| > 0 && Uniform(small[i], ROW_COLUMNS))
      && |big.rows| == 100 && Uniform(big.rows, ROW_COLUMNS)
      && var group, cols := Aggregates(small, ROW_COLUMNS), AggregateColumns(ROW_COLUMNS);
         && Table(group, cols)
         && var rebuilt, live := ReconstructW100Row(group, cols), AggregateWindow(big.rows, ROW_COLUMNS);
            forall col :: (col in rebuilt <==> Rebuilt(cols, col))
                       && (col in rebuilt ==> col in live && rebuilt[col] == live[col])
  {
    RunKeeps(mem, steps);
    var c := Run(mem, steps);
    var ws10, ws100 := WindowsOf(c, W10), WindowsOf(c, W100);
    SmallWindowsAreSlices(c);
    LargeWindowsAreSlices(c);
    TensFillHundred(ItemsOf(c.items, W10), ws10, ItemsOf(c.items, W100), ws100, c.stream, StreamRows(c.stream), k);
    RowsOfTens(ItemsOf(c.items, W10), ws10, c.stream, k);
    LiveRowShape();
    ReconstructionIsExact(RowLists(TenOf(ws10, k)), ROW_COLUMNS);
  }
}
