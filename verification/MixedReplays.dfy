/** Several flows in one capture without idle closings: the join sees exactly the packets
    whose ten-packet block holds one flow, and loses nothing exactly when the flow changes
    only after multiples of ten packets. */
module MixedReplays {
  import opened Prelude
  import opened FeatureExtraction
  import opened FlowBuilder
  import opened ModelEngine
  import opened Pipeline
  import opened PipelineRuns
  import opened PipelineProperties
  import opened WindowLabels
  import opened PromptRuns
  import opened Scoring
  import opened EndToEnd
  import opened Lossless

  // ------------------------------------------------ every window is a slice on the beat

  /** The packets of a window are a slice of the stream that starts at a multiple of ten
      and ends at one, or at the end of the stream. */
  ghost predicate OnTens(packets: seq<Packet>, stream: seq<Packet>, from: nat, to: nat)
  {
    && from < to <= |stream| && packets == stream[from..to]
    && from % 10 == 0 && (to % 10 == 0 || to == |stream|)
  }

  /** The k-th window of `n` packets, the last one possibly shorter. */
  ghost predicate SliceAt(w: Window, stream: seq<Packet>, n: nat, k: nat)
  {
    var from := n * k;
    0 <= from < |stream| && w.packets == stream[from..Lesser(from + n, |stream|)]
  }

  /** Windows closed by size and one more for the rest: all slices, up to the end. */
  lemma FlushedSlices(ws: seq<Window>, b: Builder, trailing: Option<Window>, stream: seq<Packet>, n: nat, k: nat)
    requires n > 0 && b.size == n && Conserved(ws, b, stream)
    requires forall i | 0 <= i < |ws| :: ws[i].closeReason == WindowSize
    requires trailing.Some? ==> trailing.value.packets == b.packets != []
    requires k < |Emit(ws, trailing)|
    ensures SliceAt(Emit(ws, trailing)[k], stream, n, k)
  {
    if k < |ws| {
      FullSlice(ws, b, stream, StreamRows(stream), n, k);
    } else {
      RestSlice(ws, trailing.value, b.packets, stream, n);
    }
  }

  lemma FullSlice(ws: seq<Window>, b: Builder, stream: seq<Packet>, rows: seq<Row>, n: nat, k: nat)
    requires Flatten(PacketLists(ws)) + b.packets == stream && Flatten(RowLists(ws)) + b.rows == rows
    requires forall i | 0 <= i < |ws| :: WellMade(ws[i], n) && ws[i].closeReason == WindowSize
    requires n > 0 && k < |ws|
    ensures SliceAt(ws[k], stream, n, k)
  {
    SizedWindows(ws, b, stream, rows, n, k);
  }

  lemma RestSlice(ws: seq<Window>, w: Window, rest: seq<Packet>, stream: seq<Packet>, n: nat)
    requires forall i | 0 <= i < |ws| :: WellMade(ws[i], n) && ws[i].closeReason == WindowSize
    requires Flatten(PacketLists(ws)) + rest == stream && 0 < |rest| < n && w.packets == rest
    ensures SliceAt(w, stream, n, |ws|)
  {
    SizedLists(ws, n);
    FlattenWidth(PacketLists(ws), n);
    TailSlice(w, Flatten(PacketLists(ws)), rest, stream, n, |ws|);
  }

  lemma TailSlice(w: Window, before: seq<Packet>, rest: seq<Packet>, stream: seq<Packet>, n: nat, k: nat)
    requires before + rest == stream && |before| == n * k && 0 < |rest| < n && w.packets == rest
    ensures SliceAt(w, stream, n, k)
  {
    var at := |before|;
    assert stream[at..] == rest && stream[at..|stream|] == stream[at..];
  }

  /** The flush logs each builder's trailing window, and no other. */
  lemma FlushLogs(c: Core, o10: WindowOracle, o100: WindowOracle)
    ensures var r := Shutdown(c, o10, o100);
      && WindowsOf(r, W10) == Emit(WindowsOf(c, W10), c.b10.Flush().1)
      && WindowsOf(r, W100) == Emit(WindowsOf(c, W100), c.b100.Flush().1)
  {
    var (b10, w10) := c.b10.Flush();
    HandleEmits(c.(b10 := b10), w10, W10, o10);
    var c1 := Handle(c.(b10 := b10), w10, W10, o10);
    var (b100, w100) := c1.b100.Flush();
    HandleEmits(c1.(b100 := b100), w100, W100, o100);
  }

  lemma FlushedAt(mem: Memory, steps: seq<Step>, o10: WindowOracle, o100: WindowOracle, tag: Tag, k: nat)
    requires Undisturbed(Run(mem, steps)) && k < |WindowsOf(Shutdown(Run(mem, steps), o10, o100), tag)|
    ensures SliceAt(WindowsOf(Shutdown(Run(mem, steps), o10, o100), tag)[k], Run(mem, steps).stream,
                    if tag == W100 then 100 else 10, k)
  {
    var c := Run(mem, steps);
    RunKeeps(mem, steps);
    FlushLogs(c, o10, o100);
    if tag == W100 {
      FlushedSlices(WindowsOf(c, W100), c.b100, c.b100.Flush().1, c.stream, 100, k);
    } else {
      FlushedSlices(WindowsOf(c, W10), c.b10, c.b10.Flush().1, c.stream, 10, k);
    }
  }

  /** Every logged window, of either size and trailing or not, is such a slice. */
  lemma ItemOnTens(mem: Memory, steps: seq<Step>, o10: WindowOracle, o100: WindowOracle, i: nat)
    returns (from: nat, to: nat)
    requires Undisturbed(Run(mem, steps)) && i < |Shutdown(Run(mem, steps), o10, o100).items|
    ensures OnTens(Shutdown(Run(mem, steps), o10, o100).items[i].window.packets, Run(mem, steps).stream, from, to)
  {
    var items, stream := Shutdown(Run(mem, steps), o10, o100).items, Run(mem, steps).stream;
    var k := ItemHasPlace(items, i);
    FlushedAt(mem, steps, o10, o100, items[i].tag, k);
    from, to := SliceOnTens(items[i].window, stream, items[i].tag == W100, k);
  }

  lemma SliceOnTens(w: Window, stream: seq<Packet>, large: bool, k: nat) returns (from: nat, to: nat)
    requires SliceAt(w, stream, if large then 100 else 10, k)
    ensures OnTens(w.packets, stream, from, to)
  {
    if large {
      from, to := 100 * k, Lesser(100 * k + 100, |stream|);
    } else {
      from, to := 10 * k, Lesser(10 * k + 10, |stream|);
    }
  }

  /** The block of ten around packet `t`, shorter at the end of the stream. */
  function TenAround(stream: seq<Packet>, t: nat): (r: seq<Packet>)
    requires t < |stream|
  {
    stream[t / 10 * 10..Lesser(t / 10 * 10 + 10, |stream|)]
  }

  /** The block around any packet is a logged window. */
  lemma BlockIsLogged(mem: Memory, steps: seq<Step>, o10: WindowOracle, o100: WindowOracle, t: nat)
    returns (i: nat)
    requires Undisturbed(Run(mem, steps)) && t < |Run(mem, steps).stream|
    ensures var items := Shutdown(Run(mem, steps), o10, o100).items;
      i < |items| && items[i].window.packets == TenAround(Run(mem, steps).stream, t)
  {
    var r, k := Shutdown(Run(mem, steps), o10, o100), t / 10;
    EnoughWindows(mem, steps, o10, o100, k);
    FlushedAt(mem, steps, o10, o100, W10, k);
    SliceIsBlock(WindowsOf(r, W10)[k], Run(mem, steps).stream, t);
    i := PlaceOf(r.items, W10, k);
  }

  lemma SliceIsBlock(w: Window, stream: seq<Packet>, t: nat)
    requires t < |stream| && SliceAt(w, stream, 10, t / 10)
    ensures w.packets == TenAround(stream, t)
  {
  }

  lemma EnoughWindows(mem: Memory, steps: seq<Step>, o10: WindowOracle, o100: WindowOracle, k: nat)
    requires Undisturbed(Run(mem, steps)) && 10 * k < |Run(mem, steps).stream|
    ensures k < |WindowsOf(Shutdown(Run(mem, steps), o10, o100), W10)|
  {
    var c := Run(mem, steps);
    RunKeeps(mem, steps);
    SmallWindowsAreSlices(c);
    FlushLogs(c, o10, o100);
    var ws := WindowsOf(c, W10);
    if k == |ws| {
      PrefixWidth(ws, 10, |ws|);
      assert ws[..|ws|] == ws;
    }
  }

  // ------------------------------------------------ what the join sees

  function FlowsIn(packets: seq<Packet>): (s: set<nat>)
  {
    set p | p in packets && p.id.flowId.Some? :: p.id.flowId.value
  }

  /** The packet at `t` carries the number, and its block of ten holds the flow alone. */
  ghost predicate AloneInTen(stream: seq<Packet>, f: nat, k: nat, t: nat)
  {
    t < |stream| && stream[t].id == Ident(Some(f), Some(k)) && FlowsIn(TenAround(stream, t)) == {f}
  }

  lemma BlockInside(packets: seq<Packet>, stream: seq<Packet>, from: nat, to: nat, t: nat)
    requires OnTens(packets, stream, from, to) && from <= t < to
    ensures forall pkt | pkt in TenAround(stream, t) :: pkt in packets
  {
    var a, b := t / 10 * 10, Lesser(t / 10 * 10 + 10, |stream|);
    assert from <= a < b <= to;
    forall pkt | pkt in TenAround(stream, t) ensures pkt in packets {
      var j :| 0 <= j < b - a && stream[a..b][j] == pkt;
      assert packets[a + j - from] == pkt;
    }
  }

  lemma AloneGoesDown(w: Window, stream: seq<Packet>, from: nat, to: nat, f: nat, k: nat) returns (t: nat)
    requires OnTens(w.packets, stream, from, to) && Alone(w, f, k)
    ensures AloneInTen(stream, f, k, t)
  {
    var pkt :| pkt in w.packets && pkt.id == Ident(Some(f), Some(k));
    var j :| 0 <= j < |w.packets| && w.packets[j] == pkt;
    t := from + j;
    BlockInside(w.packets, stream, from, to, t);
    InItsBlock(stream, t);
    forall g | g in FlowsIn(TenAround(stream, t)) ensures g == f {
      assert g in w.FlowIds();
    }
    assert f in FlowsIn(TenAround(stream, t));
  }

  lemma InItsBlock(stream: seq<Packet>, t: nat)
    requires t < |stream|
    ensures stream[t] in TenAround(stream, t)
  {
    assert TenAround(stream, t)[t % 10] == stream[t];
  }

  /** In every run without idle closings, whatever the mixture of flows: after the flush
      the join sees a packet of a flow exactly if the block of ten around one with its
      number holds that flow alone. Larger windows add nothing. */
  lemma SeenByTens(mem: Memory, steps: seq<Step>, o10: WindowOracle, o100: WindowOracle, index: JobIndex,
                   f: nat, k: nat)
    requires Undisturbed(Run(mem, steps)) && Paired(Run(mem, steps).stream) && f in index
    ensures k in Seen(index, Logged(Shutdown(Run(mem, steps), o10, o100).items), f)
       <==> exists t: nat :: AloneInTen(Run(mem, steps).stream, f, k, t)
  {
    var items, stream := Shutdown(Run(mem, steps), o10, o100).items, Run(mem, steps).stream;
    forall i | 0 <= i < |items| ensures Paired(items[i].window.packets) {
      var from, to := ItemOnTens(mem, steps, o10, o100, i);
    }
    SeenIsAlone(items, index, f, k);
    if LoggedAlone(items, f, k) {
      var i :| 0 <= i < |items| && Alone(items[i].window, f, k);
      var from, to := ItemOnTens(mem, steps, o10, o100, i);
      var t := AloneGoesDown(items[i].window, stream, from, to, f, k);
    }
    if t: nat :| AloneInTen(stream, f, k, t) {
      var i := BlockIsLogged(mem, steps, o10, o100, t);
      InItsBlock(stream, t);
      assert items[i].window.FlowIds() == FlowsIn(TenAround(stream, t));
      assert Alone(items[i].window, f, k);
    }
  }

  // ------------------------------------------------ when nothing is lost

  /** Every packet carries its flow and number, and no two the same. */
  ghost predicate Identified(stream: seq<Packet>)
  {
    && (forall t | 0 <= t < |stream| :: stream[t].id.flowId.Some? && stream[t].id.packetId.Some?)
    && forall t, u | 0 <= t < u < |stream| :: stream[t].id != stream[u].id
  }

  /** The numbers the stream holds of a flow. */
  function NumbersIn(stream: seq<Packet>, f: nat): (ks: set<nat>)
  {
    set pkt | pkt in stream && pkt.id.flowId == Some(f) && pkt.id.packetId.Some? :: pkt.id.packetId.value
  }

  lemma NumberAt(stream: seq<Packet>, f: nat, k: nat) returns (t: nat)
    requires Identified(stream) && k in NumbersIn(stream, f)
    ensures t < |stream| && stream[t].id == Ident(Some(f), Some(k))
  {
    var pkt :| pkt in stream && pkt.id.flowId == Some(f) && pkt.id.packetId == Some(k);
    t :| 0 <= t < |stream| && stream[t] == pkt;
  }

  /** Neighbours of different flows stand at a multiple of ten. */
  predicate ChangesOnTens(stream: seq<Packet>)
  {
    forall t | 0 < t < |stream| && stream[t - 1].id.flowId != stream[t].id.flowId :: t % 10 == 0
  }

  lemma {:induction false} SameFlowFrom(stream: seq<Packet>, a: nat, t: nat)
    requires a % 10 == 0 && a <= t < |stream| && t < a + 10 && ChangesOnTens(stream)
    ensures stream[t].id.flowId == stream[a].id.flowId
    decreases t
  {
    if a < t {
      SameFlowFrom(stream, a, t - 1);
    }
  }

  lemma BlockOfOneFlow(stream: seq<Packet>, t: nat, f: nat)
    requires t < |stream| && ChangesOnTens(stream) && stream[t].id.flowId == Some(f)
    ensures FlowsIn(TenAround(stream, t)) == {f}
  {
    var a, b := t / 10 * 10, Lesser(t / 10 * 10 + 10, |stream|);
    InItsBlock(stream, t);
    SameFlowFrom(stream, a, t);
    forall pkt | pkt in TenAround(stream, t) ensures pkt.id.flowId == Some(f) {
      var j :| 0 <= j < b - a && stream[a..b][j] == pkt;
      SameFlowFrom(stream, a, a + j);
    }
  }

  /** A change of flow inside a block leaves both sides without a block of their own. */
  lemma ChangeInside(stream: seq<Packet>, t: nat, f: nat)
    requires 0 < t < |stream| && t % 10 != 0 && stream[t - 1].id.flowId.Some?
    requires stream[t - 1].id.flowId != stream[t].id.flowId
    ensures FlowsIn(TenAround(stream, t)) != {f} || stream[t].id.flowId != Some(f)
  {
    assert TenAround(stream, t)[t % 10 - 1] == stream[t - 1];
    assert stream[t - 1] in TenAround(stream, t);
    assert stream[t - 1].id.flowId.value in FlowsIn(TenAround(stream, t));
  }

  lemma AloneOnTens(stream: seq<Packet>, f: nat, k: nat)
    requires Identified(stream) && ChangesOnTens(stream)
    ensures (exists t: nat :: AloneInTen(stream, f, k, t)) <==> k in NumbersIn(stream, f)
  {
    if t: nat :| AloneInTen(stream, f, k, t) {
      assert stream[t] in stream;
    }
    if k in NumbersIn(stream, f) {
      var t := NumberAt(stream, f, k);
      BlockOfOneFlow(stream, t, f);
      assert AloneInTen(stream, f, k, t);
    }
  }

  ghost predicate NothingLost(index: JobIndex, preds: seq<Prediction>, stream: seq<Packet>)
  {
    forall f | f in FlowsIn(stream) :: Seen(index, preds, f) == NumbersIn(stream, f)
  }

  lemma AllSeenOnTens(mem: Memory, steps: seq<Step>, o10: WindowOracle, o100: WindowOracle, index: JobIndex, f: nat)
    requires Undisturbed(Run(mem, steps)) && f in index
    requires Identified(Run(mem, steps).stream) && ChangesOnTens(Run(mem, steps).stream)
    ensures Seen(index, Logged(Shutdown(Run(mem, steps), o10, o100).items), f) == NumbersIn(Run(mem, steps).stream, f)
  {
    var seen := Seen(index, Logged(Shutdown(Run(mem, steps), o10, o100).items), f);
    forall k: nat ensures k in seen <==> k in NumbersIn(Run(mem, steps).stream, f) {
      SeenByTens(mem, steps, o10, o100, index, f, k);
      AloneOnTens(Run(mem, steps).stream, f, k);
    }
  }

  /** Any number of flows in any mixture, each with a job: without idle closings the join
      sees every packet of every flow exactly when the flow changes only at multiples of
      ten packets. */
  lemma NothingLostIff(mem: Memory, steps: seq<Step>, o10: WindowOracle, o100: WindowOracle, index: JobIndex)
    requires var c := Run(mem, steps);
      Undisturbed(c) && Identified(c.stream) && FlowsIn(c.stream) <= index.Keys
    ensures NothingLost(index, Logged(Shutdown(Run(mem, steps), o10, o100).items), Run(mem, steps).stream)
       <==> ChangesOnTens(Run(mem, steps).stream)
  {
    var stream, preds := Run(mem, steps).stream, Logged(Shutdown(Run(mem, steps), o10, o100).items);
    if ChangesOnTens(stream) {
      forall f | f in FlowsIn(stream) ensures Seen(index, preds, f) == NumbersIn(stream, f) {
        AllSeenOnTens(mem, steps, o10, o100, index, f);
      }
    } else {
      var t :| 0 < t < |stream| && stream[t - 1].id.flowId != stream[t].id.flowId && t % 10 != 0;
      LostAtChange(mem, steps, o10, o100, index, t);
    }
  }

  lemma LostAtChange(mem: Memory, steps: seq<Step>, o10: WindowOracle, o100: WindowOracle, index: JobIndex, t: nat)
    requires var c := Run(mem, steps);
      Undisturbed(c) && Identified(c.stream) && FlowsIn(c.stream) <= index.Keys
    requires var stream := Run(mem, steps).stream;
      0 < t < |stream| && stream[t - 1].id.flowId != stream[t].id.flowId && t % 10 != 0
    ensures !NothingLost(index, Logged(Shutdown(Run(mem, steps), o10, o100).items), Run(mem, steps).stream)
  {
    var stream := Run(mem, steps).stream;
    var f, k := stream[t].id.flowId.value, stream[t].id.packetId.value;
    assert stream[t] in stream;
    assert f in FlowsIn(stream) && k in NumbersIn(stream, f);
    SeenByTens(mem, steps, o10, o100, index, f, k);
    forall u: nat ensures !AloneInTen(stream, f, k, u) {
      if AloneInTen(stream, f, k, u) {
        assert u == t;
        ChangeInside(stream, t, f);
      }
    }
  }

  // ------------------------------------------------ one replay after another

  /** The whole of one flow, then the whole of another, both numbered from zero. */
  predicate InSuccession(stream: seq<Packet>, f: nat, n: nat, g: nat, m: nat)
  {
    && |stream| == n + m
    && (forall t | 0 <= t < n :: stream[t].id == Ident(Some(f), Some(t)))
    && forall t | n <= t < n + m :: stream[t].id == Ident(Some(g), Some(t - n))
  }

  lemma FlowsOfOne(packets: seq<Packet>, f: nat)
    requires packets != [] && forall j | 0 <= j < |packets| :: packets[j].id.flowId == Some(f)
    ensures FlowsIn(packets) == {f}
  {
    assert packets[0] in packets;
  }

  lemma FlowsOfTwo(packets: seq<Packet>, i: nat, j: nat)
    requires i < |packets| && j < |packets| && packets[i].id.flowId.Some? && packets[j].id.flowId.Some?
    ensures packets[i].id.flowId.value in FlowsIn(packets) && packets[j].id.flowId.value in FlowsIn(packets)
  {
    assert packets[i] in packets && packets[j] in packets;
  }

  /** The last multiple of ten up to `n`, and the first from `n` on. */
  function TensUpTo(n: nat): (r: nat) { n / 10 * 10 }

  function TensFrom(n: nat): (r: nat) { (n + 9) / 10 * 10 }

  lemma TensLaw(n: nat, t: nat)
    ensures t / 10 * 10 + 10 <= n <==> t < TensUpTo(n)
    ensures n <= t / 10 * 10 <==> TensFrom(n) <= t
    ensures TensUpTo(n) <= n <= TensFrom(n)
  {
  }

  lemma BlockInSuccession(stream: seq<Packet>, f: nat, n: nat, g: nat, m: nat, t: nat)
    requires InSuccession(stream, f, n, g, m) && f != g && m > 0 && t < |stream|
    ensures FlowsIn(TenAround(stream, t)) == {f} <==> t < TensUpTo(n)
    ensures FlowsIn(TenAround(stream, t)) == {g} <==> TensFrom(n) <= t
  {
    var a, ten := t / 10 * 10, TenAround(stream, t);
    TensLaw(n, t);
    assert forall j | 0 <= j < |ten| :: ten[j] == stream[a + j];
    if a + 10 <= n {
      FlowsOfOne(ten, f);
    } else if n <= a {
      FlowsOfOne(ten, g);
    } else {
      FlowsOfTwo(ten, 0, |ten| - 1);
    }
  }

  lemma PlaceInSuccession(stream: seq<Packet>, f: nat, n: nat, g: nat, m: nat, t: nat)
    requires InSuccession(stream, f, n, g, m) && f != g && t < |stream|
    ensures forall k: nat | stream[t].id == Ident(Some(f), Some(k)) :: t == k < n
    ensures forall k: nat | stream[t].id == Ident(Some(g), Some(k)) :: t == n + k && k < m
  {
  }

  lemma FirstAlone(stream: seq<Packet>, f: nat, n: nat, g: nat, m: nat, k: nat)
    requires InSuccession(stream, f, n, g, m) && f != g && m > 0
    ensures (exists t: nat :: AloneInTen(stream, f, k, t)) <==> k < TensUpTo(n)
  {
    TensLaw(n, k);
    if t: nat :| AloneInTen(stream, f, k, t) {
      PlaceInSuccession(stream, f, n, g, m, t);
      BlockInSuccession(stream, f, n, g, m, t);
    }
    if k < TensUpTo(n) {
      BlockInSuccession(stream, f, n, g, m, k);
      assert AloneInTen(stream, f, k, k);
    }
  }

  lemma SecondOnly(stream: seq<Packet>, f: nat, n: nat, g: nat, m: nat, k: nat, t: nat)
    requires InSuccession(stream, f, n, g, m) && f != g && m > 0 && AloneInTen(stream, g, k, t)
    ensures k < m && TensFrom(n) <= n + k
  {
    PlaceInSuccession(stream, f, n, g, m, t);
    BlockInSuccession(stream, f, n, g, m, t);
  }

  lemma SecondPlaced(stream: seq<Packet>, f: nat, n: nat, g: nat, m: nat, k: nat)
    requires InSuccession(stream, f, n, g, m) && f != g && k < m && TensFrom(n) <= n + k
    ensures AloneInTen(stream, g, k, n + k)
  {
    var t := n + k;
    assert stream[t].id == Ident(Some(g), Some(t - n));
    BlockInSuccession(stream, f, n, g, m, t);
  }

  lemma SecondAlone(stream: seq<Packet>, f: nat, n: nat, g: nat, m: nat, k: nat)
    requires InSuccession(stream, f, n, g, m) && f != g && m > 0
    ensures (exists t: nat :: AloneInTen(stream, g, k, t)) <==> k < m && TensFrom(n) <= n + k
  {
    if t: nat :| AloneInTen(stream, g, k, t) {
      SecondOnly(stream, f, n, g, m, k, t);
    }
    if k < m && TensFrom(n) <= n + k {
      SecondPlaced(stream, f, n, g, m, k);
    }
  }

  /** What the join sees of two replays that follow one another, the second not empty: of
      the first the packets up to the last multiple of ten, of the second those from the
      next one on. */
  lemma SeenInSuccession(mem: Memory, steps: seq<Step>, o10: WindowOracle, o100: WindowOracle, index: JobIndex,
                         f: nat, n: nat, g: nat, m: nat)
    requires Undisturbed(Run(mem, steps)) && InSuccession(Run(mem, steps).stream, f, n, g, m)
    requires f != g && m > 0 && f in index && g in index
    ensures var preds := Logged(Shutdown(Run(mem, steps), o10, o100).items);
      && Seen(index, preds, f) == Below(TensUpTo(n))
      && forall k: nat :: k in Seen(index, preds, g) <==> k < m && TensFrom(n) <= n + k
  {
    var stream, preds := Run(mem, steps).stream, Logged(Shutdown(Run(mem, steps), o10, o100).items);
    forall k: nat
      ensures k in Seen(index, preds, f) <==> k < TensUpTo(n)
      ensures k in Seen(index, preds, g) <==> k < m && TensFrom(n) <= n + k
    {
      SeenByTens(mem, steps, o10, o100, index, f, k);
      FirstAlone(stream, f, n, g, m, k);
      SeenByTens(mem, steps, o10, o100, index, g, k);
      SecondAlone(stream, f, n, g, m, k);
    }
  }

  lemma NoneOfOne(seen: set<nat>, other: set<nat>)
    requires seen == Below(TensUpTo(1)) && forall k: nat :: k in other <==> k < 1 && TensFrom(1) <= 1 + k
    ensures seen == {} == other
  {
  }

  lemma OneByOne(stream: seq<Packet>, f: nat, g: nat)
    requires |stream| == 2 && stream[0].id == Ident(Some(f), Some(0)) && stream[1].id == Ident(Some(g), Some(0))
    ensures InSuccession(stream, f, 1, g, 1)
  {
  }

  /** Two replays of one packet each, in one capture, nothing lost on the way and no window
      closed for idleness: the join sees neither packet. */
  lemma TwoPacketsUnseen(mem: Memory, steps: seq<Step>, o10: WindowOracle, o100: WindowOracle, index: JobIndex,
                         f: nat, g: nat)
    requires Prompt(steps) && |steps| == 2 && f != g && f in index && g in index
    requires steps[0].pkt.id == Ident(Some(f), Some(0)) && steps[1].pkt.id == Ident(Some(g), Some(0))
    ensures var preds := Logged(Shutdown(Run(mem, steps), o10, o100).items);
      Seen(index, preds, f) == {} == Seen(index, preds, g)
  {
    PromptIsUndisturbed(mem, steps);
    PromptStream(mem, steps);
    OneByOne(Run(mem, steps).stream, f, g);
    SeenInSuccession(mem, steps, o10, o100, index, f, 1, g, 1);
    var preds := Logged(Shutdown(Run(mem, steps), o10, o100).items);
    NoneOfOne(Seen(index, preds, f), Seen(index, preds, g));
  }

  // ------------------------------------------------ pauses do not separate

  /** What one step gives to a builder, and what the builder gives up. */
  function Turn(b: Builder, pkt: Packet, open: real, expire: real): (r: (Builder, Option<Window>, Option<Window>))
  {
    var (b1, w1) := b.Add(pkt, open);
    var (b2, w2) := b1.Expire(expire);
    (b2, w1, w2)
  }

  lemma AddThenStale(b: Builder, pkt: Packet, open: real, expire: real)
    requires b.Ok() && pkt.hasIp
    ensures var (r, w1, w2) := Turn(b, pkt, open, expire); var held := b.packets + [pkt];
      && (w1.Some? ==> w1.value.packets == held && w2.None? && r.packets == [])
      && (w1.None? && w2.Some? ==> w2.value.packets == held && r.packets == [])
      && (w1.None? && w2.None? ==> r.packets == held)
  {
  }

  lemma StepIsTwoTurns(c: Core, s: Step)
    ensures var (b, w1, w2) := Turn(c.b10, s.pkt, s.tick.open10, s.tick.expire10);
      Process(c, s).b10 == b && WindowsOf(Process(c, s), W10) == Emit(Emit(WindowsOf(c, W10), w1), w2)
    ensures var (b, w1, w2) := Turn(c.b100, s.pkt, s.tick.open100, s.tick.expire100);
      Process(c, s).b100 == b && WindowsOf(Process(c, s), W100) == Emit(Emit(WindowsOf(c, W100), w1), w2)
  {
    var pkt, t := s.pkt, s.tick;
    var c0 := Counted(c, pkt);
    assert forall tag: Tag :: WindowsOf(c0, tag) == WindowsOf(c, tag);
    HandleAny(c0, c0.(b10 := c0.b10.Add(pkt, t.open10).0), c0.b10.Add(pkt, t.open10).1, W10, t.o10);
    var c1 := Add10(c0, pkt, t);
    HandleAny(c1, c1.(b100 := c1.b100.Add(pkt, t.open100).0), c1.b100.Add(pkt, t.open100).1, W100, t.o100);
    var c2 := Add100(c1, pkt, t);
    HandleAny(c2, c2.(b10 := c2.b10.Expire(t.expire10).0), c2.b10.Expire(t.expire10).1, W10, t.o10);
    var c3 := Stale10(c2, t);
    HandleAny(c3, c3.(b100 := c3.b100.Expire(t.expire100).0), c3.b100.Expire(t.expire100).1, W100, t.o100);
  }

  lemma HandleAny(c: Core, c': Core, w: Option<Window>, tag: Tag, o: WindowOracle)
    requires c'.items == c.items
    ensures var r := Handle(c', w, tag, o);
      && r.b10 == c'.b10 && r.b100 == c'.b100 && WindowsOf(r, tag) == Emit(WindowsOf(c, tag), w)
      && forall other: Tag | other != tag :: WindowsOf(r, other) == WindowsOf(c, other)
  {
    assert forall other: Tag :: WindowsOf(c', other) == WindowsOf(c, other);
    HandleEmits(c', w, tag, o);
  }

  /** `held` is pending, or it is the one window closed since. */
  ghost predicate KeptTogether(held: seq<Packet>, pending: seq<Packet>, was: seq<Window>, now: seq<Window>)
  {
    || (now == was && pending == held)
    || (pending == [] && |now| == |was| + 1 && now[..|was|] == was && now[|was|].packets == held)
  }

  lemma TurnKeepsTogether(b: Builder, pkt: Packet, open: real, expire: real, was: seq<Window>)
    requires b.Ok() && pkt.hasIp
    ensures var (r, w1, w2) := Turn(b, pkt, open, expire);
      KeptTogether(b.packets + [pkt], r.packets, was, Emit(Emit(was, w1), w2))
  {
    AddThenStale(b, pkt, open, expire);
  }

  /** Builders look at the clock only after the arriving packet was added. However long the
      pause before it, the packet lands in one window with all that was pending, so a pause
      between two replays does not part them. */
  lemma PauseDoesNotSeparate(c: Core, s: Step)
    requires s.pkt.hasIp && c.b10.Ok() && c.b100.Ok()
    ensures var r := Process(c, s);
      && KeptTogether(c.b10.packets + [s.pkt], r.b10.packets, WindowsOf(c, W10), WindowsOf(r, W10))
      && KeptTogether(c.b100.packets + [s.pkt], r.b100.packets, WindowsOf(c, W100), WindowsOf(r, W100))
  {
    StepIsTwoTurns(c, s);
    TurnKeepsTogether(c.b10, s.pkt, s.tick.open10, s.tick.expire10, WindowsOf(c, W10));
    TurnKeepsTogether(c.b100, s.pkt, s.tick.open100, s.tick.expire100, WindowsOf(c, W100));
  }
}
