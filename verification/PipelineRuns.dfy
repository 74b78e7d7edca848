/** What the pipeline keeps over every run. */
module PipelineRuns {
  import opened Prelude
  import opened FlowBuilder
  import opened ModelEngine
  import opened Pipeline
  import opened Statistics
  import opened FeatureExtraction
  import opened TrainingModels
  import Trigger

  // ------------------------------------------------------------ conservation

  /** Both builders conserve the packets they were given. */
  ghost predicate Fed(c: Core, stream10: seq<Packet>, stream100: seq<Packet>)
  {
    && c.b10.size == 10 && c.b100.size == 100
    && Conserved(WindowsOf(c, W10), c.b10, stream10)
    && Conserved(WindowsOf(c, W100), c.b100, stream100)
  }

  /** Each window was handled at the position of its last packet. */
  ghost predicate PlacedAt(items: seq<Item>)
  {
    forall i | 0 <= i < |items| :: items[i].position == |Flatten(PacketLists(Windows(items[..i + 1])))|
  }

  ghost predicate Placed(c: Core)
  {
    c.position == |c.stream| ==> forall tag: Tag :: PlacedAt(ItemsOf(c.items, tag))
  }

  lemma PlacedAppend(items: seq<Item>, item: Item)
    requires PlacedAt(items) && item.position == |Flatten(PacketLists(Windows(items) + [item.window]))|
    ensures PlacedAt(items + [item])
  {
    var more := items + [item];
    assert Windows(more) == Windows(items) + [item.window];
    forall i | 0 <= i < |more| ensures more[i].position == |Flatten(PacketLists(Windows(more[..i + 1])))| {
      if i < |items| {
        assert more[..i + 1] == items[..i + 1];
      } else {
        assert more[..i + 1] == more;
      }
    }
  }

  ghost predicate SameInputs(c: Core, r: Core)
  {
    r.stream == c.stream && r.position == c.position
  }

  lemma WindowsAppend(items: seq<Item>, item: Item)
    ensures Windows(items + [item]) == Windows(items) + [item.window]
  {
  }

  lemma HandleEmits(c: Core, w: Option<Window>, tag: Tag, o: WindowOracle)
    ensures var r := Handle(c, w, tag, o);
      && r.b10 == c.b10 && r.b100 == c.b100 && SameInputs(c, r)
      && WindowsOf(r, tag) == Emit(WindowsOf(c, tag), w)
      && forall other: Tag | other != tag :: WindowsOf(r, other) == WindowsOf(c, other)
  {
    var r := Handle(c, w, tag, o);
    if w.Some? {
      var item := r.items[|c.items|];
      assert r.items == c.items + [item];
      ItemsAppend(c.items, item);
      WindowsAppend(ItemsOf(c.items, tag), item);
    }
  }

  lemma HandlePlaces(c: Core, w: Option<Window>, tag: Tag, o: WindowOracle)
    requires Placed(c)
    requires w.Some? ==> |Flatten(PacketLists(Emit(WindowsOf(c, tag), w)))| == |c.stream|
    ensures Placed(Handle(c, w, tag, o))
  {
    var r := Handle(c, w, tag, o);
    if w.Some? && c.position == |c.stream| {
      var item := r.items[|c.items|];
      assert r.items == c.items + [item];
      ItemsAppend(c.items, item);
      PlacedAppend(ItemsOf(c.items, tag), item);
      assert forall other: Tag | other != tag :: ItemsOf(r.items, other) == ItemsOf(c.items, other);
    }
  }

  /** A window was classified exactly if it closed by size, and the trigger answered for
      it as its whole history of questions demands. */
  ghost predicate Answered(c: Core, item: Item)
  {
    && (item.ask.Some? <==> item.window.closeReason == WindowSize)
    && (item.ask.None? ==> item.result == Result(InsufficientData, 0.0) && !item.fired)
    && (item.ask.Some? ==>
          && item.ask.value < |c.asks| && item.fired == Trigger.Fires(c.asks, item.ask.value)
          && c.asks[item.ask.value].name == item.result.name
          && c.asks[item.ask.value].confidence == item.result.confidence)
    && (item.incident ==> item.fired)
  }

  ghost predicate Accounted(c: Core)
  {
    && c.fired == Trigger.Run(c.asks)
    && forall i | 0 <= i < |c.items| :: Answered(c, c.items[i])
  }

  lemma HandleAccounts(c: Core, w: Option<Window>, tag: Tag, o: WindowOracle)
    requires Accounted(c) && (w.Some? ==> WellMade(w.value, SizeOf(c, tag)))
    ensures Accounted(Handle(c, w, tag, o))
  {
    var r := Handle(c, w, tag, o);
    if w.Some? && r.asks != c.asks {
      assert r.asks[..|c.asks|] == c.asks;
      forall i | 0 <= i < |c.items| ensures Answered(r, c.items[i]) {
        if c.items[i].ask.Some? {
          Trigger.PrefixFires(r.asks, |c.asks|, c.items[i].ask.value);
        }
      }
    } else if w.Some? {
      assert forall i | 0 <= i < |c.items| :: r.items[i] == c.items[i];
    }
  }

  /** Everything one step keeps, with what each builder has been given so far. */
  ghost predicate Kept(c: Core, stream10: seq<Packet>, stream100: seq<Packet>)
  {
    Fed(c, stream10, stream100) && Placed(c) && Accounted(c)
  }

  function Given(s: seq<Packet>, pkt: Packet): (r: seq<Packet>)
  {
    if pkt.hasIp then s + [pkt] else s
  }

  lemma KeptElsewhere(c: Core, r: Core, s10: seq<Packet>, s100: seq<Packet>)
    requires Kept(c, s10, s100) && r.b10 == c.b10 && r.b100 == c.b100
    requires r.items == c.items && r.asks == c.asks && r.fired == c.fired
    requires r.position == |r.stream| ==> c.position == |c.stream|
    ensures Kept(r, s10, s100)
  {
    assert forall tag :: WindowsOf(r, tag) == WindowsOf(c, tag);
    assert forall item :: Answered(r, item) == Answered(c, item);
  }

  lemma CountedKeeps(c: Core, pkt: Packet)
    requires Kept(c, c.stream, c.stream) && |c.stream| <= c.position
    ensures var r := Counted(c, pkt);
      Kept(r, c.stream, c.stream) && r.stream == Given(c.stream, pkt) && |r.stream| <= r.position
  {
    KeptElsewhere(c, Counted(c, pkt), c.stream, c.stream);
  }

  lemma EmittedIsWellMade(ws: seq<Window>, w: Option<Window>, b: Builder, stream: seq<Packet>)
    requires Conserved(Emit(ws, w), b, stream)
    ensures w.Some? ==> WellMade(w.value, b.size)
    ensures w.Some? && b.packets == [] ==> |Flatten(PacketLists(Emit(ws, w)))| == |stream|
  {
    assert w.Some? ==> Emit(ws, w)[|ws|] == w.value;
    assert b.packets == [] ==> Flatten(PacketLists(Emit(ws, w))) + [] == stream;
  }

  lemma SameItems(c: Core, c': Core)
    requires c'.items == c.items
    ensures forall tag :: WindowsOf(c', tag) == WindowsOf(c, tag)
  {
  }

  lemma HandleFeeds10(c: Core, b: Builder, w: Option<Window>, o: WindowOracle,
                       was: seq<Packet>, now: seq<Packet>, s100: seq<Packet>)
    requires Fed(c, was, s100) && b.size == 10 && Conserved(Emit(WindowsOf(c, W10), w), b, now)
    ensures var r := Handle(c.(b10 := b), w, W10, o); Fed(r, now, s100) && SameInputs(c, r)
  {
    var c' := c.(b10 := b);
    SameItems(c, c');
    HandleEmits(c', w, W10, o);
  }

  lemma HandleFeeds100(c: Core, b: Builder, w: Option<Window>, o: WindowOracle,
                       was: seq<Packet>, now: seq<Packet>, s10: seq<Packet>)
    requires Fed(c, s10, was) && b.size == 100 && Conserved(Emit(WindowsOf(c, W100), w), b, now)
    ensures var r := Handle(c.(b100 := b), w, W100, o); Fed(r, s10, now) && SameInputs(c, r)
  {
    var c' := c.(b100 := b);
    SameItems(c, c');
    HandleEmits(c', w, W100, o);
  }

  /** Handling what the 10-packet builder gave up, if anything. */
  lemma HandleKeeps10(c: Core, b: Builder, w: Option<Window>, o: WindowOracle,
                      was: seq<Packet>, now: seq<Packet>, s100: seq<Packet>)
    requires Kept(c, was, s100) && b.size == 10 && Conserved(Emit(WindowsOf(c, W10), w), b, now)
    requires w.Some? ==> now == c.stream && b.packets == []
    ensures var r := Handle(c.(b10 := b), w, W10, o); Kept(r, now, s100) && SameInputs(c, r)
  {
    var c' := c.(b10 := b);
    HandleFeeds10(c, b, w, o, was, now, s100);
    KeptElse(c, c');
    EmittedIsWellMade(WindowsOf(c, W10), w, b, now);
    HandlePlaces(c', w, W10, o);
    HandleAccounts(c', w, W10, o);
  }

  lemma HandleKeeps100(c: Core, b: Builder, w: Option<Window>, o: WindowOracle,
                       was: seq<Packet>, now: seq<Packet>, s10: seq<Packet>)
    requires Kept(c, s10, was) && b.size == 100 && Conserved(Emit(WindowsOf(c, W100), w), b, now)
    requires w.Some? ==> now == c.stream && b.packets == []
    ensures var r := Handle(c.(b100 := b), w, W100, o); Kept(r, s10, now) && SameInputs(c, r)
  {
    var c' := c.(b100 := b);
    HandleFeeds100(c, b, w, o, was, now, s10);
    KeptElse(c, c');
    EmittedIsWellMade(WindowsOf(c, W100), w, b, now);
    HandlePlaces(c', w, W100, o);
    HandleAccounts(c', w, W100, o);
  }

  /** Placing and accounting do not look at the builders. */
  lemma KeptElse(c: Core, c': Core)
    requires Placed(c) && Accounted(c) && c' == c.(b10 := c'.b10, b100 := c'.b100)
    ensures Placed(c') && Accounted(c') && forall tag :: WindowsOf(c', tag) == WindowsOf(c, tag)
  {
    SameItems(c, c');
    assert forall item :: Answered(c', item) == Answered(c, item);
  }

  lemma Add10Keeps(c: Core, pkt: Packet, t: Tick, s: seq<Packet>)
    requires Kept(c, s, s) && c.stream == Given(s, pkt)
    ensures var r := Add10(c, pkt, t); Kept(r, Given(s, pkt), s) && SameInputs(c, r)
  {
    var (b, w) := c.b10.Add(pkt, t.open10);
    if pkt.hasIp {
      AddConserves(WindowsOf(c, W10), c.b10, s, pkt, t.open10);
    }
    HandleKeeps10(c, b, w, t.o10, s, Given(s, pkt), s);
  }

  lemma Add100Keeps(c: Core, pkt: Packet, t: Tick, s: seq<Packet>)
    requires Kept(c, Given(s, pkt), s) && c.stream == Given(s, pkt)
    ensures var r := Add100(c, pkt, t); Kept(r, Given(s, pkt), Given(s, pkt)) && SameInputs(c, r)
  {
    var (b, w) := c.b100.Add(pkt, t.open100);
    if pkt.hasIp {
      AddConserves(WindowsOf(c, W100), c.b100, s, pkt, t.open100);
    }
    HandleKeeps100(c, b, w, t.o100, s, Given(s, pkt), Given(s, pkt));
  }

  lemma Stale10Keeps(c: Core, t: Tick)
    requires Kept(c, c.stream, c.stream)
    ensures var r := Stale10(c, t); Kept(r, c.stream, c.stream) && SameInputs(c, r)
  {
    var (b, w) := c.b10.Expire(t.expire10);
    ExpireConserves(WindowsOf(c, W10), c.b10, c.stream, t.expire10);
    HandleKeeps10(c, b, w, t.o10, c.stream, c.stream, c.stream);
  }

  lemma Stale100Keeps(c: Core, t: Tick)
    requires Kept(c, c.stream, c.stream)
    ensures var r := Stale100(c, t); Kept(r, c.stream, c.stream) && SameInputs(c, r)
  {
    var (b, w) := c.b100.Expire(t.expire100);
    ExpireConserves(WindowsOf(c, W100), c.b100, c.stream, t.expire100);
    HandleKeeps100(c, b, w, t.o100, c.stream, c.stream, c.stream);
  }

  lemma ProcessKeeps(c: Core, s: Step)
    requires Kept(c, c.stream, c.stream) && |c.stream| <= c.position
    ensures var r := Process(c, s);
      && Kept(r, r.stream, r.stream) && |r.stream| <= r.position
      && r.stream == Given(c.stream, s.pkt) && r.position == c.position + 1
  {
    var c0 := Counted(c, s.pkt);
    CountedKeeps(c, s.pkt);
    Add10Keeps(c0, s.pkt, s.tick, c.stream);
    var c1 := Add10(c0, s.pkt, s.tick);
    Add100Keeps(c1, s.pkt, s.tick, c.stream);
    var c2 := Add100(c1, s.pkt, s.tick);
    Stale10Keeps(c2, s.tick);
    var c3 := Stale10(c2, s.tick);
    Stale100Keeps(c3, s.tick);
  }

  /** Over every run, with any idle closings: each builder's emitted windows followed by
      what it still holds are exactly the packets given to it, in order; each window is
      full, and reached the classifier, exactly when it closed by size; and each firing
      is the one the trigger's run over all its questions makes. */
  lemma {:induction false} RunKeeps(mem: Memory, steps: seq<Step>)
    ensures var c := Run(mem, steps);
      Kept(c, c.stream, c.stream) && |c.stream| <= c.position == |steps|
    decreases |steps|
  {
    if steps != [] {
      RunKeeps(mem, steps[..|steps| - 1]);
      ProcessKeeps(Run(mem, steps[..|steps| - 1]), steps[|steps| - 1]);
    } else {
      assert Flatten(PacketLists([])) == [] && Flatten(RowLists([])) == [];
    }
  }

  /** Logged without a question to the trigger. */
  predicate Unasked(item: Item)
  {
    item.ask.None? && item.result == Result(InsufficientData, 0.0) && !item.fired && !item.incident
  }

  /** Classifier and trigger keep their state, and only unasked windows are logged. */
  ghost predicate OnlyTrailing(c: Core, r: Core)
  {
    && r.asks == c.asks && r.fired == c.fired && r.mem == c.mem && c.items <= r.items
    && forall i | |c.items| <= i < |r.items| :: Unasked(r.items[i])
  }

  lemma HandleTrailing(c: Core, c': Core, w: Option<Window>, tag: Tag, o: WindowOracle)
    requires Accounted(c) && c' == c.(b10 := c'.b10, b100 := c'.b100)
    requires w.Some? ==> w.value.closeReason == ShutdownFlush && WellMade(w.value, SizeOf(c', tag))
    ensures var r := Handle(c', w, tag, o);
      Accounted(r) && OnlyTrailing(c, r) && r.b10 == c'.b10 && r.b100 == c'.b100
  {
    assert forall item :: Answered(c', item) == Answered(c, item);
    HandleAccounts(c', w, tag, o);
  }

  lemma FlushIsTrailing(b: Builder)
    requires b.Ok()
    ensures var (b', w) := b.Flush();
      b'.size == b.size && (w.Some? ==> w.value.closeReason == ShutdownFlush && WellMade(w.value, b.size))
  {
  }

  /** The trailing windows of the shutdown flush are logged without a question to the
      trigger, so they fire nothing and leave no incident. */
  lemma ShutdownAccounts(mem: Memory, steps: seq<Step>, o10: WindowOracle, o100: WindowOracle)
    ensures var c, r := Run(mem, steps), Shutdown(Run(mem, steps), o10, o100);
      Accounted(r) && OnlyTrailing(c, r)
  {
    RunKeeps(mem, steps);
    var c := Run(mem, steps);
    FlushIsTrailing(c.b10);
    FlushIsTrailing(c.b100);
    var (b10, w10) := c.b10.Flush();
    HandleTrailing(c, c.(b10 := b10), w10, W10, o10);
    var c1 := Handle(c.(b10 := b10), w10, W10, o10);
    var (b100, w100) := c1.b100.Flush();
    HandleTrailing(c1, c1.(b100 := b100), w100, W100, o100);
  }

  /** After the shutdown flush nothing is pending: the windows of either size alone
      make up the whole packet stream; and the flush itself only logged trailing windows,
      unasked and without effect on classifier and trigger. */
  lemma ShutdownConserves(mem: Memory, steps: seq<Step>, o10: WindowOracle, o100: WindowOracle)
    ensures var c, r := Run(mem, steps), Shutdown(Run(mem, steps), o10, o100);
      && r.stream == c.stream && r.b10.packets == [] == r.b100.packets
      && Flatten(PacketLists(WindowsOf(r, W10))) == c.stream == Flatten(PacketLists(WindowsOf(r, W100)))
      && Accounted(r) && OnlyTrailing(c, r)
  {
    ShutdownAccounts(mem, steps, o10, o100);
    RunKeeps(mem, steps);
    var c := Run(mem, steps);
    var (b10, w10) := c.b10.Flush();
    FlushConserves(WindowsOf(c, W10), c.b10, c.stream);
    HandleEmits(c.(b10 := b10), w10, W10, o10);
    var c1 := Handle(c.(b10 := b10), w10, W10, o10);
    var (b100, w100) := c1.b100.Flush();
    FlushConserves(WindowsOf(c1, W100), c1.b100, c.stream);
    HandleEmits(c1.(b100 := b100), w100, W100, o100);
  }

  // ------------------------------------------------ one slot refines full history

  /** The same pipeline with one slot per tier, and with every verdict remembered. */
  ghost predicate Mirrors(a: Core, b: Core)
  {
    a.mem.Slots? && b.mem.History? && a == b.(mem := a.mem) && SlotsAreLatest(a.mem.slots, b.mem.all)
  }

  lemma SpacedWeaken(h: seq<Registration>, m: nat, n: nat)
    requires Spaced(h, m) && m <= n
    ensures Spaced(h, n)
  {
  }

  lemma HandleMirrors10(a: Core, b: Core, w: Option<Window>, o: WindowOracle)
    requires Mirrors(a, b) && a.position > 0 && Spaced(b.mem.all, a.position - 1)
    ensures Mirrors(Handle(a, w, W10, o), Handle(b, w, W10, o)) && Handle(b, w, W10, o).mem == b.mem
  {
    if w.Some? {
      SlotAnswersForHistory(a.mem.slots, b.mem.all, o.tier, a.position, w.value.FlowId());
    }
  }

  lemma HandleMirrors100(a: Core, b: Core, w: Option<Window>, o: WindowOracle)
    requires Mirrors(a, b)
    requires w.Some? && w.value.PacketCount() == SizeOf(a, W100) ==>
      a.position >= 100 && Spaced(b.mem.all, a.position - 100)
    ensures var (a', b') := (Handle(a, w, W100, o), Handle(b, w, W100, o));
      && Mirrors(a', b')
      && (b'.mem == b.mem || (w.Some? && w.value.PacketCount() == SizeOf(a, W100) && Spaced(b'.mem.all, a.position)))
  {
    if w.Some? && w.value.PacketCount() == SizeOf(a, W100) && o.inference.Scores? {
      match RunStages(o.inference)
      case None =>
      case Some(v) =>
        var ov := Override(v, a.position, w.value.FlowId());
        RememberKeepsLatest(a.mem.slots, b.mem.all, o.tier, ov);
    }
  }

  /** Verdicts are at least as old as the pending 100-packet window is long. */
  ghost predicate Aged(c: Core)
  {
    c.mem.History? && |c.b100.rows| <= c.position && Spaced(c.mem.all, c.position - |c.b100.rows|)
  }

  lemma Add10Mirrors(a: Core, b: Core, pkt: Packet, t: Tick, before: nat)
    requires Mirrors(a, b) && b.position == before + 1
    requires |b.b100.rows| <= before && Spaced(b.mem.all, before - |b.b100.rows|)
    ensures var (a', b') := (Add10(a, pkt, t), Add10(b, pkt, t));
      Mirrors(a', b') && b'.mem == b.mem && b'.b100 == b.b100 && b'.position == b.position
  {
    var (d, w) := b.b10.Add(pkt, t.open10);
    SpacedWeaken(b.mem.all, before - |b.b100.rows|, before);
    HandleMirrors10(a.(b10 := d), b.(b10 := d), w, t.o10);
  }

  lemma Add100Mirrors(a: Core, b: Core, pkt: Packet, t: Tick, before: nat)
    requires Mirrors(a, b) && b.b100.Ok() && b.b100.size == 100 && b.position == before + 1
    requires |b.b100.rows| <= before && Spaced(b.mem.all, before - |b.b100.rows|)
    ensures Mirrors(Add100(a, pkt, t), Add100(b, pkt, t)) && Aged(Add100(b, pkt, t))
  {
    var (d, w) := b.b100.Add(pkt, t.open100);
    HandleMirrors100(a.(b100 := d), b.(b100 := d), w, t.o100);
  }

  lemma Stale10Mirrors(a: Core, b: Core, t: Tick)
    requires Mirrors(a, b) && Aged(b) && b.b10.Ok()
    ensures Mirrors(Stale10(a, t), Stale10(b, t)) && Aged(Stale10(b, t))
  {
  }

  lemma Stale100Mirrors(a: Core, b: Core, t: Tick)
    requires Mirrors(a, b) && Aged(b) && b.b100.Ok()
    ensures Mirrors(Stale100(a, t), Stale100(b, t)) && Aged(Stale100(b, t))
  {
    var (d, w) := b.b100.Expire(t.expire100);
    HandleMirrors100(a.(b100 := d), b.(b100 := d), w, t.o100);
  }

  lemma ProcessMirrors(a: Core, b: Core, s: Step)
    requires Mirrors(a, b) && Aged(b) && Kept(b, b.stream, b.stream) && |b.stream| <= b.position
    ensures Mirrors(Process(a, s), Process(b, s)) && Aged(Process(b, s))
  {
    var t := s.tick;
    var a0, b0 := Counted(a, s.pkt), Counted(b, s.pkt);
    CountedKeeps(b, s.pkt);
    Add10Mirrors(a0, b0, s.pkt, t, b.position);
    Add10Keeps(b0, s.pkt, t, b.stream);
    var a1, b1 := Add10(a0, s.pkt, t), Add10(b0, s.pkt, t);
    Add100Mirrors(a1, b1, s.pkt, t, b.position);
    Add100Keeps(b1, s.pkt, t, b.stream);
    var a2, b2 := Add100(a1, s.pkt, t), Add100(b1, s.pkt, t);
    Stale10Mirrors(a2, b2, t);
    Stale10Keeps(b2, t);
    Stale100Mirrors(Stale10(a2, t), Stale10(b2, t), t);
  }

  lemma {:induction false} RunMirrors(steps: seq<Step>)
    ensures var (a, b) := (Run(Slots(map[]), steps), Run(History([]), steps)); Mirrors(a, b) && Aged(b)
    decreases |steps|
  {
    if steps != [] {
      var init := steps[..|steps| - 1];
      RunMirrors(init);
      RunKeeps(History([]), init);
      ProcessMirrors(Run(Slots(map[]), init), Run(History([]), init), steps[|steps| - 1]);
    }
  }

  /** Single slot refines full history. In every run, with any tier choices, idle
      closings, clocks and inferences, keeping one verdict per tier gives the same item
      log, the same questions to the trigger and the same firings as searching every
      verdict ever registered. */
  lemma SlotRefinesHistory(steps: seq<Step>)
    ensures var (a, b) := (Run(Slots(map[]), steps), Run(History([]), steps));
      a.items == b.items && a.asks == b.asks && a.fired == b.fired && a.stream == b.stream
  {
    RunMirrors(steps);
  }

  /** In every run at most one of all the verdicts registered so far speaks for the
      window that may close next. */
  lemma AtMostOneVerdictSpeaks(steps: seq<Step>, tier: Tier, flow: Option<nat>)
    ensures var b := Run(History([]), steps); b.mem.History? && |Matching(b.mem.all, tier, b.position + 1, flow)| <= 1
  {
    RunMirrors(steps);
    var b := Run(History([]), steps);
    SpacedWeaken(b.mem.all, b.position - |b.b100.rows|, b.position);
    SlotAnswersForHistory(Run(Slots(map[]), steps).mem.slots, b.mem.all, tier, b.position + 1, flow);
  }
}
