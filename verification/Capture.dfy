/** The capture front end of `capture.py`: carrier packets in, counters, reassembly,
    decoding, and the hand-over to the pipeline. */
module Capture {
  import opened Prelude
  import opened Wire
  import opened Reassembly
  import opened FlowBuilder
  import opened ModelEngine
  import opened Pipeline
  import Trigger
  import FeatureExtraction

  datatype Name = NonReafUdp | UdpChunks | Envelopes | DecodeFailed | NonIpDropped | HeldFragment | Processed

  type Counters = map<Name, nat>

  function Count(c: Counters, name: Name): (n: nat)
  {
    if name in c then c[name] else 0
  }

  function Incremented(c: Counters, name: Name): (r: Counters)
  {
    c[name := Count(c, name) + 1]
  }

  /** What fragment reassembly makes of a decoded packet: it is no fragment, it is held
      (or its train is dropped), or it completes a train that is rebuilt as `pkt`. */
  datatype Fragments = Unfragmented | Held | Rebuilt(pkt: Packet)

  /** What the decoder makes of the original bytes. `time` is the value of the
      envelope's double. */
  datatype Decode =
    | Undecodable
    | NotIp
    | Decoded(time: real, length: nat, protocol: int, headers: map<FeatureExtraction.Column, real>,
              fragments: Fragments, tick: Tick)

  /** A captured carrier packet. */
  datatype Outer =
    | NoUdp
    | OtherPort
    | Reaf(payload: seq<byte>, now: real, decode: Decode, expireNow: real)

  datatype Node = Node(core: Core, buffers: Buffers, totals: Counters, byFlow: map<nat, Counters>,
                       bumps: nat, halted: bool)

  const ENVELOPE_TIMEOUT: real := 10.0

  function StartNode(): (n: Node)
  {
    Node(Start(Slots(map[])), map[], map[], map[], 0, false)
  }

  function FlowCounters(byFlow: map<nat, Counters>, flow: nat): (c: Counters)
  {
    if flow in byFlow then byFlow[flow] else map[]
  }

  function Bump(n: Node, name: Name, flow: Option<nat>): (r: Node)
  {
    n.(totals := Incremented(n.totals, name), bumps := n.bumps + 1,
       byFlow := match flow
                 case None => n.byFlow
                 case Some(f) => n.byFlow[f := Incremented(FlowCounters(n.byFlow, f), name)])
  }

  /** The packet handed to the pipeline when nothing is held back. */
  function Handed(d: Delivery, decode: Decode): (pkt: Packet)
    requires decode.Decoded? && !decode.fragments.Held?
  {
    if decode.fragments.Rebuilt? then decode.fragments.pkt
    else Packet(true, Ident(Some(d.flowId), Some(d.packetId)), decode.time, decode.length, Some(d.linktype),
                decode.protocol, decode.headers)
  }

  function ProcessOriginal(n: Node, d: Delivery, decode: Decode): (r: Node)
    requires decode.Decoded?
  {
    if decode.fragments.Held? then Bump(n, HeldFragment, Some(d.flowId))
    else
      var b := Bump(n, Processed, Some(d.flowId));
      b.(core := Process(n.core, Step(Handed(d, decode), decode.tick)))
  }

  function OnEnvelope(n: Node, d: Delivery, decode: Decode, expireNow: real): (r: Node)
  {
    var n1 := Bump(n, Envelopes, Some(d.flowId));
    match decode
    case Undecodable => Bump(n1, DecodeFailed, Some(d.flowId))
    case NotIp => Bump(n1, NonIpDropped, Some(d.flowId))
    case Decoded(_, _, _, _, _, _) =>
      var n2 := ProcessOriginal(n1, d, decode);
      n2.(buffers := Expired(n2.buffers, expireNow, ENVELOPE_TIMEOUT))
  }

  /** One captured packet. A chunk set that cannot be joined raises out of the capture
      loop, which then stops for good. */
  function OnPacket(n: Node, ev: Outer): (r: Node)
  {
    if n.halted then n
    else
      match ev
      case NoUdp => n
      case OtherPort => Bump(n, NonReafUdp, None)
      case Reaf(payload, now, decode, expireNow) =>
        var n1 := Bump(n, UdpChunks, None);
        var (buffers, out) := Fed(n1.buffers, payload, now);
        var n2 := n1.(buffers := buffers);
        match out
        case Pending => n2
        case KeyErrorRaised => n2.(halted := true)
        case Delivered(d) => OnEnvelope(n2, d, decode, expireNow)
  }

  function RunNode(evs: seq<Outer>): (n: Node)
  {
    if evs == [] then StartNode() else OnPacket(RunNode(evs[..|evs| - 1]), evs[|evs| - 1])
  }

  class EdgeNode {
    const windowBuilder10: WindowBuilder
    const windowBuilder100: WindowBuilder
    const engine: Engine
    const trigger: Trigger.AcquisitionTrigger
    const reassembler: EnvelopeReassembler
    var totalPacketsProcessed: nat
    var totals: Counters
    var byFlow: map<nat, Counters>
    var bumps: nat
    var items: seq<Item>
    var halted: bool
    var asks: seq<Trigger.Event> // kept so that a log line can name its question to the trigger
    ghost var stream: seq<Packet>

    ghost function Parts(): (s: set<object>)
    {
      {windowBuilder10, windowBuilder100, engine, trigger, reassembler}
    }

    ghost predicate Valid()
      reads this, Parts()
    {
      && windowBuilder10 != windowBuilder100 && windowBuilder10.Valid() && windowBuilder100.Valid()
      && reassembler.timeout == ENVELOPE_TIMEOUT
    }

    ghost function State(): (c: Core)
      reads this, Parts()
    {
      Core(windowBuilder10.State(), windowBuilder100.State(), totalPacketsProcessed, Slots(engine.stage2Override),
           trigger.lastTriggered, items, stream, asks)
    }

    ghost function Whole(): (n: Node)
      reads this, Parts()
    {
      Node(State(), reassembler.buffers, totals, byFlow, bumps, halted)
    }

    constructor ()
      ensures Valid() && Whole() == StartNode()
      ensures fresh(Parts())
    {
      windowBuilder10 := new WindowBuilder(10);
      windowBuilder100 := new WindowBuilder(100);
      engine := new Engine();
      trigger := new Trigger.AcquisitionTrigger();
      reassembler := new EnvelopeReassembler(ENVELOPE_TIMEOUT);
      totalPacketsProcessed, bumps, halted := 0, 0, false;
      totals, byFlow, items, stream, asks := map[], map[], [], [], [];
    }

    method BumpCounter(name: Name, flow: Option<nat>)
      requires Valid()
      modifies this`totals, this`byFlow, this`bumps
      ensures Valid() && Whole() == Bump(old(Whole()), name, flow)
    {
      totals := Incremented(totals, name);
      if flow.Some? {
        byFlow := byFlow[flow.value := Incremented(FlowCounters(byFlow, flow.value), name)];
      }
      bumps := bumps + 1;
    }

    method HandleFinished(w: Window, tag: Tag, o: WindowOracle)
      requires Valid()
      modifies this`items, this`asks, engine, trigger
      ensures Valid() && State() == HandleWindow(old(State()), w, tag, totalPacketsProcessed, o)
    {
      var expected := if tag == W100 then windowBuilder100.windowSize else windowBuilder10.windowSize;
      if w.PacketCount() != expected {
        items := items + [Item(tag, totalPacketsProcessed, w, o, Result(InsufficientData, 0.0), None, false, false)];
        return;
      }
      var result: Result;
      if tag == W100 {
        result := engine.RegisterW100Result(w, totalPacketsProcessed, o.tier, o.inference);
      } else {
        result := engine.Classify(w, totalPacketsProcessed, o.tier, o.inference);
      }
      var fire := trigger.ShouldAcquire(result.name, result.confidence, o.now);
      items := items + [Item(tag, totalPacketsProcessed, w, o, result, Some(|asks|), fire, fire && o.collected)];
      asks := asks + [Trigger.Event(result.name, result.confidence, o.now)];
    }

    method HandleIfClosed(w: Option<Window>, tag: Tag, o: WindowOracle)
      requires Valid()
      modifies this`items, this`asks, engine, trigger
      ensures Valid() && State() == Handle(old(State()), w, tag, o)
    {
      if w.Some? {
        HandleFinished(w.value, tag, o);
      }
    }

    method FeedBuilders(pkt: Packet, t: Tick)
      requires Valid()
      modifies this`items, this`asks, engine, trigger, windowBuilder10, windowBuilder100
      ensures Valid() && State() == Add100(Add10(old(State()), pkt, t), pkt, t)
    {
      var finished10 := windowBuilder10.AddPacket(pkt, t.open10);
      HandleIfClosed(finished10, W10, t.o10);
      assert State() == Add10(old(State()), pkt, t);
      var finished100 := windowBuilder100.AddPacket(pkt, t.open100);
      HandleIfClosed(finished100, W100, t.o100);
    }

    method ExpireBuilders(t: Tick)
      requires Valid()
      modifies this`items, this`asks, engine, trigger, windowBuilder10, windowBuilder100
      ensures Valid() && State() == Stale100(Stale10(old(State()), t), t)
    {
      var stale10 := windowBuilder10.ExpireStalePartialWindow(t.expire10);
      HandleIfClosed(stale10, W10, t.o10);
      assert State() == Stale10(old(State()), t);
      var stale100 := windowBuilder100.ExpireStalePartialWindow(t.expire100);
      HandleIfClosed(stale100, W100, t.o100);
    }

    /** `process_original_packet` once reassembly has produced a packet. */
    method ProcessPacket(pkt: Packet, t: Tick)
      requires Valid()
      modifies this`items, this`asks, this`totalPacketsProcessed, this`stream
      modifies engine, trigger, windowBuilder10, windowBuilder100
      ensures Valid() && State() == Process(old(State()), Step(pkt, t))
    {
      totalPacketsProcessed := totalPacketsProcessed + 1;
      stream := if pkt.hasIp then stream + [pkt] else stream;
      assert State() == Counted(old(State()), pkt);
      FeedBuilders(pkt, t);
      ExpireBuilders(t);
    }

    method ProcessOriginalPacket(d: Delivery, decode: Decode)
      requires Valid() && decode.Decoded?
      modifies this, engine, trigger, windowBuilder10, windowBuilder100
      ensures Valid() && Whole() == ProcessOriginal(old(Whole()), d, decode)
    {
      if decode.fragments.Held? {
        BumpCounter(HeldFragment, Some(d.flowId));
        return;
      }
      BumpCounter(Processed, Some(d.flowId));
      ProcessPacket(Handed(d, decode), decode.tick);
    }

    method HandleEnvelope(d: Delivery, decode: Decode, expireNow: real)
      requires Valid()
      modifies this, Parts()
      ensures Valid() && Whole() == OnEnvelope(old(Whole()), d, decode, expireNow)
    {
      BumpCounter(Envelopes, Some(d.flowId));
      if decode.Undecodable? {
        BumpCounter(DecodeFailed, Some(d.flowId));
        return;
      }
      if decode.NotIp? {
        BumpCounter(NonIpDropped, Some(d.flowId));
        return;
      }
      ProcessOriginalPacket(d, decode);
      reassembler.ExpireStale(expireNow);
    }

    method Receive(ev: Outer)
      requires Valid()
      modifies this, Parts()
      ensures Valid() && Whole() == OnPacket(old(Whole()), ev)
    {
      if halted || ev.NoUdp? {
        return;
      }
      if ev.OtherPort? {
        BumpCounter(NonReafUdp, None);
        return;
      }
      BumpCounter(UdpChunks, None);
      var out := reassembler.Feed(ev.payload, ev.now);
      if out.KeyErrorRaised? {
        halted := true;
      } else if out.Delivered? {
        HandleEnvelope(out.d, ev.decode, ev.expireNow);
      }
    }

    /** The flush of both builders when the capture ends. */
    method FlushAtShutdown(o10: WindowOracle, o100: WindowOracle)
      requires Valid()
      modifies this`items, this`asks, engine, trigger, windowBuilder10, windowBuilder100
      ensures Valid() && State() == Shutdown(old(State()), o10, o100)
    {
      var trailing10 := windowBuilder10.Flush();
      HandleIfClosed(trailing10, W10, o10);
      var trailing100 := windowBuilder100.Flush();
      HandleIfClosed(trailing100, W100, o100);
    }

    /** A whole capture: every packet in turn. */
    method Sniff(evs: seq<Outer>)
      requires Valid() && Whole() == StartNode()
      modifies this, Parts()
      ensures Valid() && Whole() == RunNode(evs)
    {
      for i := 0 to |evs|
        invariant Valid() && Whole() == RunNode(evs[..i])
      {
        assert evs[..i + 1][..i] == evs[..i];
        Receive(evs[i]);
      }
      assert evs[..|evs|] == evs;
    }
  }
}
