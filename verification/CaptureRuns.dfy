/** What whole captures keep: the pipeline's properties carry over, and the funnel of
    counters balances. */
module CaptureRuns {
  import opened Prelude
  import opened Wire
  import opened Reassembly
  import opened FlowBuilder
  import opened ModelEngine
  import opened Pipeline
  import opened PipelineRuns
  import opened Capture

  /** The step one captured packet makes the pipeline take, if it takes any. */
  function StepOf(n: Node, ev: Outer): (s: Option<Step>)
  {
    if n.halted || !ev.Reaf? then None
    else
      match Reassembly.Fed(n.buffers, ev.payload, ev.now).1
      case Delivered(d) =>
        if ev.decode.Decoded? && !ev.decode.fragments.Held?
        then Some(Step(Handed(d, ev.decode), ev.decode.tick)) else None
      case _ => None
  }

  function StepsOf(evs: seq<Outer>): (steps: seq<Step>)
  {
    if evs == [] then []
    else
      var s := StepOf(RunNode(evs[..|evs| - 1]), evs[|evs| - 1]);
      StepsOf(evs[..|evs| - 1]) + if s.Some? then [s.value] else []
  }

  lemma EnvelopeMovesPipeline(n: Node, d: Delivery, decode: Decode, expireNow: real)
    ensures OnEnvelope(n, d, decode, expireNow).core
         == if decode.Decoded? && !decode.fragments.Held? then Process(n.core, Step(Handed(d, decode), decode.tick))
            else n.core
  {
  }

  lemma PacketMovesPipeline(n: Node, ev: Outer)
    ensures OnPacket(n, ev).core == match StepOf(n, ev) case None => n.core case Some(s) => Process(n.core, s)
  {
    if !n.halted && ev.Reaf? {
      var n1 := Bump(n, UdpChunks, None);
      var (buffers, out) := Reassembly.Fed(n1.buffers, ev.payload, ev.now);
      if out.Delivered? {
        EnvelopeMovesPipeline(n1.(buffers := buffers), out.d, ev.decode, ev.expireNow);
      }
    }
  }

  lemma RunAppend(mem: Memory, steps: seq<Step>, s: Step)
    ensures Run(mem, steps + [s]) == Process(Run(mem, steps), s)
  {
    assert (steps + [s])[..|steps|] == steps;
  }

  /** A whole capture drives the pipeline through a run of its own, so what holds of
      every pipeline run holds of every capture. */
  lemma {:induction false} CaptureIsPipelineRun(evs: seq<Outer>)
    ensures RunNode(evs).core == Run(Slots(map[]), StepsOf(evs))
    decreases |evs|
  {
    if evs != [] {
      var init := evs[..|evs| - 1];
      CaptureIsPipelineRun(init);
      PacketMovesPipeline(RunNode(init), evs[|evs| - 1]);
      var s := StepOf(RunNode(init), evs[|evs| - 1]);
      if s.Some? {
        RunAppend(Slots(map[]), StepsOf(init), s.value);
      } else {
        assert StepsOf(evs) == StepsOf(init);
      }
    }
  }

  // ---------------------------------------------------------- the counters balance

  /** What leaves the funnel: envelopes less those dropped, held or processed. */
  function Missing(c: Counters): (k: int)
  {
    Count(c, Envelopes) - Count(c, DecodeFailed) - Count(c, NonIpDropped) - Count(c, HeldFragment) - Count(c, Processed)
  }

  function Weight(name: Name): (k: int)
  {
    match name
    case Envelopes => 1
    case NonReafUdp => 0
    case UdpChunks => 0
    case _ => -1
  }

  lemma IncrementMissing(c: Counters, name: Name)
    ensures Missing(Incremented(c, name)) == Missing(c) + Weight(name)
    ensures Count(Incremented(c, name), Processed) == Count(c, Processed) + if name == Processed then 1 else 0
  {
  }

  lemma BumpMissing(n: Node, name: Name, flow: Option<nat>)
    ensures var r := Bump(n, name, flow);
      && Missing(r.totals) == Missing(n.totals) + Weight(name)
      && Count(r.totals, Processed) == Count(n.totals, Processed) + (if name == Processed then 1 else 0)
      && r.bumps == n.bumps + 1 && r.core == n.core
      && forall f: nat :: Missing(FlowCounters(r.byFlow, f))
           == Missing(FlowCounters(n.byFlow, f)) + if flow == Some(f) then Weight(name) else 0
  {
    IncrementMissing(n.totals, name);
    if flow.Some? {
      IncrementMissing(FlowCounters(n.byFlow, flow.value), name);
    }
  }

  /** Nothing is missing, in all and for each flow, and the position counts the
      processed packets. */
  ghost predicate Balanced(n: Node)
  {
    && Missing(n.totals) == 0 && n.core.position == Count(n.totals, Processed)
    && forall f: nat :: Missing(FlowCounters(n.byFlow, f)) == 0
  }

  lemma ProcessInputs(c: Core, s: Step)
    ensures Process(c, s).position == c.position + 1 && Process(c, s).stream == Given(c.stream, s.pkt)
  {
    var t := s.tick;
    var c0 := Counted(c, s.pkt);
    var (b0, w0) := c0.b10.Add(s.pkt, t.open10);
    HandleEmits(c0.(b10 := b0), w0, W10, t.o10);
    var c1 := Add10(c0, s.pkt, t);
    var (b1, w1) := c1.b100.Add(s.pkt, t.open100);
    HandleEmits(c1.(b100 := b1), w1, W100, t.o100);
    var c2 := Add100(c1, s.pkt, t);
    var (b2, w2) := c2.b10.Expire(t.expire10);
    HandleEmits(c2.(b10 := b2), w2, W10, t.o10);
    var c3 := Stale10(c2, t);
    var (b3, w3) := c3.b100.Expire(t.expire100);
    HandleEmits(c3.(b100 := b3), w3, W100, t.o100);
  }

  /** Like `Balanced`, but with one envelope of a flow still to be accounted for. */
  ghost predicate OneOpen(n: Node, flow: nat)
  {
    && Missing(n.totals) == 1 && n.core.position == Count(n.totals, Processed)
    && forall f: nat :: Missing(FlowCounters(n.byFlow, f)) == if f == flow then 1 else 0
  }

  lemma CloseOne(n: Node, flow: nat, name: Name)
    requires OneOpen(n, flow) && Weight(name) == -1 && name != Processed
    ensures Balanced(Bump(n, name, Some(flow)))
  {
    BumpMissing(n, name, Some(flow));
  }

  lemma CloseProcessed(n: Node, d: Delivery, decode: Decode)
    requires OneOpen(n, d.flowId) && decode.Decoded? && !decode.fragments.Held?
    ensures Balanced(ProcessOriginal(n, d, decode))
  {
    BumpMissing(n, Processed, Some(d.flowId));
    ProcessInputs(n.core, Step(Handed(d, decode), decode.tick));
  }

  lemma EnvelopeBalanced(n: Node, d: Delivery, decode: Decode, expireNow: real)
    requires Balanced(n)
    ensures Balanced(OnEnvelope(n, d, decode, expireNow))
  {
    BumpMissing(n, Envelopes, Some(d.flowId));
    var n1 := Bump(n, Envelopes, Some(d.flowId));
    match decode
    case Undecodable => CloseOne(n1, d.flowId, DecodeFailed);
    case NotIp => CloseOne(n1, d.flowId, NonIpDropped);
    case Decoded(_, _, _, _, _, _) =>
      if decode.fragments.Held? {
        CloseOne(n1, d.flowId, HeldFragment);
      } else {
        CloseProcessed(n1, d, decode);
      }
  }

  lemma PacketBalanced(n: Node, ev: Outer)
    requires Balanced(n)
    ensures Balanced(OnPacket(n, ev))
  {
    if !n.halted && ev.OtherPort? {
      BumpMissing(n, NonReafUdp, None);
    } else if !n.halted && ev.Reaf? {
      BumpMissing(n, UdpChunks, None);
      var n1 := Bump(n, UdpChunks, None);
      var (buffers, out) := Reassembly.Fed(n1.buffers, ev.payload, ev.now);
      if out.Delivered? {
        EnvelopeBalanced(n1.(buffers := buffers), out.d, ev.decode, ev.expireNow);
      }
    }
  }

  /** Over every capture, in all and per flow: envelopes = decode failures + non-IP drops
      + held fragments + processed packets. */
  lemma {:induction false} CountersBalance(evs: seq<Outer>)
    ensures Balanced(RunNode(evs))
    decreases |evs|
  {
    if evs != [] {
      CountersBalance(evs[..|evs| - 1]);
      PacketBalanced(RunNode(evs[..|evs| - 1]), evs[|evs| - 1]);
    }
  }

  // ---------------------------------------------------------- the counters count

  /** What a capture took in before it halted, by what became of it: ordinary datagrams,
      chunks, and chunks that completed a packet. */
  datatype Intake = Intake(others: nat, chunks: nat, delivered: nat)

  function TakenIn(evs: seq<Outer>): (r: Intake)
  {
    if evs == [] then Intake(0, 0, 0)
    else
      var before, n, ev := TakenIn(evs[..|evs| - 1]), RunNode(evs[..|evs| - 1]), evs[|evs| - 1];
      if n.halted || ev.NoUdp? then before
      else if ev.OtherPort? then before.(others := before.others + 1)
      else
        var out := Reassembly.Fed(n.buffers, ev.payload, ev.now).1;
        before.(chunks := before.chunks + 1, delivered := before.delivered + if out.Delivered? then 1 else 0)
  }

  predicate Counts(c: Counters, t: Intake)
  {
    Count(c, NonReafUdp) == t.others && Count(c, UdpChunks) == t.chunks && Count(c, Envelopes) == t.delivered
  }

  /** What becomes of a packet out of reassembly. */
  function Fate(decode: Decode): (name: Name)
  {
    match decode
    case Undecodable => DecodeFailed
    case NotIp => NonIpDropped
    case Decoded(_, _, _, _, _, _) => if decode.fragments.Held? then HeldFragment else Processed
  }

  lemma EnvelopeTotals(n: Node, d: Delivery, decode: Decode, expireNow: real)
    ensures OnEnvelope(n, d, decode, expireNow).totals == Incremented(Incremented(n.totals, Envelopes), Fate(decode))
  {
  }

  lemma FateCounts(c: Counters, fate: Name, t: Intake)
    requires Counts(c, t) && fate !in { NonReafUdp, UdpChunks, Envelopes }
    ensures Counts(Incremented(Incremented(c, Envelopes), fate), t.(delivered := t.delivered + 1))
  {
  }

  lemma ChunkCounts(n: Node, ev: Outer, t: Intake)
    requires Counts(n.totals, t) && !n.halted && ev.Reaf?
    ensures var out := Reassembly.Fed(n.buffers, ev.payload, ev.now).1;
      Counts(OnPacket(n, ev).totals,
             t.(chunks := t.chunks + 1, delivered := t.delivered + if out.Delivered? then 1 else 0))
  {
    var n1 := Bump(n, UdpChunks, None);
    var (buffers, out) := Reassembly.Fed(n1.buffers, ev.payload, ev.now);
    var t1 := t.(chunks := t.chunks + 1);
    assert Counts(n1.totals, t1);
    if out.Delivered? {
      EnvelopeTotals(n1.(buffers := buffers), out.d, ev.decode, ev.expireNow);
      FateCounts(n1.totals, Fate(ev.decode), t1);
    }
  }

  /** The front counters say what was taken in: ordinary datagrams, chunks, and packets
      that came out of reassembly. */
  lemma {:induction false} IntakeCounted(evs: seq<Outer>)
    ensures Counts(RunNode(evs).totals, TakenIn(evs))
    decreases |evs|
  {
    if evs != [] {
      var n, ev := RunNode(evs[..|evs| - 1]), evs[|evs| - 1];
      IntakeCounted(evs[..|evs| - 1]);
      if !n.halted && ev.Reaf? {
        ChunkCounts(n, ev, TakenIn(evs[..|evs| - 1]));
      }
    }
  }
}
