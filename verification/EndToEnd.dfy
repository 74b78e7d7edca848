/** From replay to score: packet recall cannot exceed what was read. */
module EndToEnd {
  import opened Prelude
  import opened Wire
  import opened Reassembly
  import opened FlowBuilder
  import opened ModelEngine
  import opened Pipeline
  import opened PipelineRuns
  import opened Capture
  import opened CaptureRuns
  import opened Scoring
  import FlowSamples
  import Replay

  /** How many packets each replayed flow read. */
  type Reads = map<nat, nat>

  /** A payload some replay sent: a chunk of a packet numbered below its flow's count. */
  ghost predicate SentBy(counts: Reads, max: nat, payload: seq<byte>)
  {
    exists o: Original, i: nat :: ChunkOfRead(counts, max, o, i, payload)
  }

  ghost predicate ChunkOfRead(counts: Reads, max: nat, o: Original, i: nat, payload: seq<byte>)
  {
    && max > 0 && i < |ChunkPayloads(o.payload, max)| && Sendable(o, max) && payload == RawChunk(o, max, i)
    && 0 <= o.flowId && o.flowId in counts && 0 <= o.packetId < counts[o.flowId]
  }

  /** A packet is one of those read, or carries no number at all. */
  predicate Known(counts: Reads, id: Ident)
  {
    id.packetId.Some? ==>
      id.flowId.Some? && id.flowId.value in counts && id.packetId.value < counts[id.flowId.value]
  }

  /** Flow ids and counts fit the wire format's 32 bits. */
  predicate Fits32(counts: Reads)
  {
    forall f | f in counts :: f < U32 && counts[f] <= U32
  }

  /** The carrier packets hold sent chunks, in any order, number and mixture; and
      fragments are rebuilt into packets that carry no number or a known one. */
  ghost predicate FromReplays(counts: Reads, max: nat, evs: seq<Outer>)
  {
    forall t | 0 <= t < |evs| && evs[t].Reaf? ::
      && SentBy(counts, max, evs[t].payload)
      && (evs[t].decode.Decoded? && evs[t].decode.fragments.Rebuilt? ==> Known(counts, evs[t].decode.fragments.pkt.id))
  }

  /** What `replay_pcap` puts on the wire is sent in this sense. */
  lemma ReplayedIsSent(counts: Reads, p: Replay.Plan, world: Replay.World, read: nat, i: nat)
    requires 0 <= p.flowId && p.flowId in counts && read <= |p.frames| && read <= counts[p.flowId]
    requires Replay.Reads(p, world, read) && i < |Replay.Wired(Replay.Chunks(p), world, read)|
    ensures p.max > 0 && SentBy(counts, p.max, Replay.Wired(Replay.Chunks(p), world, read)[i].raw)
  {
    Replay.WiredIsGenuine(p, world, read, i);
    var s := Replay.Wired(Replay.Chunks(p), world, read)[i];
    assert ChunkOfRead(counts, p.max, Replay.OriginalOf(p, s.packet), s.chunk, s.raw);
  }

  /** The packets a replay read, as one session of the chunk protocol. */
  function SessionOf(p: Replay.Plan, read: nat, timeout: real): (s: Session)
    requires 0 < p.max && read <= |p.frames|
  {
    Session(seq(read, k requires 0 <= k < read => Replay.OriginalOf(p, k)), p.max, timeout)
  }

  /** A sample replayed with the parameters recommended for it: a pause of the sample up
      to the basis is only scaled, never cut, and stays within the target idle timeout and
      the half percent that rounding the speed may cost. */
  lemma RecommendedPacing(p: Replay.Plan, k: nat, gaps: seq<real>, target: real, percentile: real, margin: real)
    requires gaps != [] && FlowSamples.Sorted(gaps) && gaps[0] >= 0.0 && target > 0.0 && margin >= 0.0
    requires var r := FlowSamples.RecommendReplayParams(gaps, target, percentile, margin);
      p.speed == r.speed && p.maxDelay == Some(r.maxDelay)
    requires 0 < k < |p.frames|
    requires var gap := p.frames[k].ts - p.frames[k - 1].ts;
      0.0 <= gap <= FlowSamples.Basis(gaps, percentile, margin) && gap <= gaps[|gaps| - 1]
    ensures Replay.Delay(p, k) == (p.frames[k].ts - p.frames[k - 1].ts) / p.speed <= 1.005 * target
  {
    var gap := p.frames[k].ts - p.frames[k - 1].ts;
    FlowSamples.RecommendationHolds(gaps, target, percentile, margin, gap);
    QuotientGap(0.0, gap, p.speed);
  }

  lemma ReadIsSendable(p: Replay.Plan, world: Replay.World, read: nat, k: nat)
    requires k < read <= |p.frames| && Replay.Reads(p, world, read)
    ensures p.max > 0 && Sendable(Replay.OriginalOf(p, k), p.max)
  {
    Replay.ReadsApart(p, world, k, read);
  }

  lemma NumbersDiffer(p: Replay.Plan, j: nat, k: nat)
    requires j < k < |p.frames| && k < U32
    ensures KeyOf(Replay.OriginalOf(p, j)) != KeyOf(Replay.OriginalOf(p, k))
  {
    assert j % U32 == j && k % U32 == k;
  }

  /** A replay of up to 2^32 packets meets what the delivery theorems ask of a sender:
      every packet fits the format and no two share an identity. */
  lemma ReplayIsSession(p: Replay.Plan, world: Replay.World, read: nat, timeout: real)
    requires 0 < read <= |p.frames| && read <= U32 && Replay.Reads(p, world, read)
    ensures p.max > 0 && SessionOf(p, read, timeout).Valid()
  {
    ReadIsSendable(p, world, read, 0);
    var sent := SessionOf(p, read, timeout).sent;
    forall k | 0 <= k < |sent| ensures Sendable(sent[k], p.max) {
      ReadIsSendable(p, world, read, k);
    }
    forall j, k | 0 <= j < k < |sent| ensures KeyOf(sent[j]) != KeyOf(sent[k]) {
      NumbersDiffer(p, j, k);
    }
  }

  /** Each datagram a replay puts on the wire is one of its session's chunks. */
  lemma WiredIsOfSession(p: Replay.Plan, world: Replay.World, read: nat, timeout: real, i: nat)
    requires p.max > 0 && read <= |p.frames| && i < |Replay.Wired(Replay.Chunks(p), world, read)|
    ensures var d, s := Replay.Wired(Replay.Chunks(p), world, read)[i], SessionOf(p, read, timeout);
      d.packet < |s.sent| && d.chunk < |s.Parts(d.packet)| && d.raw == RawChunk(s.sent[d.packet], s.max, d.chunk)
  {
    Replay.WiredFrom(Replay.Chunks(p), world, read, i);
  }

  lemma SentIsKnown(counts: Reads, max: nat, payload: seq<byte>)
    requires Fits32(counts) && SentBy(counts, max, payload)
    ensures var e := ParseEnvelopeChunk(payload);
      e.Some? && Known(counts, Ident(Some(e.value.flowId), Some(e.value.packetId)))
  {
    var o, i: nat :| ChunkOfRead(counts, max, o, i, payload);
    ParsedIds(o, max, i);
  }

  /** A delivery carries the ids of the chunk that completed it. */
  lemma DeliveryKeepsIds(buffers: Buffers, raw: seq<byte>, now: real)
    ensures match Reassembly.Fed(buffers, raw, now).1
            case Delivered(d) =>
              var e := ParseEnvelopeChunk(raw);
              e.Some? && e.value.flowId == d.flowId && e.value.packetId == d.packetId
            case _ => true
  {
  }

  lemma DeliveredIsKnown(counts: Reads, max: nat, n: Node, ev: Outer)
    requires Fits32(counts) && ev.Reaf? && SentBy(counts, max, ev.payload)
    ensures match Reassembly.Fed(n.buffers, ev.payload, ev.now).1
            case Delivered(d) => Known(counts, Ident(Some(d.flowId), Some(d.packetId)))
            case _ => true
  {
    SentIsKnown(counts, max, ev.payload);
    DeliveryKeepsIds(n.buffers, ev.payload, ev.now);
  }

  ghost predicate AllKnown(counts: Reads, stream: seq<Packet>)
  {
    forall p | p in stream :: Known(counts, p.id)
  }

  lemma {:induction false} StreamIsKnown(counts: Reads, max: nat, evs: seq<Outer>)
    requires Fits32(counts) && FromReplays(counts, max, evs)
    ensures AllKnown(counts, RunNode(evs).core.stream)
    decreases |evs|
  {
    if evs != [] {
      var init, ev := evs[..|evs| - 1], evs[|evs| - 1];
      assert forall t | 0 <= t < |init| :: init[t] == evs[t];
      StreamIsKnown(counts, max, init);
      var n := RunNode(init);
      PacketMovesPipeline(n, ev);
      var s := StepOf(n, ev);
      if s.Some? {
        DeliveredIsKnown(counts, max, n, ev);
        ProcessInputs(n.core, s.value);
      }
    }
  }

  lemma {:induction false} WindowWithin(ws: seq<Window>, k: nat)
    requires k < |ws|
    ensures forall p | p in ws[k].packets :: p in Flatten(PacketLists(ws))
    decreases |ws|
  {
    var last := |ws| - 1;
    assert PacketLists(ws)[..last] == PacketLists(ws[..last]);
    if k < last {
      WindowWithin(ws[..last], k);
    }
  }

  /** The item log as the scoring scripts read it. */
  function Logged(items: seq<Item>): (preds: seq<Prediction>)
    ensures |preds| == |items|
  {
    seq(|items|, i requires 0 <= i < |items| =>
      var w := items[i].window;
      Prediction(w.FlowId(), w.MixedFlow(), w.PacketIds(), "", Some(items[i].result.confidence), Some(""),
                 Some(w.PacketCount()), "", None))
  }

  lemma {:induction false} ItemHasPlace(items: seq<Item>, i: nat) returns (k: nat)
    requires i < |items|
    ensures k < |ItemsOf(items, items[i].tag)| && ItemsOf(items, items[i].tag)[k] == items[i]
    decreases |items|
  {
    var last := |items| - 1;
    if i < last {
      k := ItemHasPlace(items[..last], i);
    } else {
      k := |ItemsOf(items[..last], items[i].tag)|;
    }
  }

  /** Every logged window, the trailing ones included, holds only packets of the stream. */
  lemma LoggedWithinStream(evs: seq<Outer>, o10: WindowOracle, o100: WindowOracle, i: nat)
    requires i < |Shutdown(RunNode(evs).core, o10, o100).items|
    ensures var w := Shutdown(RunNode(evs).core, o10, o100).items[i].window;
      forall p | p in w.packets :: p in RunNode(evs).core.stream
  {
    CaptureIsPipelineRun(evs);
    ShutdownConserves(Slots(map[]), StepsOf(evs), o10, o100);
    var r := Shutdown(RunNode(evs).core, o10, o100);
    var k := ItemHasPlace(r.items, i);
    WindowWithin(WindowsOf(r, r.items[i].tag), k);
  }

  lemma AttributedIdsAreRead(counts: Reads, w: Window, f: nat)
    requires AllKnown(counts, w.packets) && w.FlowId() == Some(f)
    ensures w.PacketIds() != {} ==> f in counts
    ensures forall pid | pid in w.PacketIds() :: pid < counts[f]
  {
    w.AttributedFlow(f);
    forall p | p in w.packets && p.id.packetId.Some?
      ensures f in counts && p.id.packetId.value < counts[f]
    {
      assert p.id.flowId.value in w.FlowIds();
    }
  }

  /** Recall never exceeds 100%. For every capture of sent chunks, through reassembly,
      windowing, the item log and the join, the packet ids seen for a flow are among the
      numbers of the packets its replay read. */
  lemma RecallIsBounded(counts: Reads, max: nat, evs: seq<Outer>, o10: WindowOracle, o100: WindowOracle,
                        jobs: seq<Job>, f: nat)
    requires Fits32(counts) && FromReplays(counts, max, evs) && f in counts
    ensures var preds := Logged(Shutdown(RunNode(evs).core, o10, o100).items);
      && Seen(IndexOf(jobs), preds, f) <= Below(counts[f])
      && |Seen(IndexOf(jobs), preds, f)| <= counts[f]
  {
    var items := Shutdown(RunNode(evs).core, o10, o100).items;
    var preds := Logged(items);
    var seen := Seen(IndexOf(jobs), preds, f);
    StreamIsKnown(counts, max, evs);
    forall pid | pid in seen ensures pid < counts[f] {
      SeenIff(IndexOf(jobs), preds, f, pid);
      var i :| 0 <= i < |preds| && preds[i].flowId == Some(f) && pid in preds[i].packetIds;
      LoggedWithinStream(evs, o10, o100, i);
      AttributedIdsAreRead(counts, items[i].window, f);
    }
    SubsetSize(seen, Below(counts[f]));
  }

  /** The recall summary of any such capture: a flow whose job records at least the
      packets its replay read has a recall of at most 100 percent. */
  lemma RecallAtMostAll(counts: Reads, max: nat, evs: seq<Outer>, o10: WindowOracle, o100: WindowOracle,
                        jobs: seq<Job>, f: nat)
    requires Fits32(counts) && FromReplays(counts, max, evs) && f in counts && f in IndexOf(jobs)
    requires var read := IndexOf(jobs)[f].packetsRead; read.Some? ==> counts[f] <= read.value
    ensures var recall := RecallOf(jobs, Logged(Shutdown(RunNode(evs).core, o10, o100).items));
      f in recall && (recall[f].Some? ==> 0.0 <= recall[f].value <= 100.0)
  {
    RecallIsBounded(counts, max, evs, o10, o100, jobs, f);
    var preds := Logged(Shutdown(RunNode(evs).core, o10, o100).items);
    var seen := |Seen(IndexOf(jobs), preds, f)|;
    match IndexOf(jobs)[f].packetsRead
    case None =>
    case Some(total) =>
      if total > 0 {
        RoundedPctMonotone(seen, total, total, 100.0);
      }
  }
}
