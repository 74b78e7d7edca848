/** What a capture hands on and what it counts, over every run: each packet given to the
    pipeline carries what was delivered and decoded, each counter is the number of times its
    event happened, and stale chunk sets go when a decoded packet was dealt with. */
module CaptureAccounts {
  import opened Prelude
  import opened Wire
  import opened Reassembly
  import opened FlowBuilder
  import opened Pipeline
  import opened Capture
  import opened CaptureRuns

  /** What comes out of reassembly when a packet meets the capture, if anything does. */
  function DeliveredBy(n: Node, ev: Outer): (d: Option<Delivery>)
  {
    if n.halted || !ev.Reaf? then None
    else
      match Reassembly.Fed(n.buffers, ev.payload, ev.now).1
      case Delivered(d) => Some(d)
      case _ => None
  }

  function DeliveredAt(evs: seq<Outer>, t: nat): (d: Option<Delivery>)
    requires t < |evs|
  {
    DeliveredBy(RunNode(evs[..t]), evs[t])
  }

  // ------------------------------------------------------------ what is handed on

  /** The packet carries the ids and link type of the delivery and all that was decoded; or
      it is what a completed fragment train was rebuilt to. */
  predicate Carries(pkt: Packet, d: Delivery, decode: Decode)
    requires decode.Decoded?
  {
    match decode.fragments
    case Held => false
    case Rebuilt(rebuilt) => pkt == rebuilt
    case Unfragmented =>
      && pkt.hasIp && pkt.id.flowId == Some(d.flowId) && pkt.id.packetId == Some(d.packetId)
      && pkt.linktype == Some(d.linktype) && pkt.time == decode.time && pkt.length == decode.length
      && pkt.protocol == decode.protocol && pkt.headers == decode.headers
  }

  /** Event `t` gave the pipeline this step. */
  ghost predicate StepFrom(evs: seq<Outer>, t: int, s: Step)
  {
    && 0 <= t < |evs| && DeliveredAt(evs, t).Some? && evs[t].decode.Decoded?
    && Carries(s.pkt, DeliveredAt(evs, t).value, evs[t].decode) && s.tick == evs[t].decode.tick
  }

  lemma EarlierDelivery(evs: seq<Outer>, t: nat)
    requires t < |evs| - 1
    ensures DeliveredAt(evs[..|evs| - 1], t) == DeliveredAt(evs, t)
  {
    assert evs[..|evs| - 1][..t] == evs[..t];
  }

  lemma StepFromStays(evs: seq<Outer>, t: nat, s: Step)
    requires evs != [] && StepFrom(evs[..|evs| - 1], t, s)
    ensures StepFrom(evs, t, s)
  {
    EarlierDelivery(evs, t);
  }

  /** A decoded delivery that is not held back gives the pipeline a step. */
  predicate Steps(evs: seq<Outer>, t: nat)
    requires t < |evs|
  {
    DeliveredAt(evs, t).Some? && evs[t].decode.Decoded? && !evs[t].decode.fragments.Held?
  }

  lemma LastStep(evs: seq<Outer>)
    requires evs != []
    ensures var n := |evs| - 1; var s := StepOf(RunNode(evs[..n]), evs[n]);
      (s.Some? <==> Steps(evs, n)) && (s.Some? ==> StepFrom(evs, n, s.value))
  {
  }

  lemma EarlierSteps(evs: seq<Outer>, t: nat)
    requires t < |evs| - 1
    ensures Steps(evs[..|evs| - 1], t) == Steps(evs, t)
  {
    EarlierDelivery(evs, t);
  }

  /** Each step comes from an event of its own, in order, and every decoded delivery that
      is not held back makes one. */
  ghost predicate ComeFrom(evs: seq<Outer>, steps: seq<Step>, at: seq<nat>)
  {
    && |at| == |steps|
    && (forall k | 0 <= k < |at| :: at[k] < |evs| && StepFrom(evs, at[k], steps[k]))
    && (forall j, k | 0 <= j < k < |at| :: at[j] < at[k])
    && Covers(evs, at)
  }

  /** Every event that gives a step is among these. */
  ghost predicate Covers(evs: seq<Outer>, at: seq<nat>)
  {
    forall t: nat | t < |evs| && Steps(evs, t) :: t in at
  }

  lemma CoversMore(evs: seq<Outer>, at: seq<nat>, more: seq<nat>)
    requires evs != [] && Covers(evs[..|evs| - 1], at) && (Steps(evs, |evs| - 1) ==> |evs| - 1 in more)
    ensures Covers(evs, at + more)
  {
    forall t: nat | t < |evs| && Steps(evs, t) ensures t in at + more {
      if t < |evs| - 1 {
        EarlierSteps(evs, t);
      }
    }
  }

  lemma StillComeFrom(evs: seq<Outer>, steps: seq<Step>, at: seq<nat>)
    requires evs != [] && ComeFrom(evs[..|evs| - 1], steps, at) && !Steps(evs, |evs| - 1)
    ensures ComeFrom(evs, steps, at)
  {
    forall k | 0 <= k < |at| ensures StepFrom(evs, at[k], steps[k]) {
      StepFromStays(evs, at[k], steps[k]);
    }
    CoversMore(evs, at, []);
    assert at + [] == at;
  }

  lemma OneMoreComesFrom(evs: seq<Outer>, steps: seq<Step>, at: seq<nat>, s: Step)
    requires evs != [] && ComeFrom(evs[..|evs| - 1], steps, at) && StepFrom(evs, |evs| - 1, s)
    ensures ComeFrom(evs, steps + [s], at + [|evs| - 1])
  {
    var n := |evs| - 1;
    forall k | 0 <= k < |at| ensures StepFrom(evs, at[k], steps[k]) {
      StepFromStays(evs, at[k], steps[k]);
    }
    CoversMore(evs, at, [n]);
  }

  /** Over every capture the pipeline's steps come from decoded deliveries, one each, in
      order and without exception. */
  lemma {:induction false} StepsComeFrom(evs: seq<Outer>) returns (at: seq<nat>)
    ensures ComeFrom(evs, StepsOf(evs), at)
    decreases |evs|
  {
    at := [];
    if evs != [] {
      var n := |evs| - 1;
      at := StepsComeFrom(evs[..n]);
      LastStep(evs);
      var s := StepOf(RunNode(evs[..n]), evs[n]);
      if s.Some? {
        OneMoreComesFrom(evs, StepsOf(evs[..n]), at, s.value);
        at := at + [n];
      } else {
        StillComeFrom(evs, StepsOf(evs[..n]), at);
        assert StepsOf(evs) == StepsOf(evs[..n]);
      }
    }
  }

  // ------------------------------------------------------------ what is counted

  /** The counter that says what became of a delivered packet. */
  predicate FateIs(decode: Decode, name: Name)
  {
    match decode
    case Undecodable => name == DecodeFailed
    case NotIp => name == NonIpDropped
    case Decoded(_, _, _, _, fragments, _) => if fragments.Held? then name == HeldFragment else name == Processed
  }

  /** The event is one the named counter counts: in all without a flow, or for a flow. */
  predicate HappensTo(n: Node, ev: Outer, name: Name, flow: Option<nat>)
  {
    if n.halted then false
    else if name == NonReafUdp then flow.None? && ev.OtherPort?
    else if name == UdpChunks then flow.None? && ev.Reaf?
    else
      && DeliveredBy(n, ev).Some? && (flow.Some? ==> DeliveredBy(n, ev).value.flowId == flow.value)
      && (name == Envelopes || FateIs(ev.decode, name))
  }

  predicate Happened(evs: seq<Outer>, t: nat, name: Name, flow: Option<nat>)
    requires t < |evs|
  {
    HappensTo(RunNode(evs[..t]), evs[t], name, flow)
  }

  function Times(evs: seq<Outer>, name: Name, flow: Option<nat>): (ts: set<nat>)
  {
    set t: nat | t < |evs| && Happened(evs, t, name, flow)
  }

  /** The value of a counter, in all or for a flow. */
  function Reading(n: Node, name: Name, flow: Option<nat>): (k: nat)
  {
    if flow.None? then Count(n.totals, name) else Count(FlowCounters(n.byFlow, flow.value), name)
  }

  lemma OneMore(now: set<nat>, before: set<nat>, n: nat, hit: bool)
    requires n !in before && forall t: nat :: t in now <==> t in before || (t == n && hit)
    ensures |now| == |before| + if hit then 1 else 0
  {
    assert now == before + if hit then {n} else {};
  }

  lemma EarlierHappened(evs: seq<Outer>, t: nat, name: Name, flow: Option<nat>)
    requires t < |evs| - 1
    ensures Happened(evs[..|evs| - 1], t, name, flow) == Happened(evs, t, name, flow)
  {
    assert evs[..|evs| - 1][..t] == evs[..t];
  }

  lemma TimesMore(evs: seq<Outer>, name: Name, flow: Option<nat>)
    requires evs != []
    ensures |Times(evs, name, flow)|
         == |Times(evs[..|evs| - 1], name, flow)| + if Happened(evs, |evs| - 1, name, flow) then 1 else 0
  {
    var n := |evs| - 1;
    var now, before, hit := Times(evs, name, flow), Times(evs[..n], name, flow), Happened(evs, n, name, flow);
    forall t: nat ensures t in now <==> t in before || (t == n && hit) {
      if t < n {
        EarlierHappened(evs, t, name, flow);
      }
    }
    OneMore(now, before, n, hit);
  }

  lemma TotalReads(c: Counters, bumped: Name, name: Name)
    ensures Count(Incremented(c, bumped), name) == Count(c, name) + if name == bumped then 1 else 0
  {
  }

  lemma BumpReads(n: Node, bumped: Name, of: Option<nat>, name: Name, flow: Option<nat>)
    ensures Reading(Bump(n, bumped, of), name, flow)
         == Reading(n, name, flow) + if name == bumped && (flow.None? || flow == of) then 1 else 0
  {
    TotalReads(n.totals, bumped, name);
    if of.Some? {
      TotalReads(FlowCounters(n.byFlow, of.value), bumped, name);
    }
  }

  /** What becomes of a packet is counted once, under its fate. */
  lemma EnvelopeBumps(n: Node, d: Delivery, decode: Decode, expireNow: real) returns (fate: Name)
    ensures forall name :: FateIs(decode, name) <==> name == fate
    ensures var r := OnEnvelope(n, d, decode, expireNow);
      var b := Bump(Bump(n, Envelopes, Some(d.flowId)), fate, Some(d.flowId));
      r.totals == b.totals && r.byFlow == b.byFlow
  {
    fate := Fate(decode);
  }

  lemma EnvelopeReads(n: Node, d: Delivery, decode: Decode, expireNow: real, name: Name, flow: Option<nat>)
    ensures Reading(OnEnvelope(n, d, decode, expireNow), name, flow)
         == Reading(n, name, flow)
            + if (name == Envelopes || FateIs(decode, name)) && (flow.None? || flow == Some(d.flowId)) then 1 else 0
  {
    var fate := EnvelopeBumps(n, d, decode, expireNow);
    BumpReads(n, Envelopes, Some(d.flowId), name, flow);
    BumpReads(Bump(n, Envelopes, Some(d.flowId)), fate, Some(d.flowId), name, flow);
    assert FateIs(decode, fate) && !FateIs(decode, Envelopes);
  }

  lemma ChunkReads(n: Node, ev: Outer, name: Name, flow: Option<nat>)
    requires !n.halted && ev.Reaf?
    ensures Reading(OnPacket(n, ev), name, flow)
         == Reading(n, name, flow)
            + (if name == UdpChunks && flow.None? then 1 else 0)
            + (if DeliveredBy(n, ev).Some? && (name == Envelopes || FateIs(ev.decode, name))
                  && (flow.None? || flow == Some(DeliveredBy(n, ev).value.flowId)) then 1 else 0)
  {
    var n1 := Bump(n, UdpChunks, None);
    BumpReads(n, UdpChunks, None, name, flow);
    var (buffers, out) := Reassembly.Fed(n1.buffers, ev.payload, ev.now);
    if out.Delivered? {
      EnvelopeReads(n1.(buffers := buffers), out.d, ev.decode, ev.expireNow, name, flow);
    }
  }

  lemma OtherReads(n: Node, ev: Outer, name: Name, flow: Option<nat>)
    requires !n.halted && !ev.Reaf?
    ensures Reading(OnPacket(n, ev), name, flow)
         == Reading(n, name, flow) + if name == NonReafUdp && flow.None? && ev.OtherPort? then 1 else 0
  {
    BumpReads(n, NonReafUdp, None, name, flow);
  }

  lemma PacketReads(n: Node, ev: Outer, name: Name, flow: Option<nat>)
    ensures Reading(OnPacket(n, ev), name, flow)
         == Reading(n, name, flow) + if HappensTo(n, ev, name, flow) then 1 else 0
  {
    if !n.halted && ev.Reaf? {
      ChunkReads(n, ev, name, flow);
      assert name == UdpChunks || name == NonReafUdp ==> !FateIs(ev.decode, name);
    } else if !n.halted {
      OtherReads(n, ev, name, flow);
    }
  }

  /** Every counter, in all and for every flow, is the number of events it is named after,
      up to the point where the capture stopped, if it did. */
  lemma {:induction false} CountersCount(evs: seq<Outer>, name: Name, flow: Option<nat>)
    ensures Reading(RunNode(evs), name, flow) == |Times(evs, name, flow)|
    decreases |evs|
  {
    if evs == [] {
      assert Times(evs, name, flow) == {};
    } else {
      CountersCount(evs[..|evs| - 1], name, flow);
      PacketReads(RunNode(evs[..|evs| - 1]), evs[|evs| - 1], name, flow);
      TimesMore(evs, name, flow);
    }
  }

  // ------------------------------------------------------------ what is kept

  /** The same sets, less those opened more than ten seconds before. */
  ghost predicate LessStale(after: Buffers, before: Buffers, now: real)
  {
    forall k :: (k in after <==> k in before && now - before[k].firstSeen <= 10.0)
             && (k in after ==> after[k] == before[k])
  }

  lemma EnvelopeKeeps(n: Node, d: Delivery, decode: Decode, expireNow: real)
    ensures var r := OnEnvelope(n, d, decode, expireNow);
      && r.halted == n.halted
      && (!decode.Decoded? ==> r.buffers == n.buffers)
      && (decode.Decoded? ==> LessStale(r.buffers, n.buffers, expireNow))
  {
  }

  lemma OnDelivered(n: Node, ev: Outer)
    requires !n.halted && ev.Reaf? && Reassembly.Fed(n.buffers, ev.payload, ev.now).1.Delivered?
    ensures var (b, out) := Reassembly.Fed(n.buffers, ev.payload, ev.now);
      OnPacket(n, ev) == OnEnvelope(Bump(n, UdpChunks, None).(buffers := b), out.d, ev.decode, ev.expireNow)
  {
  }

  lemma OnOther(n: Node, ev: Outer)
    requires !n.halted && ev.Reaf? && !Reassembly.Fed(n.buffers, ev.payload, ev.now).1.Delivered?
    ensures var (b, out) := Reassembly.Fed(n.buffers, ev.payload, ev.now);
      OnPacket(n, ev).buffers == b && OnPacket(n, ev).halted == out.KeyErrorRaised?
  {
  }

  /** The chunk sets after one event: those of the reassembler's step, less, once a decoded
      packet was dealt with, the ones opened more than ten seconds before the reading of
      the stale check. A set that cannot be joined stops the capture, and nothing else. */
  lemma SetsAfter(n: Node, ev: Outer)
    requires !n.halted && ev.Reaf?
    ensures var (b, out) := Reassembly.Fed(n.buffers, ev.payload, ev.now); var r := OnPacket(n, ev);
      && (r.halted <==> out.KeyErrorRaised?)
      && (if out.Delivered? && ev.decode.Decoded?
          then LessStale(r.buffers, b, ev.expireNow) else r.buffers == b)
  {
    var (b, out) := Reassembly.Fed(n.buffers, ev.payload, ev.now);
    if out.Delivered? {
      OnDelivered(n, ev);
      EnvelopeKeeps(Bump(n, UdpChunks, None).(buffers := b), out.d, ev.decode, ev.expireNow);
    } else {
      OnOther(n, ev);
    }
  }

  // ------------------------------------------------------------ the bump count

  function AllCounts(c: Counters): (k: nat)
  {
    Count(c, NonReafUdp) + Count(c, UdpChunks) + Count(c, Envelopes) + Count(c, DecodeFailed) + Count(c, NonIpDropped)
    + Count(c, HeldFragment) + Count(c, Processed)
  }

  lemma BumpAddsOne(n: Node, name: Name, flow: Option<nat>)
    ensures var r := Bump(n, name, flow);
      AllCounts(r.totals) - r.bumps == AllCounts(n.totals) - n.bumps && r.bumps == n.bumps + 1
  {
  }

  lemma EnvelopeBumpsTwice(n: Node, d: Delivery, decode: Decode, expireNow: real)
    ensures var r := OnEnvelope(n, d, decode, expireNow); AllCounts(r.totals) - r.bumps == AllCounts(n.totals) - n.bumps
  {
    BumpAddsOne(n, Envelopes, Some(d.flowId));
    BumpAddsOne(Bump(n, Envelopes, Some(d.flowId)), Fate(decode), Some(d.flowId));
  }

  /** The number that decides when counters are written is the sum of all of them. */
  lemma {:induction false} BumpsAreAll(evs: seq<Outer>)
    ensures RunNode(evs).bumps == AllCounts(RunNode(evs).totals)
    decreases |evs|
  {
    if evs != [] {
      var n, ev := RunNode(evs[..|evs| - 1]), evs[|evs| - 1];
      BumpsAreAll(evs[..|evs| - 1]);
      if !n.halted && ev.OtherPort? {
        BumpAddsOne(n, NonReafUdp, None);
      } else if !n.halted && ev.Reaf? {
        BumpAddsOne(n, UdpChunks, None);
        var n1 := Bump(n, UdpChunks, None);
        var (buffers, out) := Reassembly.Fed(n1.buffers, ev.payload, ev.now);
        if out.Delivered? {
          EnvelopeBumpsTwice(n1.(buffers := buffers), out.d, ev.decode, ev.expireNow);
        }
      }
    }
  }
}
