/** Mixed replays from the wire on: what a capture of several complete sessions scores, and
    what one replay after another loses. */
module Successions {
  import opened Prelude
  import opened Wire
  import opened Reassembly
  import opened FlowBuilder
  import opened ModelEngine
  import opened Pipeline
  import opened PipelineProperties
  import opened Capture
  import opened CaptureRuns
  import opened CaptureSessions
  import opened Scoring
  import opened EndToEnd
  import opened Lossless
  import opened Transfers
  import opened MixedReplays
  import Replay

  // ------------------------------------------------ any complete capture

  /** The packets of a stream that holds each packet sent once tell each other apart. */
  lemma GatheredIdentified(s: Session, stream: seq<Packet>)
    requires Gathered(s, stream)
    ensures Identified(stream)
  {
    forall t | 0 <= t < |stream| ensures stream[t].id.flowId.Some? && stream[t].id.packetId.Some? {
      assert stream[t] in stream;
    }
    forall t, u | 0 <= t < u < |stream| ensures stream[t].id != stream[u].id {
      if stream[t].id == stream[u].id {
        assert stream[t] in stream;
        OccursOnce(stream, t, u);
      }
    }
  }

  lemma GatheredNumbers(s: Session, stream: seq<Packet>, f: nat)
    requires Gathered(s, stream)
    ensures NumbersIn(stream, f) == Numbers(s, f)
  {
    forall k | k in NumbersIn(stream, f) ensures k in Numbers(s, f) {
      var pkt :| pkt in stream && pkt.id.flowId == Some(f) && pkt.id.packetId == Some(k);
      var p: nat :| p < |s.sent| && pkt.id == IdOf(s, p);
    }
    forall k | k in Numbers(s, f) ensures k in NumbersIn(stream, f) {
      var p :| 0 <= p < |s.sent| && KeyOf(s.sent[p]) == (f, k);
      var t := OccursSomewhere(stream, IdOf(s, p));
      assert stream[t] in stream;
    }
  }

  /** The flows of a session. */
  function Flows(s: Session): (fs: set<nat>)
  {
    set p | 0 <= p < |s.sent| :: KeyOf(s.sent[p]).0
  }

  lemma GatheredFlows(s: Session, stream: seq<Packet>)
    requires Gathered(s, stream)
    ensures FlowsIn(stream) == Flows(s)
  {
    forall f | f in FlowsIn(stream) ensures f in Flows(s) {
      var pkt :| pkt in stream && pkt.id.flowId == Some(f);
      var p: nat :| p < |s.sent| && pkt.id == IdOf(s, p);
    }
    forall f | f in Flows(s) ensures f in FlowsIn(stream) {
      var p :| 0 <= p < |s.sent| && KeyOf(s.sent[p]).0 == f;
      var t := OccursSomewhere(stream, IdOf(s, p));
      assert stream[t] in stream;
    }
  }

  /** Any number of replays in one capture: when every chunk arrives once, in any order and
      mixture, and no chunk set and no window is given up, the join sees every packet sent
      exactly when the reassembled stream changes flow only at multiples of ten packets. */
  lemma CaptureLosesNothingIff(s: Session, evs: seq<Outer>, o10: WindowOracle, o100: WindowOracle, index: JobIndex)
    requires s.Valid() && Undamaged(s, evs) && Complete(s, evs) && Flows(s) <= index.Keys
    requires Undisturbed(RunNode(evs).core)
    ensures (forall f | f in Flows(s) ::
               Seen(index, Logged(Shutdown(RunNode(evs).core, o10, o100).items), f) == Numbers(s, f))
       <==> ChangesOnTens(RunNode(evs).core.stream)
  {
    var stream := RunNode(evs).core.stream;
    SessionGathers(s, evs);
    GatheredIdentified(s, stream);
    GatheredFlows(s, stream);
    CaptureIsPipelineRun(evs);
    NothingLostIff(Slots(map[]), StepsOf(evs), o10, o100, index);
    forall f ensures NumbersIn(stream, f) == Numbers(s, f) {
      GatheredNumbers(s, stream, f);
    }
  }

  // ------------------------------------------------ packets in order

  /** The arrivals of one packet are over before those of the next begin. */
  predicate PacketByPacket(trace: seq<Event>)
  {
    forall a, b | 0 <= a < b < |trace| && trace[a].Arrive? && trace[b].Arrive? :: trace[a].p <= trace[b].p
  }

  /** The stream's packets stand in the order they were sent in. */
  ghost predicate InOrder(s: Session, stream: seq<Packet>)
  {
    forall t, u, p: nat, q: nat | 0 <= t < u < |stream| && p < |s.sent| && q < |s.sent|
      && stream[t].id == IdOf(s, p) && stream[u].id == IdOf(s, q) :: p < q
  }

  lemma {:induction false} DeliveredArrived(s: Session, trace: seq<Event>, p: nat) returns (t: nat)
    requires s.Trace(trace) && s.Deliveries(trace, p) > 0
    ensures t < |trace| && trace[t].Arrive? && trace[t].p == p
    decreases |trace|
  {
    var last := |trace| - 1;
    if trace[last].Arrive? && trace[last].p == p {
      t := last;
    } else {
      t := DeliveredArrived(s, trace[..last], p);
    }
  }

  /** A packet delivered by the last arrival comes after all delivered before. */
  lemma LaterPacket(s: Session, init: seq<Event>, last: Event, stream: seq<Packet>, pkt: Packet)
    requires s.Valid() && s.Trace(init + [last]) && s.Trace(init) && last.Arrive? && s.Possible(last)
    requires PacketByPacket(init + [last]) && s.Clean(init + [last])
    requires Streamed(s, init, stream) && InOrder(s, stream) && pkt.id == IdOf(s, last.p)
    requires s.Step(s.Run(init), last).1.Delivered?
    ensures InOrder(s, stream + [pkt])
  {
    var more := stream + [pkt];
    forall t, u, p: nat, q: nat | 0 <= t < u < |more| && p < |s.sent| && q < |s.sent|
      && more[t].id == IdOf(s, p) && more[u].id == IdOf(s, q)
      ensures p < q
    {
      if u == |stream| {
        IdsDiffer(s, q, last.p);
        OccursOnce(stream, t, t);
        DeliveredBefore(s, init, last, p);
      }
    }
  }

  lemma DeliveredBefore(s: Session, init: seq<Event>, last: Event, p: nat)
    requires s.Valid() && s.Trace(init + [last]) && s.Trace(init) && last.Arrive? && s.Possible(last)
    requires PacketByPacket(init + [last]) && s.Clean(init + [last]) && p < |s.sent|
    requires s.Deliveries(init, p) > 0 && s.Step(s.Run(init), last).1.Delivered?
    ensures p < last.p
  {
    var trace := init + [last];
    var at := DeliveredArrived(s, init, p);
    assert trace[at] == init[at] && trace[|init|] == last;
    if p == last.p {
      s.RunAppend(init, last, p);
      s.DeliveredExactlyOnce(trace);
    }
  }

  lemma CleanPrefix(s: Session, trace: seq<Event>)
    requires trace != [] && s.Clean(trace) && PacketByPacket(trace)
    ensures s.Clean(trace[..|trace| - 1]) && PacketByPacket(trace[..|trace| - 1])
  {
  }

  lemma StreamStep(s: Session, n: Node, ev: Outer, trace: seq<Event>, last: Event)
    requires s.Valid() && !n.halted && ev.Reaf? && ev.decode.Decoded? && ev.decode.fragments.Unfragmented?
    requires s.Trace(trace) && s.Possible(last) && last.Arrive? && last.now == ev.now
    requires ev.payload == RawChunk(s.sent[last.p], s.max, last.i)
    requires n.buffers == s.Run(trace) && s.Faithful(n.buffers)
    requires Streamed(s, trace, n.core.stream) && InOrder(s, n.core.stream)
    requires s.Trace(trace + [last]) && s.Clean(trace + [last]) && PacketByPacket(trace + [last])
    requires var b := Reassembly.Fed(n.buffers, ev.payload, ev.now).0; Expired(b, ev.expireNow, ENVELOPE_TIMEOUT) == b
    ensures InOrder(s, OnPacket(n, ev).core.stream)
  {
    s.ArriveStep(n.buffers, last.p, last.i, last.now);
    var pkt := ChunkStreams(n, ev);
    if s.Step(n.buffers, last).1 != Pending {
      LaterPacket(s, trace, last, n.core.stream, pkt);
    }
  }

  lemma {:induction false} StreamInOrder(s: Session, evs: seq<Outer>)
    requires s.Valid() && Undamaged(s, evs) && s.Clean(TraceOf(s, evs)) && PacketByPacket(TraceOf(s, evs))
    ensures InOrder(s, RunNode(evs).core.stream)
    decreases |evs|
  {
    if evs != [] {
      var init, ev := evs[..|evs| - 1], evs[|evs| - 1];
      UndamagedPrefix(s, evs);
      TraceStep(s, evs);
      CaptureRunsSession(s, init);
      CaptureGoesOn(s, init);
      if ev.Reaf? {
        CleanPrefix(s, TraceOf(s, evs));
        assert TraceOf(s, evs)[..|TraceOf(s, evs)| - 1] == TraceOf(s, init);
        StreamInOrder(s, init);
        StreamStep(s, RunNode(init), ev, TraceOf(s, init), ArrivalOf(s, ev));
      } else {
        StreamInOrder(s, init);
        OtherStreams(RunNode(init), ev);
      }
    }
  }

  /** Numbers in rising order, all of those below `n` and no other, are 0, 1, ... n-1. */
  lemma {:induction false} RisingIsAll(ps: seq<nat>, n: nat)
    requires forall t, u | 0 <= t < u < |ps| :: ps[t] < ps[u]
    requires forall t | 0 <= t < |ps| :: ps[t] < n
    requires forall p: nat | p < n :: p in ps
    ensures |ps| == n && forall t | 0 <= t < n :: ps[t] == t
    decreases n
  {
    if ps == [] {
      assert n > 0 ==> n - 1 in ps;
    } else {
      var last := |ps| - 1;
      assert ps[last] < n;
      assert n - 1 in ps;
      assert ps[last] == n - 1;
      forall p: nat | p < n - 1 ensures p in ps[..last] {
        assert p in ps;
        var t :| 0 <= t < |ps| && ps[t] == p;
        assert ps[..last][t] == p;
      }
      RisingIsAll(ps[..last], n - 1);
    }
  }

  /** Which packet stands at `t`. */
  ghost function PacketAt(s: Session, stream: seq<Packet>, t: nat): (p: nat)
    requires OnlySent(s, stream) && t < |stream|
    ensures p < |s.sent| && stream[t].id == IdOf(s, p)
  {
    assert stream[t] in stream;
    var p: nat :| p < |s.sent| && stream[t].id == IdOf(s, p);
    p
  }

  /** Which packets the stream holds, in its order. */
  ghost function PacketsAt(s: Session, stream: seq<Packet>): (ps: seq<nat>)
    requires OnlySent(s, stream)
    ensures |ps| == |stream|
    ensures forall t | 0 <= t < |ps| :: ps[t] < |s.sent| && stream[t].id == IdOf(s, ps[t])
  {
    seq(|stream|, t requires 0 <= t < |stream| => PacketAt(s, stream, t))
  }

  lemma HasAll(s: Session, stream: seq<Packet>, p: nat)
    requires s.Valid() && Gathered(s, stream) && p < |s.sent|
    ensures p in PacketsAt(s, stream)
  {
    var t := OccursSomewhere(stream, IdOf(s, p));
    IdsDiffer(s, PacketsAt(s, stream)[t], p);
  }

  lemma RisingAt(s: Session, stream: seq<Packet>, t: nat, u: nat)
    requires OnlySent(s, stream) && InOrder(s, stream) && t < u < |stream|
    ensures PacketsAt(s, stream)[t] < PacketsAt(s, stream)[u]
  {
    var ps := PacketsAt(s, stream);
    assert stream[t].id == IdOf(s, ps[t]) && stream[u].id == IdOf(s, ps[u]);
  }

  lemma RisingAndAll(s: Session, stream: seq<Packet>)
    requires s.Valid() && Gathered(s, stream) && InOrder(s, stream)
    ensures var ps := PacketsAt(s, stream);
      |ps| == |s.sent| && forall t | 0 <= t < |s.sent| :: ps[t] == t
  {
    var ps := PacketsAt(s, stream);
    forall p: nat | p < |s.sent| ensures p in ps {
      HasAll(s, stream, p);
    }
    forall t, u | 0 <= t < u < |ps| ensures ps[t] < ps[u] {
      RisingAt(s, stream, t, u);
    }
    RisingIsAll(ps, |s.sent|);
  }

  lemma GatheredInOrder(s: Session, stream: seq<Packet>)
    requires s.Valid() && Gathered(s, stream) && InOrder(s, stream)
    ensures |stream| == |s.sent| && forall t | 0 <= t < |stream| :: stream[t].id == IdOf(s, t)
  {
    RisingAndAll(s, stream);
    var ps := PacketsAt(s, stream);
    forall t | 0 <= t < |stream| ensures stream[t].id == IdOf(s, t) {
      assert ps[t] == t;
    }
  }

  /** When the packets arrive one after the other, each chunk once, the stream is what was
      sent, in the order it was sent in. */
  lemma StreamIsSent(s: Session, evs: seq<Outer>)
    requires s.Valid() && Undamaged(s, evs) && Complete(s, evs) && PacketByPacket(TraceOf(s, evs))
    ensures var stream := RunNode(evs).core.stream;
      |stream| == |s.sent| && forall t | 0 <= t < |stream| :: stream[t].id == IdOf(s, t)
  {
    SessionGathers(s, evs);
    StreamInOrder(s, evs);
    GatheredInOrder(s, RunNode(evs).core.stream);
  }

  // ------------------------------------------------ one replay after another

  /** Two sessions, one after the other, as one. */
  function Joined(a: Session, b: Session): (s: Session)
  {
    Session(a.sent + b.sent, a.max, a.timeout)
  }

  lemma {:induction false} OutgoingJoined(a: Session, b: Session, m: nat)
    requires a.max > 0 && b.max == a.max && m <= |b.sent|
    ensures Outgoing(Joined(a, b), |a.sent| + m) == Outgoing(a, |a.sent|) + Outgoing(b, m)
    decreases m
  {
    if m == 0 {
      OutgoingFirst(a, b, |a.sent|);
    } else {
      OutgoingJoined(a, b, m - 1);
      assert ChunksOf(Joined(a, b), |a.sent| + m - 1) == ChunksOf(b, m - 1);
    }
  }

  lemma {:induction false} OutgoingFirst(a: Session, b: Session, n: nat)
    requires a.max > 0 && n <= |a.sent|
    ensures Outgoing(Joined(a, b), n) == Outgoing(a, n)
    decreases n
  {
    if n > 0 {
      OutgoingFirst(a, b, n - 1);
      assert ChunksOf(Joined(a, b), n - 1) == ChunksOf(a, n - 1);
    }
  }

  /** Chunks go out packet by packet. */
  lemma {:induction false} OutgoingInOrder(s: Session, n: nat, k: nat, l: nat, p: nat, i: nat, q: nat, j: nat)
    requires s.Valid() && n <= |s.sent| && k <= l < |Outgoing(s, n)|
    requires ChunkAt(s, Outgoing(s, n)[k], p, i) && ChunkAt(s, Outgoing(s, n)[l], q, j)
    ensures p <= q
    decreases n
  {
    var before := |Outgoing(s, n - 1)|;
    if l < before {
      OutgoingInOrder(s, n - 1, k, l, p, i, q, j);
    } else {
      SameChunk(s, q, j, n - 1, l - before);
      var p', i' := OutgoingFrom(s, n, k);
      SameChunk(s, p, i, p', i');
    }
  }

  lemma InOrderArrives(s: Session, evs: seq<Outer>)
    requires s.Valid() && Payloads(evs) == Outgoing(s, |s.sent|)
    ensures OfSession(s, evs) && Complete(s, evs) && PacketByPacket(TraceOf(s, evs))
  {
    RearrangedIsComplete(s, evs);
    TraceMatches(s, evs);
    var trace, out := TraceOf(s, evs), Outgoing(s, |s.sent|);
    forall a, b | 0 <= a < b < |trace| ensures trace[a].p <= trace[b].p {
      OutgoingInOrder(s, |s.sent|, a, b, trace[a].p, trace[a].i, trace[b].p, trace[b].i);
    }
  }

  lemma JoinedValid(a: Session, b: Session, f: nat, g: nat)
    requires a.Valid() && b.Valid() && a.max == b.max && OneFlow(a, f) && OneFlow(b, g) && f != g
    ensures Joined(a, b).Valid()
  {
    var s := Joined(a, b);
    forall p, q | 0 <= p < q < |s.sent| ensures KeyOf(s.sent[p]) != KeyOf(s.sent[q]) {
      if q < |a.sent| {
        a.OtherKeys(p, q);
      } else if p >= |a.sent| {
        b.OtherKeys(p - |a.sent|, q - |a.sent|);
      }
    }
  }

  /** A replay that reads `n` packets and puts all their chunks on the wire. */
  ghost predicate SendsAll(p: Replay.Plan, v: Replay.World, n: nat)
  {
    0 < n <= |p.frames| && n <= U32 && Replay.Reads(p, v, n) && NoneFails(p, v, n) && 0 <= p.flowId < U32
  }

  function WireOf(p: Replay.Plan, v: Replay.World, n: nat): (r: seq<seq<byte>>)
    requires n <= |p.frames|
  {
    Raws(Replay.Wired(Replay.Chunks(p), v, n))
  }

  lemma SessionOfAll(p: Replay.Plan, v: Replay.World, n: nat)
    requires SendsAll(p, v, n)
    ensures p.max > 0
    ensures var a := SessionOf(p, n, ENVELOPE_TIMEOUT);
      a.Valid() && OneFlow(a, p.flowId) && Outgoing(a, |a.sent|) == WireOf(p, v, n)
  {
    ReplayIsSession(p, v, n, ENVELOPE_TIMEOUT);
    NumbersOfReplay(p, n, ENVELOPE_TIMEOUT);
    WiredIsOutgoing(p, v, n, ENVELOPE_TIMEOUT, n);
  }

  /** One replay after another over a network that keeps order, loses nothing and repeats
      nothing: the stream is the one, then the other. */
  lemma ReplaysStream(p: Replay.Plan, v: Replay.World, n: nat, q: Replay.Plan, w: Replay.World, m: nat, evs: seq<Outer>)
    requires SendsAll(p, v, n) && SendsAll(q, w, m) && p.flowId != q.flowId && p.max == q.max
    requires Payloads(evs) == WireOf(p, v, n) + WireOf(q, w, m) && Plain(evs) && NothingExpired(evs)
    ensures InSuccession(RunNode(evs).core.stream, p.flowId, n, q.flowId, m)
  {
    BothOnWire(p, v, n, q, w, m);
    var s := Joined(SessionOf(p, n, ENVELOPE_TIMEOUT), SessionOf(q, m, ENVELOPE_TIMEOUT));
    InOrderArrives(s, evs);
    StreamIsSent(s, evs);
    JoinedSuccession(p, n, q, m, RunNode(evs).core.stream);
  }

  lemma BothOnWire(p: Replay.Plan, v: Replay.World, n: nat, q: Replay.Plan, w: Replay.World, m: nat)
    requires SendsAll(p, v, n) && SendsAll(q, w, m) && p.flowId != q.flowId && p.max == q.max
    ensures p.max > 0
    ensures var s := Joined(SessionOf(p, n, ENVELOPE_TIMEOUT), SessionOf(q, m, ENVELOPE_TIMEOUT));
      s.Valid() && Outgoing(s, |s.sent|) == WireOf(p, v, n) + WireOf(q, w, m)
  {
    SessionOfAll(p, v, n);
    SessionOfAll(q, w, m);
    var a, b := SessionOf(p, n, ENVELOPE_TIMEOUT), SessionOf(q, m, ENVELOPE_TIMEOUT);
    JoinedValid(a, b, p.flowId, q.flowId);
    OutgoingJoined(a, b, m);
  }

  /** If moreover no window is given up: of the first replay the join sees the packets up to
      the last multiple of ten, of the second those from the next one on. So nothing is
      lost exactly when the first replay is a multiple of ten packets long. */
  lemma ReplayAfterReplay(p: Replay.Plan, v: Replay.World, n: nat, q: Replay.Plan, w: Replay.World, m: nat,
                          evs: seq<Outer>, o10: WindowOracle, o100: WindowOracle, index: JobIndex)
    requires SendsAll(p, v, n) && SendsAll(q, w, m) && p.flowId != q.flowId && p.max == q.max
    requires Payloads(evs) == WireOf(p, v, n) + WireOf(q, w, m) && Plain(evs) && NothingExpired(evs)
    requires p.flowId in index && q.flowId in index && Undisturbed(RunNode(evs).core)
    ensures var preds := Logged(Shutdown(RunNode(evs).core, o10, o100).items);
      && Seen(index, preds, p.flowId) == Below(TensUpTo(n))
      && (forall k: nat :: k in Seen(index, preds, q.flowId) <==> k < m && TensFrom(n) <= n + k)
      && (Seen(index, preds, p.flowId) == Below(n) && Seen(index, preds, q.flowId) == Below(m) <==> n % 10 == 0)
  {
    var preds := Logged(Shutdown(RunNode(evs).core, o10, o100).items);
    ReplaysStream(p, v, n, q, w, m, evs);
    CaptureIsPipelineRun(evs);
    SeenInSuccession(Slots(map[]), StepsOf(evs), o10, o100, index, p.flowId, n, q.flowId, m);
    WholeIff(Seen(index, preds, p.flowId), Seen(index, preds, q.flowId), n, m);
  }

  lemma JoinedSuccession(p: Replay.Plan, n: nat, q: Replay.Plan, m: nat, stream: seq<Packet>)
    requires 0 < p.max == q.max && n <= |p.frames| && n <= U32 && m <= |q.frames| && m <= U32
    requires 0 <= p.flowId < U32 && 0 <= q.flowId < U32
    requires var s := Joined(SessionOf(p, n, ENVELOPE_TIMEOUT), SessionOf(q, m, ENVELOPE_TIMEOUT));
      |stream| == |s.sent| && forall t | 0 <= t < |stream| :: stream[t].id == IdOf(s, t)
    ensures InSuccession(stream, p.flowId, n, q.flowId, m)
  {
    var s := Joined(SessionOf(p, n, ENVELOPE_TIMEOUT), SessionOf(q, m, ENVELOPE_TIMEOUT));
    forall t | 0 <= t < n ensures stream[t].id == Ident(Some(p.flowId), Some(t)) {
      KeyFits(s.sent[t]);
    }
    forall t | n <= t < n + m ensures stream[t].id == Ident(Some(q.flowId), Some(t - n)) {
      KeyFits(s.sent[t]);
    }
  }

  lemma WholeIff(first: set<nat>, second: set<nat>, n: nat, m: nat)
    requires first == Below(TensUpTo(n)) && m > 0
    requires forall k: nat :: k in second <==> k < m && TensFrom(n) <= n + k
    ensures first == Below(n) && second == Below(m) <==> n % 10 == 0
  {
    TensLaw(n, n);
    if n % 10 == 0 {
      assert second == Below(m);
    } else {
      assert TensUpTo(n) in Below(n) && TensUpTo(n) !in first;
    }
  }
}
