/** The lossless case, from replay to score, for any number of replays in one capture: when
    every chunk reaches the capture once and nothing is given up, every packet sent is in
    the stream exactly once, and is scored exactly if it lies in a logged window that holds
    no other flow. A capture that carries a single replay scores every packet read. */
module Lossless {
  import opened Prelude
  import opened Wire
  import opened Reassembly
  import opened FlowBuilder
  import opened ModelEngine
  import opened Pipeline
  import opened PipelineRuns
  import opened WindowLabels
  import opened Capture
  import opened CaptureRuns
  import opened CaptureSessions
  import opened Scoring
  import opened EndToEnd
  import Replay

  // ------------------------------------------------- a capture as a session run

  ghost function ChunkId(s: Session, payload: seq<byte>): (id: (nat, nat))
    requires IsChunk(s, payload)
    ensures ChunkAt(s, payload, id.0, id.1)
  {
    var p, i: nat :| ChunkAt(s, payload, p, i);
    (p, i)
  }

  ghost function ArrivalOf(s: Session, ev: Outer): (e: Event)
    requires ev.Reaf? && IsChunk(s, ev.payload)
    ensures e.Arrive? && s.Possible(e) && e.now == ev.now && ev.payload == RawChunk(s.sent[e.p], s.max, e.i)
  {
    Arrive(ChunkId(s, ev.payload).0, ChunkId(s, ev.payload).1, ev.now)
  }

  /** The chunk arrivals of a capture, in order. */
  ghost function TraceOf(s: Session, evs: seq<Outer>): (trace: seq<Event>)
    requires OfSession(s, evs)
    ensures s.Trace(trace)
  {
    if evs == [] then []
    else
      OfSessionPrefix(s, evs);
      TraceOf(s, evs[..|evs| - 1]) + if evs[|evs| - 1].Reaf? then [ArrivalOf(s, evs[|evs| - 1])] else []
  }

  lemma OfSessionPrefix(s: Session, evs: seq<Outer>)
    requires OfSession(s, evs) && evs != []
    ensures OfSession(s, evs[..|evs| - 1]) && (evs[|evs| - 1].Reaf? ==> IsChunk(s, evs[|evs| - 1].payload))
  {
    assert forall t | 0 <= t < |evs| - 1 :: evs[..|evs| - 1][t] == evs[t];
  }

  lemma TraceStep(s: Session, evs: seq<Outer>)
    requires OfSession(s, evs) && evs != []
    ensures OfSession(s, evs[..|evs| - 1])
    ensures var ev := evs[|evs| - 1];
      if ev.Reaf? then IsChunk(s, ev.payload) && TraceOf(s, evs) == TraceOf(s, evs[..|evs| - 1]) + [ArrivalOf(s, ev)]
      else TraceOf(s, evs) == TraceOf(s, evs[..|evs| - 1])
  {
    OfSessionPrefix(s, evs);
  }

  /** Every packet decodes to an unfragmented IP packet. */
  predicate Plain(evs: seq<Outer>)
  {
    forall t | 0 <= t < |evs| && evs[t].Reaf? :: evs[t].decode.Decoded? && evs[t].decode.fragments.Unfragmented?
  }

  /** No chunk set was dropped as stale. */
  ghost predicate NothingExpired(evs: seq<Outer>)
  {
    forall t | 0 <= t < |evs| && evs[t].Reaf? ::
      var b := Reassembly.Fed(RunNode(evs[..t]).buffers, evs[t].payload, evs[t].now).0;
      Expired(b, evs[t].expireNow, ENVELOPE_TIMEOUT) == b
  }

  /** Every clock reading of a stale check lies within the timeout of every arrival so far. */
  predicate WithinTimeout(evs: seq<Outer>)
  {
    forall t, u | 0 <= t <= u < |evs| && evs[t].Reaf? && evs[u].Reaf? ::
      evs[u].expireNow - evs[t].now <= ENVELOPE_TIMEOUT
  }

  /** Every buffered set was opened by an arrival of the capture. */
  ghost predicate OpenedBy(buffers: Buffers, evs: seq<Outer>)
  {
    forall k | k in buffers :: exists t :: 0 <= t < |evs| && evs[t].Reaf? && buffers[k].firstSeen == evs[t].now
  }

  lemma FedOpens(buffers: Buffers, init: seq<Outer>, ev: Outer)
    requires OpenedBy(buffers, init) && ev.Reaf?
    ensures OpenedBy(Reassembly.Fed(buffers, ev.payload, ev.now).0, init + [ev])
  {
    var evs, b := init + [ev], Reassembly.Fed(buffers, ev.payload, ev.now).0;
    forall k | k in b ensures exists t :: 0 <= t < |evs| && evs[t].Reaf? && b[k].firstSeen == evs[t].now {
      if k in buffers {
        var t :| 0 <= t < |init| && init[t].Reaf? && buffers[k].firstSeen == init[t].now;
        assert evs[t] == init[t] && b[k].firstSeen == buffers[k].firstSeen;
      } else {
        assert evs[|init|] == ev && b[k].firstSeen == ev.now;
      }
    }
  }

  lemma OpenedByMore(buffers: Buffers, fewer: Buffers, evs: seq<Outer>, ev: Outer)
    requires OpenedBy(buffers, evs) && forall k | k in fewer :: k in buffers && fewer[k] == buffers[k]
    ensures OpenedBy(fewer, evs) && OpenedBy(fewer, evs + [ev])
  {
    var all := evs + [ev];
    forall k | k in fewer ensures exists t :: 0 <= t < |all| && all[t].Reaf? && fewer[k].firstSeen == all[t].now {
      var t :| 0 <= t < |evs| && evs[t].Reaf? && buffers[k].firstSeen == evs[t].now;
      assert all[t] == evs[t];
    }
  }

  lemma {:induction false} BuffersOpened(evs: seq<Outer>)
    ensures OpenedBy(RunNode(evs).buffers, evs)
    decreases |evs|
  {
    if evs != [] {
      var init, ev := evs[..|evs| - 1], evs[|evs| - 1];
      assert evs == init + [ev];
      BuffersOpened(init);
      BuffersAfter(RunNode(init), ev);
      OpenedByMore(RunNode(init).buffers, RunNode(init).buffers, init, ev);
      if ev.Reaf? {
        var b := Reassembly.Fed(RunNode(init).buffers, ev.payload, ev.now).0;
        FedOpens(RunNode(init).buffers, init, ev);
        OpenedByMore(b, Expired(b, ev.expireNow, ENVELOPE_TIMEOUT), evs, ev);
      }
    }
  }

  /** Ten seconds are enough: a capture whose clock readings stay within the timeout drops
      no chunk set. */
  lemma WithinTimeoutKeepsAll(evs: seq<Outer>)
    requires WithinTimeout(evs)
    ensures NothingExpired(evs)
  {
    forall t | 0 <= t < |evs| && evs[t].Reaf?
      ensures var b := Reassembly.Fed(RunNode(evs[..t]).buffers, evs[t].payload, evs[t].now).0;
        Expired(b, evs[t].expireNow, ENVELOPE_TIMEOUT) == b
    {
      BuffersOpened(evs[..t]);
      FedOpens(RunNode(evs[..t]).buffers, evs[..t], evs[t]);
      assert evs[..t] + [evs[t]] == evs[..t + 1];
      NoneStale(Reassembly.Fed(RunNode(evs[..t]).buffers, evs[t].payload, evs[t].now).0, evs, t);
    }
  }

  lemma NoneStale(buffers: Buffers, evs: seq<Outer>, t: nat)
    requires WithinTimeout(evs) && t < |evs| && evs[t].Reaf? && OpenedBy(buffers, evs[..t + 1])
    ensures Expired(buffers, evs[t].expireNow, ENVELOPE_TIMEOUT) == buffers
  {
    forall k | k in buffers ensures evs[t].expireNow - buffers[k].firstSeen <= ENVELOPE_TIMEOUT {
      var u :| 0 <= u < t + 1 && evs[..t + 1][u].Reaf? && buffers[k].firstSeen == evs[..t + 1][u].now;
      assert evs[u].Reaf?;
    }
  }

  /** The id the pipeline's packet carries when packet `p` is delivered. */
  function IdOf(s: Session, p: nat): (id: Ident)
    requires p < |s.sent|
  {
    Ident(Some(KeyOf(s.sent[p]).0), Some(KeyOf(s.sent[p]).1))
  }

  /** How many packets of a stream carry the given ids. */
  function Occurs(stream: seq<Packet>, id: Ident): (n: nat)
  {
    if stream == [] then 0
    else Occurs(stream[..|stream| - 1], id) + if stream[|stream| - 1].id == id then 1 else 0
  }

  lemma OccursAppend(stream: seq<Packet>, pkt: Packet, id: Ident)
    ensures Occurs(stream + [pkt], id) == Occurs(stream, id) + if pkt.id == id then 1 else 0
  {
    assert (stream + [pkt])[..|stream|] == stream;
  }

  lemma {:induction false} OccursSomewhere(stream: seq<Packet>, id: Ident) returns (t: nat)
    requires Occurs(stream, id) > 0
    ensures t < |stream| && stream[t].id == id
    decreases |stream|
  {
    var last := |stream| - 1;
    if stream[last].id == id {
      t := last;
    } else {
      t := OccursSomewhere(stream[..last], id);
    }
  }

  lemma {:induction false} OccursOnce(stream: seq<Packet>, t: nat, u: nat)
    requires t < |stream| && u < |stream| && stream[t].id == stream[u].id
    ensures Occurs(stream, stream[t].id) >= if t == u then 1 else 2
    decreases |stream|
  {
    var last := |stream| - 1;
    if t < last && u < last {
      OccursOnce(stream[..last], t, u);
    } else if t < last {
      OccursOnce(stream[..last], t, t);
    } else if u < last {
      OccursOnce(stream[..last], u, u);
    }
  }

  /** The stream holds nothing but packets sent. */
  ghost predicate OnlySent(s: Session, stream: seq<Packet>)
  {
    forall pkt: Packet | pkt in stream :: exists p: nat :: p < |s.sent| && pkt.id == IdOf(s, p)
  }

  /** Each packet is in the stream exactly as often as it was delivered. */
  ghost predicate Streamed(s: Session, trace: seq<Event>, stream: seq<Packet>)
    requires s.Trace(trace)
  {
    forall p: nat | p < |s.sent| :: Occurs(stream, IdOf(s, p)) == s.Deliveries(trace, p)
  }

  lemma IdsDiffer(s: Session, p: nat, q: nat)
    requires s.Valid() && p < |s.sent| && q < |s.sent| && IdOf(s, p) == IdOf(s, q)
    ensures p == q
  {
    if p != q {
      s.OtherKeys(p, q);
    }
  }

  lemma NothingDelivered(s: Session, init: seq<Event>, last: Event, stream: seq<Packet>)
    requires s.Trace(init + [last]) && s.Trace(init) && last.Arrive? && s.Possible(last) && Streamed(s, init, stream)
    requires s.Step(s.Run(init), last).1 == Pending
    ensures Streamed(s, init + [last], stream)
  {
    forall p: nat | p < |s.sent|
      ensures Occurs(stream, IdOf(s, p)) == s.Deliveries(init + [last], p)
    {
      s.RunAppend(init, last, p);
    }
  }

  lemma OneDelivered(s: Session, init: seq<Event>, last: Event, stream: seq<Packet>, pkt: Packet)
    requires s.Valid() && s.Trace(init + [last]) && s.Trace(init) && last.Arrive? && s.Possible(last)
    requires Streamed(s, init, stream) && OnlySent(s, stream) && s.Step(s.Run(init), last).1.Delivered?
    requires last.p < |s.sent| && pkt.id == IdOf(s, last.p)
    ensures Streamed(s, init + [last], stream + [pkt]) && OnlySent(s, stream + [pkt])
  {
    forall p: nat | p < |s.sent|
      ensures Occurs(stream + [pkt], IdOf(s, p)) == s.Deliveries(init + [last], p)
    {
      s.RunAppend(init, last, p);
      OccursAppend(stream, pkt, IdOf(s, p));
      if IdOf(s, p) == IdOf(s, last.p) {
        IdsDiffer(s, p, last.p);
      }
    }
  }

  /** One chunk, when packets decode plainly and nothing expires: the buffers take the
      session's step, and what it delivers is appended to the stream. */
  lemma ChunkStreams(n: Node, ev: Outer) returns (pkt: Packet)
    requires !n.halted && ev.Reaf? && ev.decode.Decoded? && ev.decode.fragments.Unfragmented?
    requires var (b, out) := Reassembly.Fed(n.buffers, ev.payload, ev.now);
      !out.KeyErrorRaised? && Expired(b, ev.expireNow, ENVELOPE_TIMEOUT) == b
    ensures var (b, out) := Reassembly.Fed(n.buffers, ev.payload, ev.now); var r := OnPacket(n, ev);
      && r.buffers == b
      && match out
         case Delivered(d) =>
           pkt.id == Ident(Some(d.flowId), Some(d.packetId)) && r.core.stream == n.core.stream + [pkt]
         case _ => r.core.stream == n.core.stream
  {
    BuffersAfter(n, ev);
    PacketMovesPipeline(n, ev);
    var out := Reassembly.Fed(n.buffers, ev.payload, ev.now).1;
    if out.Delivered? {
      var step := StepOf(n, ev).value;
      ProcessInputs(n.core, step);
      pkt := step.pkt;
    } else {
      pkt := Packet(true, Ident(None, None), 0.0, 0, None, 0, map[]);
    }
  }

  lemma OtherStreams(n: Node, ev: Outer)
    requires !ev.Reaf?
    ensures var r := OnPacket(n, ev); r.buffers == n.buffers && r.core == n.core
  {
  }

  lemma SessionStep(s: Session, n: Node, ev: Outer, trace: seq<Event>, last: Event)
    requires s.Valid() && !n.halted && ev.Reaf? && ev.decode.Decoded? && ev.decode.fragments.Unfragmented?
    requires s.Trace(trace) && s.Possible(last) && last.Arrive? && last.now == ev.now
    requires ev.payload == RawChunk(s.sent[last.p], s.max, last.i)
    requires n.buffers == s.Run(trace) && s.Faithful(n.buffers)
    requires Streamed(s, trace, n.core.stream) && OnlySent(s, n.core.stream)
    requires var b := Reassembly.Fed(n.buffers, ev.payload, ev.now).0; Expired(b, ev.expireNow, ENVELOPE_TIMEOUT) == b
    ensures s.Trace(trace + [last]) && OnPacket(n, ev).buffers == s.Run(trace + [last])
    ensures Streamed(s, trace + [last], OnPacket(n, ev).core.stream) && OnlySent(s, OnPacket(n, ev).core.stream)
  {
    assert s.Trace(trace + [last]);
    s.ArriveStep(n.buffers, last.p, last.i, last.now);
    s.RunAppend(trace, last, last.p);
    var pkt := ChunkStreams(n, ev);
    if s.Step(n.buffers, last).1 == Pending {
      NothingDelivered(s, trace, last, n.core.stream);
    } else {
      OneDelivered(s, trace, last, n.core.stream, pkt);
    }
  }

  /** The assumptions on the traffic, for a capture and its prefixes. */
  ghost predicate Undamaged(s: Session, evs: seq<Outer>)
  {
    OfSession(s, evs) && Plain(evs) && NothingExpired(evs)
  }

  lemma UndamagedPrefix(s: Session, evs: seq<Outer>)
    requires Undamaged(s, evs) && evs != []
    ensures Undamaged(s, evs[..|evs| - 1])
    ensures var n, ev := RunNode(evs[..|evs| - 1]), evs[|evs| - 1];
      ev.Reaf? ==>
        && ev.decode.Decoded? && ev.decode.fragments.Unfragmented? && IsChunk(s, ev.payload)
        && var b := Reassembly.Fed(n.buffers, ev.payload, ev.now).0; Expired(b, ev.expireNow, ENVELOPE_TIMEOUT) == b
  {
    var init := evs[..|evs| - 1];
    forall t | 0 <= t < |init| ensures init[t] == evs[t] && init[..t] == evs[..t] {
    }
  }

  /** An undamaged capture runs the session: its buffers are the session's, and its stream
      holds each packet exactly as often as it was delivered, and nothing but packets sent. */
  lemma {:induction false} CaptureRunsSession(s: Session, evs: seq<Outer>)
    requires s.Valid() && Undamaged(s, evs)
    ensures RunNode(evs).buffers == s.Run(TraceOf(s, evs))
    ensures Streamed(s, TraceOf(s, evs), RunNode(evs).core.stream) && OnlySent(s, RunNode(evs).core.stream)
    decreases |evs|
  {
    if evs != [] {
      var init, ev := evs[..|evs| - 1], evs[|evs| - 1];
      UndamagedPrefix(s, evs);
      CaptureRunsSession(s, init);
      CaptureGoesOn(s, init);
      TraceStep(s, evs);
      if ev.Reaf? {
        SessionStep(s, RunNode(init), ev, TraceOf(s, init), ArrivalOf(s, ev));
      } else {
        OtherStreams(RunNode(init), ev);
      }
    }
  }

  // ------------------------------------------------- every packet is scored

  /** Every chunk of every packet reaches the capture, each once. */
  ghost predicate Complete(s: Session, evs: seq<Outer>)
    requires s.max > 0 && OfSession(s, evs)
  {
    s.Clean(TraceOf(s, evs)) && forall p | 0 <= p < |s.sent| :: s.Arrived(TraceOf(s, evs), p) == s.All(p)
  }

  /** The stream holds each packet sent exactly once, and nothing else. */
  ghost predicate Gathered(s: Session, stream: seq<Packet>)
  {
    OnlySent(s, stream) && forall p: nat | p < |s.sent| :: Occurs(stream, IdOf(s, p)) == 1
  }

  /** Nothing given up, every chunk once: the stream holds what was sent. */
  lemma SessionGathers(s: Session, evs: seq<Outer>)
    requires s.Valid() && Undamaged(s, evs) && Complete(s, evs)
    ensures Gathered(s, RunNode(evs).core.stream)
  {
    CaptureRunsSession(s, evs);
    s.DeliveredExactlyOnce(TraceOf(s, evs));
  }

  /** The numbers a flow's packets carry. */
  function Numbers(s: Session, f: nat): (ks: set<nat>)
  {
    set p | 0 <= p < |s.sent| && KeyOf(s.sent[p]).0 == f :: KeyOf(s.sent[p]).1
  }

  /** The window holds packet `k` of the flow, and no other flow. */
  ghost predicate Alone(w: Window, f: nat, k: nat)
  {
    w.FlowIds() == {f} && exists pkt :: pkt in w.packets && pkt.id == Ident(Some(f), Some(k))
  }

  ghost predicate LoggedAlone(items: seq<Item>, f: nat, k: nat)
  {
    exists i :: 0 <= i < |items| && Alone(items[i].window, f, k)
  }

  /** Numbers come with the flow they belong to. */
  predicate Paired(packets: seq<Packet>)
  {
    forall pkt | pkt in packets :: pkt.id.packetId.Some? ==> pkt.id.flowId.Some?
  }

  lemma AttributedAlone(w: Window, f: nat, k: nat)
    requires Paired(w.packets)
    ensures w.FlowId() == Some(f) && k in w.PacketIds() <==> Alone(w, f, k)
  {
    w.AttributedFlow(f);
    if w.FlowIds() == {f} && k in w.PacketIds() {
      var pkt :| pkt in w.packets && pkt.id.packetId == Some(k);
      assert pkt.id.flowId.value in w.FlowIds();
      assert pkt.id == Ident(Some(f), Some(k));
    }
  }

  /** The join sees a packet exactly if some logged window holds it and no other flow. */
  lemma SeenIsAlone(items: seq<Item>, index: JobIndex, f: nat, k: nat)
    requires f in index && forall i | 0 <= i < |items| :: Paired(items[i].window.packets)
    ensures k in Seen(index, Logged(items), f) <==> LoggedAlone(items, f, k)
  {
    var preds := Logged(items);
    SeenIff(index, preds, f, k);
    forall i | 0 <= i < |items|
      ensures preds[i].flowId == Some(f) && k in preds[i].packetIds <==> Alone(items[i].window, f, k)
    {
      AttributedAlone(items[i].window, f, k);
    }
  }

  lemma StreamPaired(s: Session, evs: seq<Outer>, o10: WindowOracle, o100: WindowOracle)
    requires OnlySent(s, RunNode(evs).core.stream)
    ensures var items := Shutdown(RunNode(evs).core, o10, o100).items;
      forall i | 0 <= i < |items| :: Paired(items[i].window.packets)
  {
    forall i | 0 <= i < |Shutdown(RunNode(evs).core, o10, o100).items|
      ensures Paired(Shutdown(RunNode(evs).core, o10, o100).items[i].window.packets)
    {
      LoggedWithinStream(evs, o10, o100, i);
    }
  }

  lemma AloneIsSent(s: Session, evs: seq<Outer>, o10: WindowOracle, o100: WindowOracle, f: nat, k: nat)
    requires OnlySent(s, RunNode(evs).core.stream)
    requires LoggedAlone(Shutdown(RunNode(evs).core, o10, o100).items, f, k)
    ensures k in Numbers(s, f)
  {
    var items := Shutdown(RunNode(evs).core, o10, o100).items;
    var i :| 0 <= i < |items| && Alone(items[i].window, f, k);
    LoggedWithinStream(evs, o10, o100, i);
    var pkt :| pkt in items[i].window.packets && pkt.id == Ident(Some(f), Some(k));
    var p: nat :| p < |s.sent| && pkt.id == IdOf(s, p);
  }

  /** For any packets sent under any flows, each chunk arriving once, in any order and
      mixture: what the join sees of a flow is exactly the numbers of its packets that lie
      in a logged window holding no other flow, and it sees all of them exactly when each
      of them does. */
  lemma SessionSeen(s: Session, evs: seq<Outer>, o10: WindowOracle, o100: WindowOracle, index: JobIndex, f: nat)
    requires s.Valid() && Undamaged(s, evs) && Complete(s, evs) && f in index
    ensures var items := Shutdown(RunNode(evs).core, o10, o100).items; var seen := Seen(index, Logged(items), f);
      && (forall k: nat :: k in seen <==> k in Numbers(s, f) && LoggedAlone(items, f, k))
      && (seen == Numbers(s, f) <==> forall k | k in Numbers(s, f) :: LoggedAlone(items, f, k))
  {
    var items := Shutdown(RunNode(evs).core, o10, o100).items;
    CaptureRunsSession(s, evs);
    StreamPaired(s, evs, o10, o100);
    forall k: nat
      ensures k in Seen(index, Logged(items), f) <==> k in Numbers(s, f) && LoggedAlone(items, f, k)
    {
      SeenIsAlone(items, index, f, k);
      if LoggedAlone(items, f, k) {
        AloneIsSent(s, evs, o10, o100, f, k);
      }
    }
  }

  /** So the recall of a flow, as it is rounded, is 100 percent exactly when at most one
      in 20000 of its packets is missing from all windows of its own. */
  lemma SessionRecall(s: Session, evs: seq<Outer>, o10: WindowOracle, o100: WindowOracle, jobs: seq<Job>, f: nat)
    requires s.Valid() && Undamaged(s, evs) && Complete(s, evs) && f in IndexOf(jobs) && Numbers(s, f) != {}
    requires IndexOf(jobs)[f].packetsRead == Some(|Numbers(s, f)|)
    ensures var items := Shutdown(RunNode(evs).core, o10, o100).items;
      var lost := set k | k in Numbers(s, f) && !LoggedAlone(items, f, k);
      RecallOf(jobs, Logged(items))[f] == Some(100.0) <==> 20000 * |lost| <= |Numbers(s, f)|
  {
    var items := Shutdown(RunNode(evs).core, o10, o100).items;
    var all, seen := Numbers(s, f), Seen(IndexOf(jobs), Logged(items), f);
    var lost := set k | k in all && !LoggedAlone(items, f, k);
    SessionSeen(s, evs, o10, o100, IndexOf(jobs), f);
    RecallByLoss(jobs, Logged(items), f, all, lost);
  }

  lemma RecallByLoss(jobs: seq<Job>, preds: seq<Prediction>, f: nat, all: set<nat>, lost: set<nat>)
    requires f in IndexOf(jobs) && all != {} && IndexOf(jobs)[f].packetsRead == Some(|all|)
    requires lost <= all && forall k: nat :: k in Seen(IndexOf(jobs), preds, f) <==> k in all && k !in lost
    ensures RecallOf(jobs, preds)[f] == Some(100.0) <==> 20000 * |lost| <= |all|
  {
    var seen := Seen(IndexOf(jobs), preds, f);
    assert seen == all - lost;
    FullRecallIff(|seen|, |all|);
    assert RecallOf(jobs, preds)[f] == RecallPct(|seen|, Some(|all|));
  }

  lemma {:induction false} InSomeWindow(ws: seq<Window>, pkt: Packet) returns (k: nat)
    requires pkt in Flatten(PacketLists(ws))
    ensures k < |ws| && pkt in ws[k].packets
    decreases |ws|
  {
    var last := |ws| - 1;
    assert PacketLists(ws)[..last] == PacketLists(ws[..last]);
    if pkt in ws[last].packets {
      k := last;
    } else {
      k := InSomeWindow(ws[..last], pkt);
    }
  }

  /** After the shutdown flush every packet of the stream is in some logged window. */
  lemma LoggedSomewhere(evs: seq<Outer>, o10: WindowOracle, o100: WindowOracle, pkt: Packet) returns (i: nat)
    requires pkt in RunNode(evs).core.stream
    ensures var items := Shutdown(RunNode(evs).core, o10, o100).items;
      i < |items| && pkt in items[i].window.packets
  {
    CaptureIsPipelineRun(evs);
    ShutdownConserves(Slots(map[]), StepsOf(evs), o10, o100);
    var r := Shutdown(RunNode(evs).core, o10, o100);
    var k := InSomeWindow(WindowsOf(r, W10), pkt);
    i := PlaceOf(r.items, W10, k);
  }

  /** All packets sent are of one flow. */
  predicate OneFlow(s: Session, f: nat)
  {
    forall p | 0 <= p < |s.sent| :: KeyOf(s.sent[p]).0 == f
  }

  lemma WindowOfFlow(s: Session, w: Window, f: nat)
    requires OneFlow(s, f) && OnlySent(s, w.packets) && w.packets != []
    ensures w.FlowIds() == {f}
  {
    assert w.packets[0] in w.packets;
  }

  lemma OneFlowAlone(s: Session, evs: seq<Outer>, o10: WindowOracle, o100: WindowOracle, f: nat, k: nat)
    requires OneFlow(s, f) && Gathered(s, RunNode(evs).core.stream) && k in Numbers(s, f)
    ensures LoggedAlone(Shutdown(RunNode(evs).core, o10, o100).items, f, k)
  {
    var items, stream := Shutdown(RunNode(evs).core, o10, o100).items, RunNode(evs).core.stream;
    var p :| 0 <= p < |s.sent| && KeyOf(s.sent[p]) == (f, k);
    var t := OccursSomewhere(stream, IdOf(s, p));
    assert stream[t] in stream;
    var i := LoggedSomewhere(evs, o10, o100, stream[t]);
    LoggedWithinStream(evs, o10, o100, i);
    WindowOfFlow(s, items[i].window, f);
    assert Alone(items[i].window, f, k);
  }

  lemma NumbersOfReplay(p: Replay.Plan, read: nat, timeout: real)
    requires 0 < p.max && read <= |p.frames| && read <= U32 && 0 <= p.flowId < U32
    ensures var s := SessionOf(p, read, timeout);
      OneFlow(s, p.flowId) && Numbers(s, p.flowId) == Below(read)
  {
    var s := SessionOf(p, read, timeout);
    forall k | 0 <= k < read ensures KeyOf(s.sent[k]) == (p.flowId, k) {
      KeyFits(s.sent[k]);
    }
    NumberedInOrder(s, p.flowId);
  }

  lemma KeyFits(o: Original)
    requires 0 <= o.flowId < U32 && 0 <= o.packetId < U32
    ensures KeyOf(o) == (o.flowId, o.packetId)
  {
  }

  lemma NumberedInOrder(s: Session, f: nat)
    requires forall k | 0 <= k < |s.sent| :: KeyOf(s.sent[k]) == (f, k)
    ensures OneFlow(s, f) && Numbers(s, f) == Below(|s.sent|)
  {
    forall k: nat | k < |s.sent| ensures k in Numbers(s, f) {
      assert KeyOf(s.sent[k]).0 == f;
    }
  }

  /** A capture that carries one replay and no other: if each chunk reaches it once, in any
      order and mixed with traffic that is not chunks, no chunk set goes stale and every
      packet decodes to an unfragmented IP packet, then after the shutdown flush the join
      has seen exactly the packets read, and the recall of the flow is 100 percent. */
  lemma LosslessRecall(p: Replay.Plan, world: Replay.World, read: nat, timeout: real, evs: seq<Outer>,
                       o10: WindowOracle, o100: WindowOracle, jobs: seq<Job>)
    requires 0 < read <= |p.frames| && read <= U32 && 0 <= p.flowId < U32 && p.max > 0 && Replay.Reads(p, world, read)
    requires var s := SessionOf(p, read, timeout);
      Undamaged(s, evs) && Complete(s, evs)
    requires p.flowId in IndexOf(jobs)
    ensures var preds := Logged(Shutdown(RunNode(evs).core, o10, o100).items);
      && Seen(IndexOf(jobs), preds, p.flowId) == Below(read)
      && (IndexOf(jobs)[p.flowId].packetsRead == Some(read) ==> RecallOf(jobs, preds)[p.flowId] == Some(100.0))
  {
    var s, items := SessionOf(p, read, timeout), Shutdown(RunNode(evs).core, o10, o100).items;
    ReplayIsSession(p, world, read, timeout);
    NumbersOfReplay(p, read, timeout);
    SessionGathers(s, evs);
    SessionSeen(s, evs, o10, o100, IndexOf(jobs), p.flowId);
    forall k | k in Numbers(s, p.flowId) ensures LoggedAlone(items, p.flowId, k) {
      OneFlowAlone(s, evs, o10, o100, p.flowId, k);
    }
    if IndexOf(jobs)[p.flowId].packetsRead == Some(read) {
      FullRecallIff(read, read);
      assert RecallOf(jobs, Logged(items))[p.flowId] == RecallPct(read, Some(read));
    }
  }
}
