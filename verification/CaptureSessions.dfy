/** What a capture makes of the chunks of given packets: when the capture loop can be
    stopped by a set of chunks that does not join, and what is delivered otherwise. */
module CaptureSessions {
  import opened Prelude
  import opened Wire
  import opened Reassembly
  import opened FlowBuilder
  import opened ModelEngine
  import opened Pipeline
  import opened Capture

  /** A payload is chunk `i` of packet `p`. */
  ghost predicate ChunkAt(s: Session, payload: seq<byte>, p: nat, i: nat)
  {
    s.max > 0 && p < |s.sent| && i < |s.Parts(p)| && payload == RawChunk(s.sent[p], s.max, i)
  }

  ghost predicate IsChunk(s: Session, payload: seq<byte>)
  {
    exists p: nat, i: nat :: ChunkAt(s, payload, p, i)
  }

  /** Every chunk that reaches the capture is one of the session's, in any order, number
      and mixture; the decoder, the clocks and all other traffic are arbitrary. */
  ghost predicate OfSession(s: Session, evs: seq<Outer>)
  {
    forall t | 0 <= t < |evs| && evs[t].Reaf? :: IsChunk(s, evs[t].payload)
  }

  /** What one carrier packet does to the chunk buffers. */
  lemma BuffersAfter(n: Node, ev: Outer)
    ensures var r := OnPacket(n, ev);
      if n.halted || !ev.Reaf? then r.buffers == n.buffers && r.halted == n.halted
      else
        var (b, out) := Reassembly.Fed(n.buffers, ev.payload, ev.now);
        && r.halted == out.KeyErrorRaised?
        && (r.buffers == b || r.buffers == Expired(b, ev.expireNow, ENVELOPE_TIMEOUT))
  {
    if !n.halted && ev.Reaf? {
      var n1 := Bump(n, UdpChunks, None);
      var (b, out) := Reassembly.Fed(n1.buffers, ev.payload, ev.now);
      match out
      case Pending =>
      case KeyErrorRaised =>
      case Delivered(d) =>
        EnvelopeBuffers(n1.(buffers := b), d, ev.decode, ev.expireNow);
        assert OnPacket(n, ev) == OnEnvelope(n1.(buffers := b), d, ev.decode, ev.expireNow);
    }
  }

  lemma EnvelopeBuffers(n: Node, d: Delivery, decode: Decode, expireNow: real)
    ensures var r := OnEnvelope(n, d, decode, expireNow);
      r.halted == n.halted && (r.buffers == n.buffers || r.buffers == Expired(n.buffers, expireNow, ENVELOPE_TIMEOUT))
  {
  }

  // --------------------------------------------------- packets under distinct keys

  lemma ExpiredFaithful(s: Session, buffers: Buffers, now: real, timeout: real)
    requires s.max > 0 && s.Faithful(buffers)
    ensures s.Faithful(Expired(buffers, now, timeout))
  {
  }

  lemma ChunkOutcome(s: Session, buffers: Buffers, payload: seq<byte>, now: real) returns (p: nat)
    requires s.Valid() && s.Faithful(buffers) && IsChunk(s, payload)
    ensures p < |s.sent| && exists i: nat :: ChunkAt(s, payload, p, i)
    ensures var (b, out) := Reassembly.Fed(buffers, payload, now);
      s.Faithful(b) && (out == Pending || out == Delivered(s.Intact(p)))
  {
    var q, i: nat :| ChunkAt(s, payload, q, i);
    p := q;
    s.ArriveStep(buffers, p, i, now);
  }

  /** Packets that fit the format and share no key never stop the capture, however their
      chunks are lost, repeated, reordered and mixed with other traffic; and what is
      buffered is always part of what was sent. */
  lemma {:induction false} CaptureGoesOn(s: Session, evs: seq<Outer>)
    requires s.Valid() && OfSession(s, evs)
    ensures !RunNode(evs).halted && s.Faithful(RunNode(evs).buffers)
    decreases |evs|
  {
    if evs != [] {
      var init, ev := evs[..|evs| - 1], evs[|evs| - 1];
      assert forall t | 0 <= t < |init| :: init[t] == evs[t];
      CaptureGoesOn(s, init);
      BuffersAfter(RunNode(init), ev);
      if ev.Reaf? {
        var p := ChunkOutcome(s, RunNode(init).buffers, ev.payload, ev.now);
        ExpiredFaithful(s, Reassembly.Fed(RunNode(init).buffers, ev.payload, ev.now).0, ev.expireNow, ENVELOPE_TIMEOUT);
      }
    }
  }

  /** Whatever comes out of reassembly in such a capture is a packet exactly as it was
      sent, on the arrival of one of its own chunks. */
  lemma CaptureDeliversIntact(s: Session, evs: seq<Outer>, t: nat) returns (p: nat)
    requires s.Valid() && OfSession(s, evs) && t < |evs| && evs[t].Reaf?
    ensures p < |s.sent| && exists i: nat :: ChunkAt(s, evs[t].payload, p, i)
    ensures var out := Reassembly.Fed(RunNode(evs[..t]).buffers, evs[t].payload, evs[t].now).1;
      out == Pending || out == Delivered(s.Intact(p))
  {
    assert forall u | 0 <= u < t :: evs[..t][u] == evs[u];
    CaptureGoesOn(s, evs[..t]);
    p := ChunkOutcome(s, RunNode(evs[..t]).buffers, evs[t].payload, evs[t].now);
  }

  // --------------------------------------------------- packets under any keys

  ghost predicate AllSendable(s: Session)
  {
    s.max > 0 && forall p | 0 <= p < |s.sent| :: Sendable(s.sent[p], s.max)
  }

  /** Two packets that are cut into several chunks and share a key are cut into equally
      many. */
  ghost predicate EqualCounts(s: Session)
    requires s.max > 0
  {
    forall p, q | 0 <= p < |s.sent| && 0 <= q < |s.sent| && KeyOf(s.sent[p]) == KeyOf(s.sent[q])
                  && |s.Parts(p)| > 1 && |s.Parts(q)| > 1 :: |s.Parts(p)| == |s.Parts(q)|
  }

  /** Every buffered set expects the number of chunks all packets of its key have, and
      holds only some of their indices. */
  ghost predicate Joinable(s: Session, buffers: Buffers)
    requires s.max > 0
  {
    && (forall k | k in buffers :: buffers[k].chunks.Keys <= Below(buffers[k].count))
    && forall p | 0 <= p < |s.sent| && KeyOf(s.sent[p]) in buffers && |s.Parts(p)| > 1 ::
         buffers[KeyOf(s.sent[p])].count == |s.Parts(p)|
  }

  lemma EnvelopeJoins(s: Session, buffers: Buffers, e: Envelope, p: nat, now: real)
    requires s.max > 0 && EqualCounts(s) && Joinable(s, buffers) && p < |s.sent|
    requires (e.flowId, e.packetId) == KeyOf(s.sent[p]) && e.chunkIndex < e.chunkCount == |s.Parts(p)|
    ensures var (b, out) := FedEnvelope(buffers, e, now); Joinable(s, b) && !out.KeyErrorRaised?
  {
    if e.chunkCount > 1 {
      var entry := Stored(buffers, e, now);
      assert entry.count == e.chunkCount;
      assert entry.chunks.Keys <= Below(entry.count);
      CountChunks(entry.chunks, entry.count);
    }
  }

  lemma ChunkJoins(s: Session, buffers: Buffers, p: nat, i: nat, now: real)
    requires AllSendable(s) && EqualCounts(s) && Joinable(s, buffers)
    requires p < |s.sent| && i < |s.Parts(p)|
    ensures var (b, out) := Reassembly.Fed(buffers, RawChunk(s.sent[p], s.max, i), now);
      Joinable(s, b) && !out.KeyErrorRaised?
  {
    ParseRawChunk(s.sent[p], s.max, i);
    EnvelopeJoins(s, buffers, ChunkOf(s.sent[p], s.max, i), p, now);
  }

  lemma {:induction false} EqualCountsGoOn(s: Session, evs: seq<Outer>)
    requires AllSendable(s) && EqualCounts(s) && OfSession(s, evs)
    ensures !RunNode(evs).halted && Joinable(s, RunNode(evs).buffers)
    decreases |evs|
  {
    if evs != [] {
      var init, ev := evs[..|evs| - 1], evs[|evs| - 1];
      assert forall t | 0 <= t < |init| :: init[t] == evs[t];
      EqualCountsGoOn(s, init);
      BuffersAfter(RunNode(init), ev);
      if ev.Reaf? {
        var p, i: nat :| ChunkAt(s, ev.payload, p, i);
        ChunkJoins(s, RunNode(init).buffers, p, i, ev.now);
      }
    }
  }

  /** The first `m` chunks of packet `p`, arriving in order. */
  function FirstOf(s: Session, p: nat, m: nat): (evs: seq<Outer>)
    requires s.max > 0 && p < |s.sent| && m <= |s.Parts(p)|
    ensures |evs| == m
  {
    seq(m, i requires 0 <= i < m => Reaf(RawChunk(s.sent[p], s.max, i), 0.0, Undecodable, 0.0))
  }

  lemma {:induction false} FirstPend(s: Session, p: nat, m: nat)
    requires AllSendable(s) && p < |s.sent| && 0 < m < |s.Parts(p)|
    ensures var n, key := RunNode(FirstOf(s, p, m)), KeyOf(s.sent[p]);
      && !n.halted && key in n.buffers && n.buffers[key].count == |s.Parts(p)|
      && n.buffers[key].chunks.Keys == Below(m)
    decreases m
  {
    var evs, e := FirstOf(s, p, m), ChunkOf(s.sent[p], s.max, m - 1);
    assert evs[..m - 1] == FirstOf(s, p, m - 1);
    ParseRawChunk(s.sent[p], s.max, m - 1);
    if m > 1 {
      FirstPend(s, p, m - 1);
    } else {
      assert RunNode(evs[..0]) == StartNode();
    }
    var n := RunNode(evs[..m - 1]);
    OneMorePends(n.buffers, e, m - 1, 0.0);
    PendingPacket(n, evs[m - 1]);
  }

  lemma OneMorePends(buffers: Buffers, e: Envelope, m: nat, now: real)
    requires e.chunkCount > m + 1 && e.chunkIndex == m
    requires var key := (e.flowId, e.packetId);
      if m == 0 then key !in buffers
      else key in buffers && buffers[key].count == e.chunkCount && buffers[key].chunks.Keys == Below(m)
    ensures var (b, out) := FedEnvelope(buffers, e, now); var key := (e.flowId, e.packetId);
      out == Pending && key in b && b[key].count == e.chunkCount && b[key].chunks.Keys == Below(m + 1)
  {
    var entry := Stored(buffers, e, now);
    NextIndex(entry.chunks.Keys, m);
    assert |entry.chunks| == |entry.chunks.Keys|;
  }

  lemma NextIndex(keys: set<nat>, m: nat)
    requires keys == (if m == 0 then {} else Below(m)) + {m}
    ensures keys == Below(m + 1)
  {
  }

  lemma PendingPacket(n: Node, ev: Outer)
    requires !n.halted && ev.Reaf? && Reassembly.Fed(n.buffers, ev.payload, ev.now).1 == Pending
    ensures var r := OnPacket(n, ev);
      !r.halted && r.buffers == Reassembly.Fed(n.buffers, ev.payload, ev.now).0
  {
  }

  lemma RaisingPacket(n: Node, ev: Outer)
    requires !n.halted && ev.Reaf? && Reassembly.Fed(n.buffers, ev.payload, ev.now).1 == KeyErrorRaised
    ensures OnPacket(n, ev).halted
  {
  }

  lemma LateIndexRaises(buffers: Buffers, e: Envelope, count: nat, now: real)
    requires 1 < count == e.chunkIndex < e.chunkCount
    requires var key := (e.flowId, e.packetId);
      key in buffers && buffers[key].count == count && buffers[key].chunks.Keys == Below(count - 1)
    ensures FedEnvelope(buffers, e, now).1 == KeyErrorRaised
  {
    var entry := Stored(buffers, e, now);
    assert entry.chunks.Keys == Below(count - 1) + {count};
    assert |entry.chunks| == |entry.chunks.Keys| == count;
    assert count - 1 in Below(count) && count - 1 !in entry.chunks.Keys;
  }

  /** All chunks of one packet but the last, then a chunk beyond its count of a longer
      packet under the same key. */
  function HaltingRun(s: Session, p: nat, q: nat): (evs: seq<Outer>)
    requires s.max > 0 && p < |s.sent| && q < |s.sent| && 1 < |s.Parts(p)| < |s.Parts(q)|
    ensures |evs| == |s.Parts(p)|
  {
    var n := |s.Parts(p)|;
    FirstOf(s, p, n - 1) + [Reaf(RawChunk(s.sent[q], s.max, n), 0.0, Undecodable, 0.0)]
  }

  lemma HaltingRunIsOfSession(s: Session, p: nat, q: nat)
    requires s.max > 0 && p < |s.sent| && q < |s.sent| && 1 < |s.Parts(p)| < |s.Parts(q)|
    ensures OfSession(s, HaltingRun(s, p, q))
  {
    var n := |s.Parts(p)|;
    FirstAreChunks(s, p, n - 1);
    assert ChunkAt(s, HaltingRun(s, p, q)[n - 1].payload, q, n);
  }

  lemma UnequalCountsHalt(s: Session, p: nat, q: nat)
    requires AllSendable(s) && p < |s.sent| && q < |s.sent| && KeyOf(s.sent[p]) == KeyOf(s.sent[q])
    requires 1 < |s.Parts(p)| < |s.Parts(q)|
    ensures RunNode(HaltingRun(s, p, q)).halted
  {
    var n, evs := |s.Parts(p)|, HaltingRun(s, p, q);
    var before := FirstOf(s, p, n - 1);
    assert evs[..|evs| - 1] == before;
    FirstPend(s, p, n - 1);
    LateChunkRaises(s, RunNode(before), q, n, evs[n - 1]);
  }

  lemma LateChunkRaises(s: Session, n: Node, q: nat, count: nat, ev: Outer)
    requires AllSendable(s) && q < |s.sent| && 1 < count < |s.Parts(q)| && !n.halted
    requires ev.Reaf? && ev.payload == RawChunk(s.sent[q], s.max, count)
    requires var key := KeyOf(s.sent[q]);
      key in n.buffers && n.buffers[key].count == count && n.buffers[key].chunks.Keys == Below(count - 1)
    ensures OnPacket(n, ev).halted
  {
    ParseRawChunk(s.sent[q], s.max, count);
    LateIndexRaises(n.buffers, ChunkOf(s.sent[q], s.max, count), count, ev.now);
    RaisingPacket(n, ev);
  }

  lemma FirstAreChunks(s: Session, p: nat, m: nat)
    requires s.max > 0 && p < |s.sent| && m <= |s.Parts(p)|
    ensures OfSession(s, FirstOf(s, p, m))
  {
    var evs := FirstOf(s, p, m);
    forall t | 0 <= t < m ensures IsChunk(s, evs[t].payload) {
      assert ChunkAt(s, evs[t].payload, p, t);
    }
  }

  /** Whatever is sent, no capture of its chunks stops the loop exactly when packets of one
      key that take several chunks take equally many. */
  lemma NeverHaltsIff(s: Session)
    requires AllSendable(s)
    ensures (forall evs | OfSession(s, evs) :: !RunNode(evs).halted) <==> EqualCounts(s)
  {
    if EqualCounts(s) {
      forall evs | OfSession(s, evs) ensures !RunNode(evs).halted {
        EqualCountsGoOn(s, evs);
      }
    } else {
      var p, q :| 0 <= p < |s.sent| && 0 <= q < |s.sent| && KeyOf(s.sent[p]) == KeyOf(s.sent[q])
                  && |s.Parts(p)| > 1 && |s.Parts(q)| > 1 && |s.Parts(p)| != |s.Parts(q)|;
      var (few, many) := if |s.Parts(p)| < |s.Parts(q)| then (p, q) else (q, p);
      UnequalCountsHalt(s, few, many);
      HaltingRunIsOfSession(s, few, many);
    }
  }

  lemma {:induction false} ByteByByte(payload: seq<byte>)
    ensures |Slices(payload, 1)| == |payload|
    decreases |payload|
  {
    if |payload| > 1 {
      ByteByByte(payload[1..]);
    }
  }

  /** Two packets of one flow id and number, of two and of three bytes, sent a byte a
      chunk: the first chunk of one and the last of the other stop the capture. */
  lemma TwoContentsHalt() returns (s: Session, evs: seq<Outer>)
    ensures AllSendable(s) && |s.sent| == 2 && KeyOf(s.sent[0]) == KeyOf(s.sent[1])
    ensures OfSession(s, evs) && |evs| == 2 && RunNode(evs).halted
  {
    var two, three: seq<byte> := [1, 2], [1, 2, 3];
    s := Session([Original(0, 0, 0, 1, two), Original(0, 0, 0, 1, three)], 1, 10.0);
    ByteByByte(two);
    ByteByByte(three);
    forall p | 0 <= p < |s.sent| ensures Sendable(s.sent[p], s.max) {
      ChunkPayloadsCover(s.sent[p].payload, 1);
      ByteByByte(s.sent[p].payload);
    }
    evs := HaltingRun(s, 0, 1);
    UnequalCountsHalt(s, 0, 1);
    HaltingRunIsOfSession(s, 0, 1);
  }

  // --------------------------------------------------- mixtures under one key

  /** All chunks of one packet but the last, and the last of another under the same key. */
  function MixedRun(s: Session, p: nat, q: nat): (evs: seq<Outer>)
    requires s.max > 0 && p < |s.sent| && q < |s.sent| && 1 < |s.Parts(p)| == |s.Parts(q)|
    ensures |evs| == |s.Parts(p)|
  {
    var n := |s.Parts(p)|;
    FirstOf(s, p, n - 1) + [Reaf(RawChunk(s.sent[q], s.max, n - 1), 0.0, Undecodable, 0.0)]
  }

  /** Timestamp and link type of the one packet, payload of both. */
  function Mixture(s: Session, p: nat, q: nat): (d: Delivery)
    requires s.max > 0 && p < |s.sent| && q < |s.sent| && 1 < |s.Parts(p)| == |s.Parts(q)|
  {
    var n := |s.Parts(p)|;
    s.Intact(p).(payload := Flatten(s.Parts(p)[..n - 1]) + s.Parts(q)[n - 1])
  }

  lemma FirstHeld(s: Session, p: nat, m: nat)
    requires AllSendable(s) && p < |s.sent| && 0 < m < |s.Parts(p)|
    ensures var n, key := RunNode(FirstOf(s, p, m)), KeyOf(s.sent[p]);
      && key in n.buffers && n.buffers[key].chunks.Keys == Below(m)
      && PartOf(n.buffers[key], s.sent[p].timestamp, s.sent[p].linktype % U16, s.Parts(p))
  {
    var alone := Session([s.sent[p]], s.max, s.timeout);
    FirstPend(s, p, m);
    assert FirstOf(alone, 0, m) == FirstOf(s, p, m);
    FirstAreChunks(alone, 0, m);
    CaptureGoesOn(alone, FirstOf(alone, 0, m));
    assert KeyOf(alone.sent[0]) in RunNode(FirstOf(s, p, m)).buffers;
  }

  lemma LastOfOther(buffers: Buffers, e: Envelope, timestamp: nat, linktype: nat, parts: seq<seq<byte>>, now: real)
    requires 1 < |parts| == e.chunkCount && e.chunkIndex == |parts| - 1
    requires var key := (e.flowId, e.packetId);
      key in buffers && PartOf(buffers[key], timestamp, linktype, parts)
      && buffers[key].chunks.Keys == Below(|parts| - 1)
    ensures FedEnvelope(buffers, e, now).1
         == Delivered(Delivery(e.flowId, e.packetId, timestamp, linktype,
                               Flatten(parts[..|parts| - 1]) + e.payload))
  {
    var n, entry := |parts|, Stored(buffers, e, now);
    NextIndex(entry.chunks.Keys, n - 1);
    JoinIsPrefix(entry.chunks, parts, n - 1);
    FullSetComesOut(buffers, e, now);
  }

  lemma FullSetComesOut(buffers: Buffers, e: Envelope, now: real)
    requires var entry := Stored(buffers, e, now);
      1 < e.chunkCount == entry.count && entry.chunks.Keys == Below(entry.count)
    ensures var entry := Stored(buffers, e, now);
      FedEnvelope(buffers, e, now).1
      == Delivered(Delivery(e.flowId, e.packetId, entry.timestamp, entry.linktype,
                            JoinChunks(entry.chunks, entry.count)))
  {
    CountChunks(Stored(buffers, e, now).chunks, Stored(buffers, e, now).count);
  }

  /** When two packets under one key take equally many chunks, several each, the capture
      does not stop; it takes out of reassembly a packet made of both. */
  lemma MixtureDelivered(s: Session, p: nat, q: nat)
    requires AllSendable(s) && p < |s.sent| && q < |s.sent| && KeyOf(s.sent[p]) == KeyOf(s.sent[q])
    requires 1 < |s.Parts(p)| == |s.Parts(q)|
    ensures var n, evs := |s.Parts(p)|, MixedRun(s, p, q);
      && OfSession(s, evs)
      && Reassembly.Fed(RunNode(evs[..n - 1]).buffers, evs[n - 1].payload, evs[n - 1].now).1
         == Delivered(Mixture(s, p, q))
  {
    var n, evs := |s.Parts(p)|, MixedRun(s, p, q);
    FirstAreChunks(s, p, n - 1);
    assert ChunkAt(s, evs[n - 1].payload, q, n - 1);
    assert evs[..n - 1] == FirstOf(s, p, n - 1);
    FirstHeld(s, p, n - 1);
    LastChunkJoins(s, RunNode(evs[..n - 1]).buffers, p, q, evs[n - 1].now);
  }

  lemma LastChunkJoins(s: Session, buffers: Buffers, p: nat, q: nat, now: real)
    requires AllSendable(s) && p < |s.sent| && q < |s.sent| && KeyOf(s.sent[p]) == KeyOf(s.sent[q])
    requires 1 < |s.Parts(p)| == |s.Parts(q)|
    requires var key := KeyOf(s.sent[p]);
      && key in buffers && buffers[key].chunks.Keys == Below(|s.Parts(p)| - 1)
      && PartOf(buffers[key], s.sent[p].timestamp, s.sent[p].linktype % U16, s.Parts(p))
    ensures Reassembly.Fed(buffers, RawChunk(s.sent[q], s.max, |s.Parts(q)| - 1), now).1 == Delivered(Mixture(s, p, q))
  {
    var n := |s.Parts(q)|;
    ParseRawChunk(s.sent[q], s.max, n - 1);
    LastOfOther(buffers, ChunkOf(s.sent[q], s.max, n - 1), s.sent[p].timestamp, s.sent[p].linktype % U16, s.Parts(p),
                now);
  }

  lemma TwoBytes(o: Original)
    requires |o.payload| == 2
    ensures ChunkPayloads(o.payload, 1) == [[o.payload[0]], [o.payload[1]]] && Sendable(o, 1)
  {
    var rest := o.payload[1..];
    assert o.payload[..1] == [o.payload[0]] && rest == [o.payload[1]];
    assert Slices(rest, 1) == [rest];
  }

  lemma JoinOne(part: seq<byte>)
    ensures Flatten([part]) == part
  {
    assert [part] == [] + [part];
    FlattenAppend([], part);
  }

  /** Two packets of two bytes under one key, a byte a chunk and different in both: no
      capture of their chunks stops, and what `MixedRun` delivers is neither of them. */
  lemma MixtureIsNotSent(a: Original, b: Original, timeout: real)
    requires |a.payload| == 2 == |b.payload| && KeyOf(a) == KeyOf(b)
    requires a.payload[0] != b.payload[0] && a.payload[1] != b.payload[1]
    ensures var s := Session([a, b], 1, timeout);
      && AllSendable(s) && EqualCounts(s) && |s.Parts(0)| == 2 == |s.Parts(1)|
      && Mixture(s, 0, 1).payload == [a.payload[0], b.payload[1]]
      && Mixture(s, 0, 1) != s.Intact(0) && Mixture(s, 0, 1) != s.Intact(1)
  {
    var s := Session([a, b], 1, timeout);
    TwoBytes(a);
    TwoBytes(b);
    JoinOne([a.payload[0]]);
    assert s.Parts(0)[..1] == [[a.payload[0]]];
  }
}
