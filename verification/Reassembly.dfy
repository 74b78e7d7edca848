/** `EnvelopeReassembler` of `envelope_ressemble.py`, and what the chunk protocol
    delivers over any run of arrivals and expiries. */
module Reassembly {
  import opened Prelude
  import opened Wire

  type Key = (nat, nat)

  datatype Entry = Entry(chunks: map<nat, seq<byte>>, count: nat, firstSeen: real, timestamp: nat, linktype: nat)

  type Buffers = map<Key, Entry>

  datatype Delivery = Delivery(flowId: nat, packetId: nat, timestamp: nat, linktype: nat, payload: seq<byte>)

  /** `KeyErrorRaised`: enough chunks are buffered but an index below the count is
      missing, so joining them raises. */
  datatype Outcome = Pending | Delivered(d: Delivery) | KeyErrorRaised

  // --------------------------------------------------------- specification

  /** The first `n` chunks joined in index order. */
  function JoinChunks(chunks: map<nat, seq<byte>>, n: nat): (r: seq<byte>)
    requires forall i: nat | i < n :: i in chunks
  {
    if n == 0 then [] else JoinChunks(chunks, n - 1) + chunks[n - 1]
  }

  /** The buffer entry after one chunk of a multi-chunk packet is stored. */
  function Stored(buffers: Buffers, e: Envelope, now: real): (entry: Entry)
  {
    var key := (e.flowId, e.packetId);
    var entry := if key in buffers then buffers[key]
                 else Entry(map[], e.chunkCount, now, e.timestamp, e.linktype);
    entry.(chunks := entry.chunks[e.chunkIndex := e.payload])
  }

  function Fed(buffers: Buffers, raw: seq<byte>, now: real): (r: (Buffers, Outcome))
  {
    match ParseEnvelopeChunk(raw)
    case None => (buffers, Pending)
    case Some(e) => FedEnvelope(buffers, e, now)
  }

  function FedEnvelope(buffers: Buffers, e: Envelope, now: real): (r: (Buffers, Outcome))
  {
    var key := (e.flowId, e.packetId);
    if e.chunkCount == 1 then
      (buffers - {key}, Delivered(Delivery(e.flowId, e.packetId, e.timestamp, e.linktype, e.payload)))
    else
      var entry := Stored(buffers, e, now);
      if |entry.chunks| < entry.count then (buffers[key := entry], Pending)
      else if Below(entry.count) <= entry.chunks.Keys then
        (buffers - {key}, Delivered(Delivery(e.flowId, e.packetId, entry.timestamp, entry.linktype,
                                             JoinChunks(entry.chunks, entry.count))))
      else (buffers - {key}, KeyErrorRaised)
  }

  function Expired(buffers: Buffers, now: real, timeout: real): (r: Buffers)
  {
    map k | k in buffers && !(now - buffers[k].firstSeen > timeout) :: buffers[k]
  }

  class EnvelopeReassembler {
    var buffers: Buffers
    const timeout: real

    constructor (timeout: real)
      ensures buffers == map[] && this.timeout == timeout
    {
      buffers := map[];
      this.timeout := timeout;
    }

    method Feed(raw: seq<byte>, now: real) returns (out: Outcome)
      modifies this
      ensures (buffers, out) == Fed(old(buffers), raw, now)
    {
      var parsed := ParseEnvelopeChunk(raw);
      if parsed.None? {
        return Pending;
      }
      var e := parsed.value;
      if e.chunkCount == 1 {
        buffers := buffers - {(e.flowId, e.packetId)};
        return Delivered(Delivery(e.flowId, e.packetId, e.timestamp, e.linktype, e.payload));
      }
      out := FeedMulti(e, now);
    }

    method FeedMulti(e: Envelope, now: real) returns (out: Outcome)
      requires e.chunkCount != 1
      modifies this
      ensures (buffers, out) == FedEnvelope(old(buffers), e, now)
    {
      ghost var was := buffers;
      var key := (e.flowId, e.packetId);
      var entry := Stored(buffers, e, now); // setdefault, then the chunk is put in place
      buffers := buffers[key := entry];
      if |entry.chunks| < entry.count {
        return Pending;
      }
      buffers := buffers - {key};
      assert buffers == was - {key};
      if !(Below(entry.count) <= entry.chunks.Keys) {
        return KeyErrorRaised;
      }
      return Delivered(Delivery(e.flowId, e.packetId, entry.timestamp, entry.linktype,
                                JoinChunks(entry.chunks, entry.count)));
    }

    method ExpireStale(now: real)
      modifies this
      ensures buffers == Expired(old(buffers), now, timeout)
    {
      var keys := buffers.Keys;
      while keys != {}
        invariant keys <= buffers.Keys <= old(buffers).Keys
        invariant forall k | k in buffers :: buffers[k] == old(buffers)[k]
        invariant forall k | k in keys :: k in buffers
        invariant forall k | k in old(buffers) && k !in keys ::
                    k in buffers <==> !(now - old(buffers)[k].firstSeen > timeout)
        decreases |keys|
      {
        var key :| key in keys;
        keys := keys - {key};
        if now - buffers[key].firstSeen > timeout {
          buffers := buffers - {key};
        }
      }
    }
  }

  // ------------------------------------------------------------ one packet

  /** The chunk indices held under a key. */
  function HeldAt(buffers: Buffers, key: Key): (s: set<nat>)
  {
    if key in buffers then buffers[key].chunks.Keys else {}
  }

  /** A buffered entry holds some but not all of the given parts, unaltered. */
  ghost predicate PartOf(entry: Entry, timestamp: nat, linktype: nat, parts: seq<seq<byte>>)
  {
    && entry.count == |parts| && entry.timestamp == timestamp && entry.linktype == linktype
    && entry.chunks.Keys <= Below(|parts|) && |entry.chunks| < |parts|
    && forall i | i in entry.chunks :: i < |parts| && entry.chunks[i] == parts[i]
  }

  lemma {:induction false} JoinIsPrefix(chunks: map<nat, seq<byte>>, parts: seq<seq<byte>>, n: nat)
    requires n <= |parts| && forall i: nat | i < n :: i in chunks && chunks[i] == parts[i]
    ensures JoinChunks(chunks, n) == Flatten(parts[..n])
    decreases n
  {
    if n > 0 {
      JoinIsPrefix(chunks, parts, n - 1);
      FlattenPrefix(parts, n);
    }
  }

  /** What feeding one chunk of a packet with these parts does: completed sets come
      out joined, other sets grow by the chunk. */
  ghost predicate FeedEffect(buffers: Buffers, e: Envelope, parts: seq<seq<byte>>, b': Buffers, out: Outcome)
  {
    var key := (e.flowId, e.packetId);
    if HeldAt(buffers, key) + {e.chunkIndex} == Below(|parts|) then
      out == Delivered(Delivery(e.flowId, e.packetId, e.timestamp, e.linktype, Flatten(parts))) && b' == buffers - {key}
    else
      && out == Pending && key in b' && b' == buffers[key := b'[key]]
      && PartOf(b'[key], e.timestamp, e.linktype, parts)
      && b'[key].chunks.Keys == HeldAt(buffers, key) + {e.chunkIndex}
  }

  /** The chunk belongs to a packet with these parts, and what is already buffered
      for that packet is part of it. */
  ghost predicate Fitting(buffers: Buffers, e: Envelope, parts: seq<seq<byte>>)
  {
    && e.chunkIndex < |parts| == e.chunkCount && e.payload == parts[e.chunkIndex]
    && var key := (e.flowId, e.packetId);
       key in buffers ==> PartOf(buffers[key], e.timestamp, e.linktype, parts)
  }

  lemma CountChunks(chunks: map<nat, seq<byte>>, n: nat)
    requires chunks.Keys <= Below(n)
    ensures |chunks| == |chunks.Keys| <= n && (|chunks| == n <==> chunks.Keys == Below(n))
  {
    SubsetSize(chunks.Keys, Below(n));
  }

  lemma StoredPart(buffers: Buffers, e: Envelope, parts: seq<seq<byte>>, now: real)
    requires Fitting(buffers, e, parts)
    ensures var entry := Stored(buffers, e, now);
      && entry.chunks.Keys == HeldAt(buffers, (e.flowId, e.packetId)) + {e.chunkIndex} <= Below(|parts|)
      && entry.count == |parts| && entry.timestamp == e.timestamp && entry.linktype == e.linktype
      && (forall i | i in entry.chunks :: i < |parts| && entry.chunks[i] == parts[i])
      && |entry.chunks| == |entry.chunks.Keys| <= |parts|
      && (|entry.chunks| == |parts| <==> entry.chunks.Keys == Below(|parts|))
  {
    var entry, held := Stored(buffers, e, now), HeldAt(buffers, (e.flowId, e.packetId));
    assert entry.chunks.Keys == held + {e.chunkIndex};
    CountChunks(entry.chunks, |parts|);
  }

  lemma FeedSingle(buffers: Buffers, e: Envelope, parts: seq<seq<byte>>, now: real)
    requires Fitting(buffers, e, parts) && |parts| == 1
    ensures var (b', out) := FedEnvelope(buffers, e, now); FeedEffect(buffers, e, parts, b', out)
  {
    var key := (e.flowId, e.packetId);
    StoredPart(buffers, e, parts, now);
    SubsetSize({0}, Below(1));
    assert HeldAt(buffers, key) + {e.chunkIndex} == Below(1);
    assert parts == [] + [parts[0]];
    FlattenAppend([], parts[0]);
  }

  lemma FeedLast(buffers: Buffers, e: Envelope, parts: seq<seq<byte>>, now: real)
    requires Fitting(buffers, e, parts) && |parts| > 1
    requires HeldAt(buffers, (e.flowId, e.packetId)) + {e.chunkIndex} == Below(|parts|)
    ensures FedEnvelope(buffers, e, now) == (buffers - {(e.flowId, e.packetId)},
              Delivered(Delivery(e.flowId, e.packetId, e.timestamp, e.linktype, Flatten(parts))))
  {
    StoredPart(buffers, e, parts, now);
    JoinIsPrefix(Stored(buffers, e, now).chunks, parts, |parts|);
    assert parts[..|parts|] == parts;
  }

  lemma FeedMore(buffers: Buffers, e: Envelope, parts: seq<seq<byte>>, now: real)
    requires Fitting(buffers, e, parts) && |parts| > 1
    requires HeldAt(buffers, (e.flowId, e.packetId)) + {e.chunkIndex} != Below(|parts|)
    ensures var entry := Stored(buffers, e, now);
      && FedEnvelope(buffers, e, now) == (buffers[(e.flowId, e.packetId) := entry], Pending)
      && PartOf(entry, e.timestamp, e.linktype, parts)
      && entry.chunks.Keys == HeldAt(buffers, (e.flowId, e.packetId)) + {e.chunkIndex}
  {
    StoredPart(buffers, e, parts, now);
  }

  lemma FeedPart(buffers: Buffers, e: Envelope, parts: seq<seq<byte>>, now: real)
    requires Fitting(buffers, e, parts)
    ensures var (b', out) := FedEnvelope(buffers, e, now); FeedEffect(buffers, e, parts, b', out)
  {
    if |parts| == 1 {
      FeedSingle(buffers, e, parts, now);
    } else if HeldAt(buffers, (e.flowId, e.packetId)) + {e.chunkIndex} == Below(|parts|) {
      FeedLast(buffers, e, parts, now);
    } else {
      FeedMore(buffers, e, parts, now);
    }
  }

  // ------------------------------------------------------- a whole session

  /** What the network and the receiver's clock do: chunk `i` of packet `p` arrives,
      or the receiver drops stale buffers. Loss is an arrival that never happens. */
  datatype Event = Arrive(p: nat, i: nat, now: real) | Expire(now: real)

  function KeyOf(o: Original): (k: Key)
  {
    (o.flowId % U32, o.packetId % U32)
  }

  /** The packets sent: each fits the format, and no two share their masked ids. */
  datatype Session = Session(sent: seq<Original>, max: nat, timeout: real)
  {
    ghost predicate Valid()
    {
      && max > 0
      && (forall p | 0 <= p < |sent| :: Sendable(sent[p], max))
      && forall p, q | 0 <= p < q < |sent| :: KeyOf(sent[p]) != KeyOf(sent[q])
    }

    function Parts(p: nat): (r: seq<seq<byte>>)
      requires max > 0 && p < |sent|
      ensures |r| > 0
    {
      ChunkPayloads(sent[p].payload, max)
    }

    /** Every chunk index of packet `p`. */
    function All(p: nat): (s: set<nat>)
      requires max > 0 && p < |sent|
      ensures s != {}
    {
      assert 0 in Below(|Parts(p)|);
      Below(|Parts(p)|)
    }

    predicate Possible(e: Event)
    {
      e.Arrive? ==> max > 0 && e.p < |sent| && e.i < |Parts(e.p)|
    }

    function Step(buffers: Buffers, e: Event): (r: (Buffers, Outcome))
      requires Possible(e)
    {
      match e
      case Arrive(p, i, now) => Fed(buffers, RawChunk(sent[p], max, i), now)
      case Expire(now) => (Expired(buffers, now, timeout), Pending)
    }

    predicate Trace(trace: seq<Event>)
    {
      forall t | 0 <= t < |trace| :: Possible(trace[t])
    }

    /** The receiver's buffers after a run. */
    function Run(trace: seq<Event>): (b: Buffers)
      requires Trace(trace)
    {
      if trace == [] then map[]
      else Step(Run(trace[..|trace| - 1]), trace[|trace| - 1]).0
    }

    function OutcomeAt(trace: seq<Event>, t: nat): (out: Outcome)
      requires Trace(trace) && t < |trace|
    {
      Step(Run(trace[..t]), trace[t]).1
    }

    /** Packet `p` exactly as it was sent. */
    function Intact(p: nat): (d: Delivery)
      requires p < |sent|
    {
      Delivery(sent[p].flowId % U32, sent[p].packetId % U32, sent[p].timestamp, sent[p].linktype % U16, sent[p].payload)
    }

    /** Whatever is buffered for a sent packet holds part of it, unaltered. */
    ghost predicate Faithful(buffers: Buffers)
      requires max > 0
    {
      forall p | 0 <= p < |sent| && KeyOf(sent[p]) in buffers ::
        PartOf(buffers[KeyOf(sent[p])], sent[p].timestamp, sent[p].linktype % U16, Parts(p))
    }

    /** The chunk indices of packet `p` the receiver holds. */
    function Held(buffers: Buffers, p: nat): (s: set<nat>)
      requires p < |sent|
    {
      HeldAt(buffers, KeyOf(sent[p]))
    }

    lemma OtherKeys(p: nat, q: nat)
      requires Valid() && p < |sent| && q < |sent| && p != q
      ensures KeyOf(sent[p]) != KeyOf(sent[q])
    {
      assert KeyOf(sent[if p < q then p else q]) != KeyOf(sent[if p < q then q else p]);
    }

    lemma ArriveOwn(buffers: Buffers, p: nat, i: nat, now: real)
      requires Valid() && Possible(Arrive(p, i, now)) && Faithful(buffers)
      ensures var (b', out) := Step(buffers, Arrive(p, i, now));
        && FeedEffect(buffers, ChunkOf(sent[p], max, i), Parts(p), b', out)
        && Flatten(Parts(p)) == sent[p].payload
    {
      ParseRawChunk(sent[p], max, i);
      ChunkPayloadsCover(sent[p].payload, max);
      FeedPart(buffers, ChunkOf(sent[p], max, i), Parts(p), now);
    }

    /** One arrival, seen through the sets of held chunk indices: the packet comes out,
        intact, exactly when the arriving chunk completes its set, and no other packet
        is touched. */
    lemma ArriveStep(buffers: Buffers, p: nat, i: nat, now: real)
      requires Valid() && Possible(Arrive(p, i, now)) && Faithful(buffers)
      ensures var (b', out) := Step(buffers, Arrive(p, i, now));
        && Faithful(b')
        && (Held(buffers, p) + {i} == All(p) ==> out == Delivered(Intact(p)) && Held(b', p) == {})
        && (Held(buffers, p) + {i} != All(p) ==> out == Pending && Held(b', p) == Held(buffers, p) + {i})
        && forall q | 0 <= q < |sent| && q != p :: Held(b', q) == Held(buffers, q)
    {
      ArriveOwn(buffers, p, i, now);
      var b' := Step(buffers, Arrive(p, i, now)).0;
      forall q | 0 <= q < |sent| && q != p
        ensures KeyOf(sent[q]) in b' <==> KeyOf(sent[q]) in buffers
        ensures KeyOf(sent[q]) in b' ==> b'[KeyOf(sent[q])] == buffers[KeyOf(sent[q])]
      {
        OtherKeys(p, q);
      }
    }

    lemma ExpireStep(buffers: Buffers, now: real)
      requires Valid() && Faithful(buffers)
      ensures var (b', out) := Step(buffers, Expire(now)); Faithful(b') && out == Pending
    {
    }

    lemma {:induction false} RunFaithful(trace: seq<Event>)
      requires Valid() && Trace(trace)
      ensures Faithful(Run(trace))
      decreases |trace|
    {
      if trace != [] {
        var init := trace[..|trace| - 1];
        RunFaithful(init);
        match trace[|trace| - 1]
        case Arrive(p, i, now) => ArriveStep(Run(init), p, i, now);
        case Expire(now) => ExpireStep(Run(init), now);
      }
    }

    /** Safety on every run: with chunks lost, repeated, reordered, interleaved or
        expired in any way, whatever comes out is a packet exactly as it was sent,
        on the arrival of one of its own chunks, and joining never fails. */
    lemma DeliveredIsIntact(trace: seq<Event>, t: nat)
      requires Valid() && Trace(trace) && t < |trace|
      ensures OutcomeAt(trace, t) == Pending
           || (trace[t].Arrive? && OutcomeAt(trace, t) == Delivered(Intact(trace[t].p)))
    {
      RunFaithful(trace[..t]);
      match trace[t]
      case Arrive(p, i, now) => ArriveStep(Run(trace[..t]), p, i, now);
      case Expire(now) =>
    }

    // ------------------------------------------ runs without repeats or expiry

    /** Which chunks of `p` a run brought in. */
    function Arrived(trace: seq<Event>, p: nat): (s: set<nat>)
    {
      if trace == [] then {}
      else
        var last := trace[|trace| - 1];
        Arrived(trace[..|trace| - 1], p) + if last.Arrive? && last.p == p then {last.i} else {}
    }

    lemma {:induction false} ArrivedIff(trace: seq<Event>, p: nat, i: nat)
      ensures i in Arrived(trace, p)
         <==> exists t :: 0 <= t < |trace| && trace[t].Arrive? && trace[t].p == p && trace[t].i == i
      decreases |trace|
    {
      if trace != [] {
        var init := trace[..|trace| - 1];
        ArrivedIff(init, p, i);
        assert forall t | 0 <= t < |init| :: init[t] == trace[t];
      }
    }

    /** No chunk arrives twice and nothing is expired. */
    ghost predicate Clean(trace: seq<Event>)
    {
      && (forall t | 0 <= t < |trace| :: trace[t].Arrive?)
      && forall s, t | 0 <= s < t < |trace| :: trace[s].p != trace[t].p || trace[s].i != trace[t].i
    }

    /** How often packet `p` comes out during a run. */
    function Deliveries(trace: seq<Event>, p: nat): (n: nat)
      requires Trace(trace)
    {
      if trace == [] then 0
      else
        var t := |trace| - 1;
        Deliveries(trace[..t], p)
        + if trace[t].Arrive? && trace[t].p == p && OutcomeAt(trace, t).Delivered? then 1 else 0
    }

    lemma LastIsNew(init: seq<Event>, last: Event)
      requires Clean(init + [last])
      ensures Clean(init) && last.Arrive? && last.i !in Arrived(init, last.p)
    {
      var trace := init + [last];
      assert forall t | 0 <= t < |init| :: trace[t] == init[t];
      assert trace[|init|] == last;
      ArrivedIff(init, last.p, last.i);
    }

    /** The receiver's view of packet `p` after a run: what it holds, and how often
        `p` has come out. */
    ghost predicate Tracks(trace: seq<Event>, p: nat)
      requires max > 0 && Trace(trace) && p < |sent|
    {
      && Arrived(trace, p) <= All(p)
      && Held(Run(trace), p) == (if Arrived(trace, p) == All(p) then {} else Arrived(trace, p))
      && Deliveries(trace, p) == (if Arrived(trace, p) == All(p) then 1 else 0)
    }

    lemma {:induction false} CleanProgress(trace: seq<Event>, p: nat)
      requires Valid() && Trace(trace) && Clean(trace) && p < |sent|
      ensures Tracks(trace, p)
      decreases |trace|
    {
      if trace != [] {
        var init, last := trace[..|trace| - 1], trace[|trace| - 1];
        assert trace == init + [last];
        LastIsNew(init, last);
        CleanProgress(init, p);
        TracksStep(init, last, p);
      }
    }

    lemma TracksStep(init: seq<Event>, last: Event, p: nat)
      requires Valid() && Trace(init + [last]) && Trace(init) && p < |sent|
      requires last.Arrive? && last.i !in Arrived(init, last.p) && Tracks(init, p)
      ensures Tracks(init + [last], p)
    {
      RunFaithful(init);
      RunAppend(init, last, p);
      ArriveStep(Run(init), last.p, last.i, last.now);
      assert last.i in All(last.p);
    }

    lemma RunAppend(init: seq<Event>, last: Event, p: nat)
      requires Trace(init + [last]) && Trace(init) && last.Arrive?
      ensures Possible(last)
      ensures Run(init + [last]) == Step(Run(init), last).0
      ensures Arrived(init + [last], p) == Arrived(init, p) + if last.p == p then {last.i} else {}
      ensures Deliveries(init + [last], p)
           == Deliveries(init, p) + if last.p == p && Step(Run(init), last).1.Delivered? then 1 else 0
    {
      var trace := init + [last];
      assert trace[..|trace| - 1] == init && trace[|trace| - 1] == last;
    }

    lemma CleanOutcome(trace: seq<Event>, t: nat)
      requires Valid() && Trace(trace) && Clean(trace) && t < |trace|
      ensures OutcomeAt(trace, t) == if Arrived(trace[..t + 1], trace[t].p) == All(trace[t].p)
                                     then Delivered(Intact(trace[t].p)) else Pending
    {
      var init, e := trace[..t], trace[t];
      assert trace[..t + 1] == init + [e];
      LastIsNew(init, e);
      CleanProgress(init, e.p);
      RunFaithful(init);
      RunAppend(init, e, e.p);
      ArriveStep(Run(init), e.p, e.i, e.now);
    }

    /** Exact delivery on clean runs, for every order and interleaving: an arrival
        delivers its packet if and only if it is the last missing chunk, so a packet
        comes out exactly once if all its chunks arrive and never otherwise. */
    lemma DeliveredExactlyOnce(trace: seq<Event>)
      requires Valid() && Trace(trace) && Clean(trace)
      ensures forall t | 0 <= t < |trace| ::
        OutcomeAt(trace, t) == if Arrived(trace[..t + 1], trace[t].p) == All(trace[t].p)
                               then Delivered(Intact(trace[t].p)) else Pending
      ensures forall p | 0 <= p < |sent| ::
        Deliveries(trace, p) == if Arrived(trace, p) == All(p) then 1 else 0
    {
      forall t | 0 <= t < |trace|
        ensures OutcomeAt(trace, t) == if Arrived(trace[..t + 1], trace[t].p) == All(trace[t].p)
                                       then Delivered(Intact(trace[t].p)) else Pending
      {
        CleanOutcome(trace, t);
      }
      forall p | 0 <= p < |sent|
        ensures Deliveries(trace, p) == if Arrived(trace, p) == All(p) then 1 else 0
      {
        CleanProgress(trace, p);
      }
    }
  }
}
