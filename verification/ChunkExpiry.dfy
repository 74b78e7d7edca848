/** When chunk sets of a session are given up: exactly those whose first chunk came longer
    ago than the timeout. */
module ChunkExpiry {
  import opened Prelude
  import opened Wire
  import opened Reassembly

  /** Anything that is not a chunk of the format leaves the buffers alone. */
  lemma MalformedIgnored(buffers: Buffers, raw: seq<byte>, now: real)
    requires ParseEnvelopeChunk(raw).None?
    ensures Fed(buffers, raw, now) == (buffers, Pending)
  {
  }

  /** One chunk leaves the opening time of every set that stays, and opens at most its own
      set, at its own time. */
  lemma ChunkOpens(buffers: Buffers, e: Envelope, now: real, key: Key)
    requires key in FedEnvelope(buffers, e, now).0
    ensures var b := FedEnvelope(buffers, e, now).0;
      if key in buffers then b[key].firstSeen == buffers[key].firstSeen
      else key == (e.flowId, e.packetId) && b[key].firstSeen == now
  {
  }

  /** Packet `p` has a set in the buffers. */
  predicate Open(s: Session, buffers: Buffers, p: nat)
    requires p < |s.sent|
  {
    KeyOf(s.sent[p]) in buffers
  }

  function OpeningTime(s: Session, buffers: Buffers, p: nat): (at: real)
    requires p < |s.sent| && Open(s, buffers, p)
  {
    buffers[KeyOf(s.sent[p])].firstSeen
  }

  lemma EventOpens(s: Session, buffers: Buffers, e: Event, p: nat)
    requires s.Valid() && s.Possible(e) && p < |s.sent| && Open(s, s.Step(buffers, e).0, p)
    ensures var b := s.Step(buffers, e).0;
      if Open(s, buffers, p) then OpeningTime(s, b, p) == OpeningTime(s, buffers, p)
      else e.Arrive? && e.p == p && OpeningTime(s, b, p) == e.now
  {
    if e.Arrive? {
      ParseRawChunk(s.sent[e.p], s.max, e.i);
      ChunkOpens(buffers, ChunkOf(s.sent[e.p], s.max, e.i), e.now, KeyOf(s.sent[p]));
      if e.p != p {
        s.OtherKeys(e.p, p);
      }
    }
  }

  /** The set of packet `p` was opened by arrival `t` and has been open ever since. */
  ghost predicate OpenedBy(s: Session, trace: seq<Event>, p: nat, t: int)
    requires s.Trace(trace) && p < |s.sent|
  {
    && 0 <= t < |trace| && trace[t].Arrive? && trace[t].p == p
    && !Open(s, s.Run(trace[..t]), p)
    && forall k | t < k <= |trace| :: Open(s, s.Run(trace[..k]), p)
  }

  lemma OpenedByMore(s: Session, trace: seq<Event>, p: nat, t: int)
    requires s.Trace(trace) && trace != [] && p < |s.sent| && Open(s, s.Run(trace), p)
    requires OpenedBy(s, trace[..|trace| - 1], p, t)
    ensures OpenedBy(s, trace, p, t)
  {
    var init := trace[..|trace| - 1];
    assert init[..t] == trace[..t];
    forall k | t < k <= |trace| ensures Open(s, s.Run(trace[..k]), p) {
      if k < |trace| {
        assert init[..k] == trace[..k];
      } else {
        assert trace[..k] == trace;
      }
    }
  }

  lemma OpenedLast(s: Session, trace: seq<Event>, p: nat)
    requires s.Trace(trace) && trace != [] && p < |s.sent| && Open(s, s.Run(trace), p)
    requires trace[|trace| - 1].Arrive? && trace[|trace| - 1].p == p && !Open(s, s.Run(trace[..|trace| - 1]), p)
    ensures OpenedBy(s, trace, p, |trace| - 1)
  {
    assert trace[..|trace|] == trace;
  }

  /** The opening time of a set is the reading of the arrival that opened it. */
  lemma {:induction false} OpeningTimeIs(s: Session, trace: seq<Event>, p: nat) returns (t: nat)
    requires s.Valid() && s.Trace(trace) && p < |s.sent| && Open(s, s.Run(trace), p)
    ensures OpenedBy(s, trace, p, t) && OpeningTime(s, s.Run(trace), p) == trace[t].now
    decreases |trace|
  {
    var n := |trace| - 1;
    var before := s.Run(trace[..n]);
    EventOpens(s, before, trace[n], p);
    if Open(s, before, p) {
      t := OpeningTimeIs(s, trace[..n], p);
      OpenedByMore(s, trace, p, t);
    } else {
      t := n;
      OpenedLast(s, trace, p);
    }
  }

  lemma RunExpire(s: Session, trace: seq<Event>, now: real)
    requires s.Trace(trace)
    ensures s.Trace(trace + [Expire(now)])
    ensures s.Run(trace + [Expire(now)]) == Expired(s.Run(trace), now, s.timeout)
  {
    assert (trace + [Expire(now)])[..|trace|] == trace;
  }

  /** Over every run, for every packet: a stale check gives up its set exactly when the chunk
      that opened it came more than the timeout before; otherwise the set stays as it is. */
  lemma ExpiryIff(s: Session, trace: seq<Event>, now: real, p: nat) returns (t: nat)
    requires s.Valid() && s.Trace(trace) && p < |s.sent| && Open(s, s.Run(trace), p)
    ensures s.Trace(trace + [Expire(now)]) && OpenedBy(s, trace, p, t)
    ensures var before, after := s.Run(trace), s.Run(trace + [Expire(now)]);
      && (Open(s, after, p) <==> now - trace[t].now <= s.timeout)
      && (Open(s, after, p) ==> s.Held(after, p) == s.Held(before, p))
  {
    t := OpeningTimeIs(s, trace, p);
    RunExpire(s, trace, now);
  }
}
