/** From the wire to the capture: when what reaches the capture is a rearrangement of what
    the senders put on the wire, every chunk arrives exactly once. */
module Transfers {
  import opened Prelude
  import opened Wire
  import opened Reassembly
  import opened Capture
  import opened CaptureSessions
  import opened EndToEnd
  import opened Lossless
  import Replay

  /** The chunks of packet `p`, in order. */
  function ChunksOf(s: Session, p: nat): (r: seq<seq<byte>>)
    requires s.max > 0 && p < |s.sent|
    ensures |r| == |s.Parts(p)|
  {
    seq(|s.Parts(p)|, i requires 0 <= i < |s.Parts(p)| => RawChunk(s.sent[p], s.max, i))
  }

  /** Every chunk of the first `n` packets, in order. */
  function Outgoing(s: Session, n: nat): (r: seq<seq<byte>>)
    requires s.max > 0 && n <= |s.sent|
  {
    if n == 0 then [] else Outgoing(s, n - 1) + ChunksOf(s, n - 1)
  }

  /** The chunk payloads a capture gets, in order. */
  function Payloads(evs: seq<Outer>): (r: seq<seq<byte>>)
  {
    if evs == [] then []
    else Payloads(evs[..|evs| - 1]) + if evs[|evs| - 1].Reaf? then [evs[|evs| - 1].payload] else []
  }

  // ------------------------------------------------------------ lists without repeats

  ghost predicate AllDistinct<T>(xs: seq<T>)
  {
    forall i, j | 0 <= i < j < |xs| :: xs[i] != xs[j]
  }

  lemma {:induction false} DistinctCounts<T>(xs: seq<T>, x: T)
    requires AllDistinct(xs)
    ensures multiset(xs)[x] <= 1
    decreases |xs|
  {
    if xs != [] {
      var init, last := xs[..|xs| - 1], xs[|xs| - 1];
      DistinctCounts(init, x);
      assert xs == init + [last];
      assert last !in init;
    }
  }

  lemma TwiceCounts<T>(xs: seq<T>, i: nat, j: nat)
    requires i < j < |xs| && xs[i] == xs[j]
    ensures multiset(xs)[xs[i]] >= 2
  {
    assert xs == xs[..j] + xs[j..];
    assert xs[..j][i] in multiset(xs[..j]) && xs[j..][0] in multiset(xs[j..]);
  }

  /** A rearrangement of a list without repeats has none either, and the same members. */
  lemma Rearranged<T>(xs: seq<T>, ys: seq<T>)
    requires AllDistinct(xs) && multiset(xs) == multiset(ys)
    ensures AllDistinct(ys) && forall x :: x in xs <==> x in ys
  {
    forall i, j | 0 <= i < j < |ys| ensures ys[i] != ys[j] {
      if ys[i] == ys[j] {
        TwiceCounts(ys, i, j);
        DistinctCounts(xs, ys[i]);
      }
    }
    forall x ensures x in xs <==> x in ys {
      assert x in multiset(xs) <==> x in multiset(ys);
    }
  }

  // ------------------------------------------------------------ what goes out

  /** A chunk says which packet it is of, and which of its chunks it is. */
  lemma SameChunk(s: Session, p: nat, i: nat, q: nat, j: nat)
    requires s.Valid() && p < |s.sent| && i < |s.Parts(p)| && q < |s.sent| && j < |s.Parts(q)|
    requires RawChunk(s.sent[p], s.max, i) == RawChunk(s.sent[q], s.max, j)
    ensures p == q && i == j
  {
    ParseRawChunk(s.sent[p], s.max, i);
    ParseRawChunk(s.sent[q], s.max, j);
    assert ChunkOf(s.sent[p], s.max, i) == ChunkOf(s.sent[q], s.max, j);
    if p != q {
      s.OtherKeys(p, q);
    }
  }

  lemma {:induction false} OutgoingFrom(s: Session, n: nat, k: nat) returns (p: nat, i: nat)
    requires s.max > 0 && n <= |s.sent| && k < |Outgoing(s, n)|
    ensures p < n && ChunkAt(s, Outgoing(s, n)[k], p, i)
    decreases n
  {
    var before := |Outgoing(s, n - 1)|;
    if k < before {
      p, i := OutgoingFrom(s, n - 1, k);
    } else {
      p, i := n - 1, k - before;
    }
  }

  lemma {:induction false} OutgoingHas(s: Session, n: nat, p: nat, i: nat)
    requires s.max > 0 && p < n <= |s.sent| && i < |s.Parts(p)|
    ensures RawChunk(s.sent[p], s.max, i) in Outgoing(s, n)
    decreases n
  {
    if p < n - 1 {
      OutgoingHas(s, n - 1, p, i);
    } else {
      assert ChunksOf(s, p)[i] == RawChunk(s.sent[p], s.max, i);
    }
  }

  lemma ApartAppend<T>(xs: seq<T>, ys: seq<T>)
    requires AllDistinct(xs) && AllDistinct(ys) && forall i, j | 0 <= i < |xs| && 0 <= j < |ys| :: xs[i] != ys[j]
    ensures AllDistinct(xs + ys)
  {
  }

  lemma {:induction false} OutgoingDistinct(s: Session, n: nat)
    requires s.Valid() && n <= |s.sent|
    ensures AllDistinct(Outgoing(s, n))
    decreases n
  {
    if n > 0 {
      var before, own := Outgoing(s, n - 1), ChunksOf(s, n - 1);
      OutgoingDistinct(s, n - 1);
      forall i, j | 0 <= i < j < |own| ensures own[i] != own[j] {
        if own[i] == own[j] {
          SameChunk(s, n - 1, i, n - 1, j);
        }
      }
      forall k, j | 0 <= k < |before| && 0 <= j < |own| ensures before[k] != own[j] {
        var p, i := OutgoingFrom(s, n - 1, k);
        if before[k] == own[j] {
          SameChunk(s, p, i, n - 1, j);
        }
      }
      ApartAppend(before, own);
    }
  }

  // ------------------------------------------------------------ what comes in

  lemma {:induction false} PayloadOf(evs: seq<Outer>, t: nat)
    requires t < |evs| && evs[t].Reaf?
    ensures evs[t].payload in Payloads(evs)
    decreases |evs|
  {
    if t < |evs| - 1 {
      PayloadOf(evs[..|evs| - 1], t);
    }
  }

  /** The arrivals of a capture are its payloads, one by one. */
  ghost predicate Matching(s: Session, trace: seq<Event>, payloads: seq<seq<byte>>)
    requires s.Trace(trace)
  {
    && |trace| == |payloads|
    && forall k | 0 <= k < |trace| ::
         trace[k].Arrive? && payloads[k] == RawChunk(s.sent[trace[k].p], s.max, trace[k].i)
  }

  lemma {:induction false} TraceMatches(s: Session, evs: seq<Outer>)
    requires OfSession(s, evs)
    ensures Matching(s, TraceOf(s, evs), Payloads(evs))
    decreases |evs|
  {
    if evs != [] {
      TraceStep(s, evs);
      TraceMatches(s, evs[..|evs| - 1]);
    }
  }

  lemma DistinctIsClean(s: Session, trace: seq<Event>, payloads: seq<seq<byte>>)
    requires s.Trace(trace) && Matching(s, trace, payloads) && AllDistinct(payloads)
    ensures s.Clean(trace)
  {
    forall a, b | 0 <= a < b < |trace| ensures trace[a].p != trace[b].p || trace[a].i != trace[b].i {
      assert payloads[a] != payloads[b];
    }
  }

  lemma AllArrive(s: Session, trace: seq<Event>, payloads: seq<seq<byte>>, p: nat)
    requires s.Valid() && s.Trace(trace) && Matching(s, trace, payloads) && p < |s.sent|
    requires forall i: nat | i < |s.Parts(p)| :: RawChunk(s.sent[p], s.max, i) in payloads
    ensures s.Arrived(trace, p) == s.All(p)
  {
    forall i: nat ensures i in s.Arrived(trace, p) <==> i < |s.Parts(p)| {
      s.ArrivedIff(trace, p, i);
      if i < |s.Parts(p)| {
        var k :| 0 <= k < |payloads| && payloads[k] == RawChunk(s.sent[p], s.max, i);
        SameChunk(s, p, i, trace[k].p, trace[k].i);
      }
    }
  }

  lemma OutgoingIsOfSession(s: Session, evs: seq<Outer>)
    requires s.Valid() && forall x :: x in Payloads(evs) ==> x in Outgoing(s, |s.sent|)
    ensures OfSession(s, evs)
  {
    forall t | 0 <= t < |evs| && evs[t].Reaf? ensures IsChunk(s, evs[t].payload) {
      PayloadOf(evs, t);
      var k :| 0 <= k < |Outgoing(s, |s.sent|)| && Outgoing(s, |s.sent|)[k] == evs[t].payload;
      var p, i := OutgoingFrom(s, |s.sent|, k);
    }
  }

  /** What the network is asked for: the chunks that reach the capture are those that were
      sent, each as often as it was sent, in any order. */
  ghost predicate Rearranges(s: Session, evs: seq<Outer>)
    requires s.max > 0
  {
    multiset(Payloads(evs)) == multiset(Outgoing(s, |s.sent|))
  }

  lemma RearrangedIsComplete(s: Session, evs: seq<Outer>)
    requires s.Valid() && Rearranges(s, evs)
    ensures OfSession(s, evs) && Complete(s, evs)
  {
    var out := Outgoing(s, |s.sent|);
    OutgoingDistinct(s, |s.sent|);
    Rearranged(out, Payloads(evs));
    OutgoingIsOfSession(s, evs);
    TraceMatches(s, evs);
    DistinctIsClean(s, TraceOf(s, evs), Payloads(evs));
    forall p | 0 <= p < |s.sent| ensures s.Arrived(TraceOf(s, evs), p) == s.All(p) {
      forall i: nat | i < |s.Parts(p)| ensures RawChunk(s.sent[p], s.max, i) in Payloads(evs) {
        OutgoingHas(s, |s.sent|, p, i);
      }
      AllArrive(s, TraceOf(s, evs), Payloads(evs), p);
    }
  }

  lemma SameMembers<T>(xs: seq<T>, ys: seq<T>)
    requires AllDistinct(xs) && AllDistinct(ys) && forall x :: x in xs <==> x in ys
    ensures multiset(xs) == multiset(ys)
  {
    forall x ensures multiset(xs)[x] == multiset(ys)[x] {
      DistinctCounts(xs, x);
      DistinctCounts(ys, x);
      assert x in xs <==> x in multiset(xs);
      assert x in ys <==> x in multiset(ys);
    }
  }

  lemma CleanIsDistinct(s: Session, trace: seq<Event>, payloads: seq<seq<byte>>)
    requires s.Valid() && s.Trace(trace) && Matching(s, trace, payloads) && s.Clean(trace)
    ensures AllDistinct(payloads)
  {
    forall a, b | 0 <= a < b < |payloads| ensures payloads[a] != payloads[b] {
      if payloads[a] == payloads[b] {
        SameChunk(s, trace[a].p, trace[a].i, trace[b].p, trace[b].i);
      }
    }
  }

  lemma ArrivedPayload(s: Session, trace: seq<Event>, payloads: seq<seq<byte>>, p: nat, i: nat)
    requires s.Valid() && s.Trace(trace) && Matching(s, trace, payloads) && p < |s.sent| && i < |s.Parts(p)|
    requires s.Arrived(trace, p) == s.All(p)
    ensures RawChunk(s.sent[p], s.max, i) in payloads
  {
    s.ArrivedIff(trace, p, i);
    assert i in s.All(p);
    var t :| 0 <= t < |trace| && trace[t].Arrive? && trace[t].p == p && trace[t].i == i;
    assert payloads[t] == RawChunk(s.sent[p], s.max, i);
  }

  lemma CompleteIsRearranged(s: Session, evs: seq<Outer>)
    requires s.Valid() && OfSession(s, evs) && Complete(s, evs)
    ensures Rearranges(s, evs)
  {
    var trace, payloads, out := TraceOf(s, evs), Payloads(evs), Outgoing(s, |s.sent|);
    TraceMatches(s, evs);
    OutgoingDistinct(s, |s.sent|);
    CleanIsDistinct(s, trace, payloads);
    forall x | x in out ensures x in payloads {
      var k :| 0 <= k < |out| && out[k] == x;
      var p, i := OutgoingFrom(s, |s.sent|, k);
      ArrivedPayload(s, trace, payloads, p, i);
    }
    forall x | x in payloads ensures x in out {
      var k :| 0 <= k < |payloads| && payloads[k] == x;
      OutgoingHas(s, |s.sent|, trace[k].p, trace[k].i);
    }
    SameMembers(payloads, out);
  }

  /** Every chunk arrives exactly once exactly when what arrives is a rearrangement of what
      was sent. */
  lemma CompleteIff(s: Session, evs: seq<Outer>)
    requires s.Valid()
    ensures Rearranges(s, evs) <==> OfSession(s, evs) && Complete(s, evs)
  {
    if Rearranges(s, evs) {
      RearrangedIsComplete(s, evs);
    } else if OfSession(s, evs) && Complete(s, evs) {
      CompleteIsRearranged(s, evs);
    }
  }

  // ------------------------------------------------------------ replays

  function Raws(out: seq<Replay.Sent>): (r: seq<seq<byte>>)
    ensures |r| == |out|
  {
    seq(|out|, i requires 0 <= i < |out| => out[i].raw)
  }

  /** No chunk of the first `n` packets meets a failing send. */
  ghost predicate NoneFails(p: Replay.Plan, world: Replay.World, n: nat)
    requires n <= |p.frames|
  {
    forall k: nat, c: nat | k < n && c < |Replay.Chunks(p)[k]| :: !world.fails(k, c)
  }

  /** What a replay puts on the wire when no send fails: every chunk of its session. */
  lemma {:induction false} WiredIsOutgoing(p: Replay.Plan, world: Replay.World, read: nat, timeout: real, n: nat)
    requires 0 < p.max && n <= read <= |p.frames| && NoneFails(p, world, n)
    ensures Raws(Replay.Wired(Replay.Chunks(p), world, n)) == Outgoing(SessionOf(p, read, timeout), n)
    decreases n
  {
    if n > 0 {
      var cs, s := Replay.Chunks(p), SessionOf(p, read, timeout);
      WiredIsOutgoing(p, world, read, timeout, n - 1);
      assert Replay.Through(world, n - 1, |cs[n - 1]|) == |cs[n - 1]|;
      assert cs[n - 1] == ChunksOf(s, n - 1);
      RawsAppend(Replay.Wired(cs, world, n - 1), Replay.FirstChunks(n - 1, cs[n - 1], |cs[n - 1]|));
      assert Raws(Replay.FirstChunks(n - 1, cs[n - 1], |cs[n - 1]|)) == cs[n - 1];
    }
  }

  lemma RawsAppend(a: seq<Replay.Sent>, b: seq<Replay.Sent>)
    ensures Raws(a + b) == Raws(a) + Raws(b)
  {
  }

  /** A replay whose sends all succeed, over a network that neither loses nor repeats: what
      reaches the capture is what the scoring theorems ask for, whatever the order. */
  lemma ReplayArrivesWhole(p: Replay.Plan, world: Replay.World, read: nat, timeout: real, evs: seq<Outer>)
    requires 0 < read <= |p.frames| && read <= U32 && Replay.Reads(p, world, read) && NoneFails(p, world, read)
    requires multiset(Payloads(evs)) == multiset(Raws(Replay.Wired(Replay.Chunks(p), world, read)))
    ensures p.max > 0
    ensures var s := SessionOf(p, read, timeout); s.Valid() && OfSession(s, evs) && Complete(s, evs)
  {
    ReplayIsSession(p, world, read, timeout);
    WiredIsOutgoing(p, world, read, timeout, read);
    RearrangedIsComplete(SessionOf(p, read, timeout), evs);
  }
}
