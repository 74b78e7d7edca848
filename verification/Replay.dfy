/** The loop of `replay_pcap` in `replay_engine.py`: numbering, pacing and sending. */
module Replay {
  import opened Prelude
  import opened Wire

  /** One packet of the replayed file. `bits` is the double its timestamp packs to. */
  datatype Frame = Frame(bytes: seq<byte>, ts: real, bits: Bits64, linktype: int)

  /** What the world does: whether the deadline has passed before a packet, and whether
      sending a given chunk of a packet raises. */
  datatype World = World(late: nat -> bool, fails: (nat, nat) -> bool)

  /** The arguments of a replay. */
  datatype Plan = Plan(flowId: int, frames: seq<Frame>, speed: real, maxDelay: Option<real>, max: int)

  /** One datagram that went out. */
  datatype Sent = Sent(packet: nat, chunk: nat, raw: seq<byte>)

  /** `Raised`: a packet cannot be packed, or the replay speed divides by zero. */
  datatype Outcome = Raised | Report(read: nat, sent: nat, errors: nat, out: seq<Sent>, sleeps: seq<real>)

  // --------------------------------------------------------- specification

  function OriginalOf(p: Plan, k: nat): (o: Original)
    requires k < |p.frames|
  {
    var f := p.frames[k];
    Original(p.flowId, k, f.bits, f.linktype, f.bytes)
  }

  /** Packet `k` cannot be packed. */
  predicate Unpackable(p: Plan, k: nat)
    requires k < |p.frames|
  {
    p.max <= 0 || !Sendable(OriginalOf(p, k), p.max)
  }

  /** Packet `k` ends the replay with an exception. */
  predicate Blocked(p: Plan, k: nat)
    requires k < |p.frames|
  {
    (k > 0 && p.speed == 0.0) || Unpackable(p, k)
  }

  function ChunksOf(p: Plan, k: nat): (r: seq<seq<byte>>)
    requires k < |p.frames|
  {
    if p.max <= 0 then []
    else
      var o := OriginalOf(p, k);
      var n := |ChunkPayloads(o.payload, p.max)|;
      seq(n, i requires 0 <= i < n => RawChunk(o, p.max, i))
  }

  /** How many of a packet's `n` chunks go out: those before the first that raises. */
  function Through(world: World, k: nat, n: nat): (m: nat)
    ensures m <= n && (m < n ==> world.fails(k, m)) && forall i | 0 <= i < m :: !world.fails(k, i)
  {
    if n == 0 then 0
    else
      var m := Through(world, k, n - 1);
      if m < n - 1 || world.fails(k, n - 1) then m else n
  }

  function FirstChunks(k: nat, chunks: seq<seq<byte>>, n: nat): (r: seq<Sent>)
    requires n <= |chunks|
    ensures |r| == n
  {
    seq(n, i requires 0 <= i < n => Sent(k, i, chunks[i]))
  }

  function Chunks(p: Plan): (r: seq<seq<seq<byte>>>)
    ensures |r| == |p.frames|
  {
    seq(|p.frames|, k requires 0 <= k < |p.frames| => ChunksOf(p, k))
  }

  /** Everything the first `n` packets, cut into these chunks, put on the wire. */
  function Wired(cs: seq<seq<seq<byte>>>, world: World, n: nat): (out: seq<Sent>)
    requires n <= |cs|
  {
    if n == 0 then []
    else Wired(cs, world, n - 1) + FirstChunks(n - 1, cs[n - 1], Through(world, n - 1, |cs[n - 1]|))
  }

  /** How many of the first `n` packets went out whole. */
  function Whole(cs: seq<seq<seq<byte>>>, world: World, n: nat): (m: nat)
    requires n <= |cs|
    ensures m <= n
  {
    if n == 0 then 0
    else Whole(cs, world, n - 1) + if Through(world, n - 1, |cs[n - 1]|) == |cs[n - 1]| then 1 else 0
  }

  /** The delay before packet `k`: never above the cap, and negative only if the cap is. */
  function Delay(p: Plan, k: nat): (d: real)
    requires 0 < k < |p.frames| && p.speed != 0.0
    ensures p.maxDelay.Some? ==> d <= p.maxDelay.value
    ensures d < 0.0 ==> p.maxDelay.Some? && d == p.maxDelay.value
  {
    var raw := (p.frames[k].ts - p.frames[k - 1].ts) / p.speed;
    var paced := if raw > 0.0 then raw else 0.0;
    if p.maxDelay.Some? && p.maxDelay.value < paced then p.maxDelay.value else paced
  }

  /** The sleeps before the first `n` packets. */
  function Sleeps(p: Plan, n: nat): (r: seq<real>)
    requires n <= |p.frames|
  {
    if n <= 1 || p.speed == 0.0 then [] else Sleeps(p, n - 1) + if Delay(p, n - 1) > 0.0 then [Delay(p, n - 1)] else []
  }

  // --------------------------------------------------------- the loop

  /** Sends the chunks of one packet up to the first that raises. */
  method SendChunks(k: nat, chunks: seq<seq<byte>>, world: World, out: seq<Sent>) returns (all: seq<Sent>, n: nat)
    ensures n == Through(world, k, |chunks|) && all == out + FirstChunks(k, chunks, n)
  {
    all, n := out, 0;
    while n < |chunks|
      invariant n <= |chunks| && all == out + FirstChunks(k, chunks, n)
      invariant forall i | 0 <= i < n :: !world.fails(k, i)
    {
      if world.fails(k, n) {
        return;
      }
      all := all + [Sent(k, n, chunks[n])];
      n := n + 1;
    }
  }

  method Pace(p: Plan, k: nat, sleeps: seq<real>) returns (more: seq<real>)
    requires 0 < k < |p.frames| && p.speed != 0.0 && sleeps == Sleeps(p, k)
    ensures more == Sleeps(p, k + 1)
  {
    var delay := Delay(p, k);
    more := if delay > 0.0 then sleeps + [delay] else sleeps;
  }

  method PackPacket(p: Plan, k: nat) returns (r: Option<seq<seq<byte>>>)
    requires k < |p.frames|
    ensures r.None? <==> Unpackable(p, k)
    ensures r.Some? ==> r.value == Chunks(p)[k]
  {
    var f := p.frames[k];
    var built := BuildEnvelopeChunks(p.flowId, k, f.bits, f.linktype, f.bytes, p.max);
    if !built.Built? {
      return None;
    }
    assert built.chunks == ChunksOf(p, k);
    return Some(built.chunks);
  }

  /** The first `n` packets are read: no deadline and no exception before. */
  predicate Reads(p: Plan, world: World, n: nat)
    requires n <= |p.frames|
  {
    n == 0 || (Reads(p, world, n - 1) && !world.late(n - 1) && !Blocked(p, n - 1))
  }

  lemma {:induction false} ReadsApart(p: Plan, world: World, m: nat, n: nat)
    requires m < n <= |p.frames| && Reads(p, world, n)
    ensures Reads(p, world, m) && !world.late(m) && !Blocked(p, m)
    decreases n
  {
    if m < n - 1 {
      ReadsApart(p, world, m, n - 1);
    }
  }

  /** A replay that stops at its deadline or at the end of the file met no exception. */
  lemma NoneRaised(p: Plan, world: World, n: nat)
    requires n <= |p.frames| && Reads(p, world, n) && (n == |p.frames| || world.late(n))
    ensures !exists k | 0 <= k < |p.frames| :: Reads(p, world, k) && !world.late(k) && Blocked(p, k)
  {
    if k: nat :| k < |p.frames| && Reads(p, world, k) && !world.late(k) && Blocked(p, k) {
      ReadsApart(p, world, if n < k then n else k, if n < k then k else n);
    }
  }

  method ReplayPcap(p: Plan, world: World) returns (r: Outcome)
    ensures r.Raised? <==> exists k | 0 <= k < |p.frames| :: Reads(p, world, k) && !world.late(k) && Blocked(p, k)
    ensures r.Report? ==>
      && r.read <= |p.frames| && Reads(p, world, r.read) && (r.read == |p.frames| || world.late(r.read))
      && r.sent == Whole(Chunks(p), world, r.read) && r.errors == r.read - r.sent
      && r.out == Wired(Chunks(p), world, r.read) && r.sleeps == Sleeps(p, r.read)
  {
    var sent, errors := 0, 0;
    var out: seq<Sent>, sleeps: seq<real> := [], [];
    ghost var cs := Chunks(p);
    for k := 0 to |p.frames|
      invariant Reads(p, world, k)
      invariant sent == Whole(cs, world, k) && errors == k - sent
      invariant out == Wired(cs, world, k) && sleeps == Sleeps(p, k)
    {
      if world.late(k) {
        NoneRaised(p, world, k);
        return Report(k, sent, errors, out, sleeps);
      }
      if k > 0 {
        if p.speed == 0.0 {
          assert Blocked(p, k);
          return Raised;
        }
        sleeps := Pace(p, k, sleeps);
      }
      var chunks := PackPacket(p, k);
      if chunks.None? {
        assert Blocked(p, k);
        return Raised;
      }
      var n: nat;
      out, n := SendChunks(k, chunks.value, world, out);
      if n == |chunks.value| {
        sent := sent + 1;
      } else {
        errors := errors + 1;
      }
    }
    NoneRaised(p, world, |p.frames|);
    return Report(|p.frames|, sent, errors, out, sleeps);
  }

  /** Every sleep is positive and never above the cap. */
  lemma {:induction false} SleepsBounded(p: Plan, n: nat, i: nat)
    requires n <= |p.frames| && i < |Sleeps(p, n)|
    ensures 0.0 < Sleeps(p, n)[i] && (p.maxDelay.Some? ==> Sleeps(p, n)[i] <= p.maxDelay.value)
    decreases n
  {
    if i < |Sleeps(p, n - 1)| {
      SleepsBounded(p, n - 1, i);
    }
  }

  // --------------------------------------------------------- what goes out

  /** A datagram is chunk `chunk` of packet `packet`, exactly as the wire format prints it. */
  ghost predicate Genuine(p: Plan, read: nat, s: Sent)
  {
    && p.max > 0 && s.packet < read <= |p.frames|
    && var o := OriginalOf(p, s.packet);
       && Sendable(o, p.max) && s.chunk < |ChunkPayloads(o.payload, p.max)|
       && s.raw == RawChunk(o, p.max, s.chunk)
  }

  lemma {:induction false} WiredFrom(cs: seq<seq<seq<byte>>>, world: World, n: nat, i: nat)
    requires n <= |cs| && i < |Wired(cs, world, n)|
    ensures var s := Wired(cs, world, n)[i]; s.packet < n && s.chunk < |cs[s.packet]| && s.raw == cs[s.packet][s.chunk]
    decreases n
  {
    if i < |Wired(cs, world, n - 1)| {
      WiredFrom(cs, world, n - 1, i);
    }
  }

  /** Everything that goes out is a chunk of a packet read before, numbered from zero in
      file order. */
  lemma WiredIsGenuine(p: Plan, world: World, n: nat, i: nat)
    requires n <= |p.frames| && Reads(p, world, n) && i < |Wired(Chunks(p), world, n)|
    ensures Genuine(p, n, Wired(Chunks(p), world, n)[i])
  {
    WiredFrom(Chunks(p), world, n, i);
    ReadsApart(p, world, Wired(Chunks(p), world, n)[i].packet, n);
  }

  /** Datagrams go out in packet order and, within a packet, in chunk order from zero,
      leaving no chunk out. */
  ghost predicate Ordered(out: seq<Sent>)
  {
    forall i | 0 <= i < |out| ::
      if out[i].chunk == 0 then i > 0 ==> out[i - 1].packet < out[i].packet
      else i > 0 && out[i - 1].packet == out[i].packet && out[i - 1].chunk == out[i].chunk - 1
  }

  lemma OrderedAppend(out: seq<Sent>, k: nat, chunks: seq<seq<byte>>, n: nat)
    requires Ordered(out) && n <= |chunks| && (out != [] ==> out[|out| - 1].packet < k)
    ensures Ordered(out + FirstChunks(k, chunks, n))
  {
  }

  lemma {:induction false} WiredInOrder(cs: seq<seq<seq<byte>>>, world: World, n: nat)
    requires n <= |cs|
    ensures Ordered(Wired(cs, world, n))
    decreases n
  {
    if n > 0 {
      WiredInOrder(cs, world, n - 1);
      var before := Wired(cs, world, n - 1);
      if before != [] {
        WiredFrom(cs, world, n - 1, |before| - 1);
      }
      OrderedAppend(before, n - 1, cs[n - 1], Through(world, n - 1, |cs[n - 1]|));
    }
  }

  /** A packet whose chunks all go through is on the wire whole, and a replay without
      send errors counts every packet read as sent. */
  lemma {:induction false} NothingHeldBack(cs: seq<seq<seq<byte>>>, world: World, n: nat, k: nat, i: nat)
    requires k < n <= |cs| && i < |cs[k]| && forall c: nat | c < |cs[k]| :: !world.fails(k, c)
    ensures Sent(k, i, cs[k][i]) in Wired(cs, world, n)
    decreases n
  {
    if k < n - 1 {
      NothingHeldBack(cs, world, n - 1, k, i);
    } else {
      assert Through(world, k, |cs[k]|) == |cs[k]|;
      assert FirstChunks(k, cs[k], |cs[k]|)[i] == Sent(k, i, cs[k][i]);
    }
  }

  lemma {:induction false} AllSent(cs: seq<seq<seq<byte>>>, world: World, n: nat)
    requires n <= |cs| && forall k: nat, c: nat | k < n && c < |cs[k]| :: !world.fails(k, c)
    ensures Whole(cs, world, n) == n
    decreases n
  {
    if n > 0 {
      AllSent(cs, world, n - 1);
      assert Through(world, n - 1, |cs[n - 1]|) == |cs[n - 1]|;
    }
  }

  // --------------------------------------------------------- what is counted and slept

  /** No chunk of packet `k` meets a failing send. */
  ghost predicate GoesOutWhole(cs: seq<seq<seq<byte>>>, world: World, k: nat)
    requires k < |cs|
  {
    forall c: nat | c < |cs[k]| :: !world.fails(k, c)
  }

  ghost function WholePackets(cs: seq<seq<seq<byte>>>, world: World, n: nat): (ks: set<int>)
    requires n <= |cs|
  {
    set k | 0 <= k < n && GoesOutWhole(cs, world, k)
  }

  /** The packets counted as sent are exactly those whose every chunk went out. */
  lemma {:induction false} SentAreWhole(cs: seq<seq<seq<byte>>>, world: World, n: nat)
    requires n <= |cs|
    ensures Whole(cs, world, n) == |WholePackets(cs, world, n)|
    decreases n
  {
    if n == 0 {
      assert WholePackets(cs, world, n) == {};
    } else {
      SentAreWhole(cs, world, n - 1);
      assert WholePackets(cs, world, n)
          == WholePackets(cs, world, n - 1) + if GoesOutWhole(cs, world, n - 1) then {n - 1} else {};
    }
  }

  function Slept(sleeps: seq<real>): (total: real)
  {
    if sleeps == [] then 0.0 else Slept(sleeps[..|sleeps| - 1]) + sleeps[|sleeps| - 1]
  }

  /** The file's packets are in time order. */
  predicate InTimeOrder(p: Plan)
  {
    forall k | 0 < k < |p.frames| :: p.frames[k - 1].ts <= p.frames[k].ts
  }

  /** The pause before packet `k`, at the replay speed. */
  function Gap(p: Plan, k: nat): (g: real)
    requires 0 < k < |p.frames| && p.speed != 0.0
  {
    (p.frames[k].ts - p.frames[k - 1].ts) / p.speed
  }

  lemma DelayOfGap(p: Plan, k: nat)
    requires 0 < k < |p.frames| && p.speed > 0.0 && InTimeOrder(p)
    ensures Gap(p, k) >= 0.0
    ensures Delay(p, k) == if p.maxDelay.Some? && p.maxDelay.value < Gap(p, k) then p.maxDelay.value else Gap(p, k)
  {
    assert p.frames[k - 1].ts <= p.frames[k].ts;
    QuotientGap(0.0, p.frames[k].ts - p.frames[k - 1].ts, p.speed);
  }

  lemma SleepStep(p: Plan, n: nat)
    requires 1 < n <= |p.frames| && p.speed > 0.0
    ensures Slept(Sleeps(p, n)) == Slept(Sleeps(p, n - 1)) + if Delay(p, n - 1) > 0.0 then Delay(p, n - 1) else 0.0
  {
    var before, d := Sleeps(p, n - 1), Delay(p, n - 1);
    assert (before + [d])[..|before|] == before;
    if d <= 0.0 {
      assert before + [] == before;
    }
  }

  /** No pause of the first `n` packets is cut by the cap. */
  ghost predicate Uncut(p: Plan, n: nat)
    requires n <= |p.frames| && p.speed != 0.0
  {
    forall k | 0 < k < n :: p.maxDelay.None? || Gap(p, k) <= p.maxDelay.value
  }

  lemma Elapsed(x: real, y: real, z: real, speed: real)
    requires speed > 0.0
    ensures (y - x) / speed + (z - y) / speed == (z - x) / speed
  {
  }

  /** A file in time order, replayed without a cap below its pauses, sleeps for exactly the
      time the packets span, at the replay speed; a cap that is not negative and cuts a
      pause makes it sleep less. */
  lemma {:induction false} TotalSleep(p: Plan, n: nat)
    requires 0 < n <= |p.frames| && p.speed > 0.0 && InTimeOrder(p) && (p.maxDelay.Some? ==> p.maxDelay.value >= 0.0)
    ensures var span := (p.frames[n - 1].ts - p.frames[0].ts) / p.speed;
      Slept(Sleeps(p, n)) <= span && (Slept(Sleeps(p, n)) == span <==> Uncut(p, n))
    decreases n
  {
    if n == 1 {
      assert (p.frames[0].ts - p.frames[0].ts) / p.speed == 0.0;
    } else {
      TotalSleep(p, n - 1);
      SleepStep(p, n);
      DelayOfGap(p, n - 1);
      Elapsed(p.frames[0].ts, p.frames[n - 2].ts, p.frames[n - 1].ts, p.speed);
    }
  }

  /** A packet that is not later than the one before it is sent without a pause. */
  lemma BackwardNotSlept(p: Plan, n: nat)
    requires 1 <= n < |p.frames| && p.speed > 0.0 && p.frames[n].ts <= p.frames[n - 1].ts
    ensures Sleeps(p, n + 1) == Sleeps(p, n)
  {
    QuotientGap(p.frames[n].ts - p.frames[n - 1].ts, 0.0, p.speed);
  }

  /** Packet `k` is read: before the deadline, with a positive limit, in at most 65535 chunks
      of at most 65535 bytes, and with a speed to divide by from the second packet on. */
  predicate Readable(p: Plan, world: World, k: nat)
    requires k < |p.frames|
  {
    !world.late(k) && p.max > 0 && Sendable(OriginalOf(p, k), p.max) && (k == 0 || p.speed != 0.0)
  }

  lemma ReadableIff(p: Plan, world: World, k: nat)
    requires k < |p.frames|
    ensures Readable(p, world, k) <==> !world.late(k) && !Blocked(p, k)
  {
  }

  /** The packets read are those up to the first that cannot be. */
  lemma {:induction false} ReadsIff(p: Plan, world: World, n: nat)
    requires n <= |p.frames|
    ensures Reads(p, world, n) <==> forall k | 0 <= k < n :: Readable(p, world, k)
    decreases n
  {
    if n > 0 {
      ReadsIff(p, world, n - 1);
      ReadableIff(p, world, n - 1);
    }
  }
}
