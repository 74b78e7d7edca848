/** The envelope wire format: `build_envelope.py` prints it, `parse_envelope_chunk`
    in `envelope_ressemble.py` reads it. */
module Wire {
  import opened Prelude

  type byte = x: int | 0 <= x < 256

  const MAGIC: seq<byte> := [0x52, 0x45, 0x35, 0x47] // "RE5G"
  const VERSION: byte := 1
  const HEADER_SIZE: nat := 29
  const U16: nat := 0x1_0000
  const U32: nat := 0x1_0000_0000
  const U64: nat := 0x1_0000_0000_0000_0000

  /** The eight bytes of the packed double, as one number. */
  type Bits64 = x: int | 0 <= x < 0x1_0000_0000_0000_0000

  /** One packet as the sender holds it. The ids are Python integers, so they may
      lie outside the 32-bit field they are masked into. */
  datatype Original = Original(flowId: int, packetId: int, timestamp: Bits64, linktype: int, payload: seq<byte>)

  /** One parsed chunk. */
  datatype Envelope = Envelope(flowId: nat, packetId: nat, timestamp: nat, linktype: nat,
                               chunkIndex: nat, chunkCount: nat, payload: seq<byte>)

  datatype BuildResult = Built(chunks: seq<seq<byte>>) | ValueError | StructError

  // ---------------------------------------------------------------- integers

  function Pow256(w: nat): (r: nat)
    ensures r > 0
  {
    if w == 0 then 1 else 256 * Pow256(w - 1)
  }

  function BigEndian(n: nat, width: nat): (r: seq<byte>)
    ensures |r| == width
  {
    if width == 0 then [] else BigEndian(n / 256, width - 1) + [n % 256]
  }

  function FromBigEndian(b: seq<byte>): (n: nat)
  {
    if |b| == 0 then 0 else FromBigEndian(b[..|b| - 1]) * 256 + b[|b| - 1]
  }

  lemma {:induction false} BigEndianRoundTrip(n: nat, width: nat)
    requires n < Pow256(width)
    ensures FromBigEndian(BigEndian(n, width)) == n
  {
    if width > 0 {
      BigEndianRoundTrip(n / 256, width - 1);
      var b := BigEndian(n, width);
      assert b[..|b| - 1] == BigEndian(n / 256, width - 1);
    }
  }

  lemma {:induction false} FromBigEndianRoundTrip(b: seq<byte>)
    ensures FromBigEndian(b) < Pow256(|b|)
    ensures BigEndian(FromBigEndian(b), |b|) == b
  {
    if |b| > 0 {
      var init := b[..|b| - 1];
      FromBigEndianRoundTrip(init);
      var n := FromBigEndian(b);
      assert n / 256 == FromBigEndian(init) && n % 256 == b[|b| - 1];
      assert b == init + [b[|b| - 1]];
    }
  }

  lemma FieldWidths()
    ensures Pow256(2) == U16 && Pow256(4) == U32 && Pow256(8) == U64
  {
    assert Pow256(3) == 0x100_0000;
    assert Pow256(6) == 0x1_0000_0000_0000 by { assert Pow256(5) == 0x100_0000_0000; }
  }

  // ------------------------------------------------------------------ header

  /** The 29 header bytes `!4sBIIdHHHH` of a chunk. */
  function Header(e: Envelope): (h: seq<byte>)
    ensures |h| == HEADER_SIZE
  {
    MAGIC + [VERSION] + BigEndian(e.flowId, 4) + BigEndian(e.packetId, 4) + BigEndian(e.timestamp, 8)
    + BigEndian(e.linktype, 2) + BigEndian(e.chunkIndex, 2) + BigEndian(e.chunkCount, 2)
    + BigEndian(|e.payload|, 2)
  }

  /** Every field fits the width the format gives it; `struct.pack` raises otherwise. */
  predicate Fits(e: Envelope)
  {
    e.flowId < U32 && e.packetId < U32 && e.timestamp < U64 && e.linktype < U16
    && e.chunkIndex < U16 && e.chunkCount < U16 && |e.payload| < U16
  }

  function ParseEnvelopeChunk(raw: seq<byte>): (r: Option<Envelope>)
  {
    if |raw| < HEADER_SIZE then None
    else if raw[..4] != MAGIC || raw[4] != VERSION then None
    else
      var payloadLength := FromBigEndian(raw[27..29]);
      if |raw| - HEADER_SIZE < payloadLength then None
      else Some(Envelope(FromBigEndian(raw[5..9]), FromBigEndian(raw[9..13]), FromBigEndian(raw[13..21]),
                         FromBigEndian(raw[21..23]), FromBigEndian(raw[23..25]), FromBigEndian(raw[25..27]),
                         raw[HEADER_SIZE..HEADER_SIZE + payloadLength]))
  }

  lemma HeaderSlices(e: Envelope, tail: seq<byte>)
    ensures var raw := Header(e) + tail;
      && raw[..4] == MAGIC && raw[4] == VERSION
      && raw[5..9] == BigEndian(e.flowId, 4) && raw[9..13] == BigEndian(e.packetId, 4)
      && raw[13..21] == BigEndian(e.timestamp, 8) && raw[21..23] == BigEndian(e.linktype, 2)
      && raw[23..25] == BigEndian(e.chunkIndex, 2) && raw[25..27] == BigEndian(e.chunkCount, 2)
      && raw[27..29] == BigEndian(|e.payload|, 2) && raw[29..] == tail
  {
  }

  /** Reading what was printed gives the chunk back, whatever bytes follow it. */
  lemma ParsePrinted(e: Envelope, trailing: seq<byte>)
    requires Fits(e)
    ensures ParseEnvelopeChunk(Header(e) + e.payload + trailing) == Some(e)
  {
    FieldWidths();
    var raw := Header(e) + e.payload + trailing;
    assert raw == Header(e) + (e.payload + trailing);
    HeaderSlices(e, e.payload + trailing);
    BigEndianRoundTrip(e.flowId, 4);
    BigEndianRoundTrip(e.packetId, 4);
    BigEndianRoundTrip(e.timestamp, 8);
    BigEndianRoundTrip(e.linktype, 2);
    BigEndianRoundTrip(e.chunkIndex, 2);
    BigEndianRoundTrip(e.chunkCount, 2);
    BigEndianRoundTrip(|e.payload|, 2);
    assert raw[HEADER_SIZE..HEADER_SIZE + |e.payload|] == e.payload;
  }

  /** Printing what was read gives the accepted bytes back, so the parser accepts
      nothing the printer cannot produce and no two chunks share an image. */
  lemma PrintParsed(raw: seq<byte>)
    requires ParseEnvelopeChunk(raw).Some?
    ensures var e := ParseEnvelopeChunk(raw).value;
      Fits(e) && Header(e) + e.payload <= raw
  {
    FieldWidths();
    var e := ParseEnvelopeChunk(raw).value;
    FromBigEndianRoundTrip(raw[5..9]);
    FromBigEndianRoundTrip(raw[9..13]);
    FromBigEndianRoundTrip(raw[13..21]);
    FromBigEndianRoundTrip(raw[21..23]);
    FromBigEndianRoundTrip(raw[23..25]);
    FromBigEndianRoundTrip(raw[25..27]);
    FromBigEndianRoundTrip(raw[27..29]);
    assert raw == raw[..4] + [raw[4]] + raw[5..9] + raw[9..13] + raw[13..21] + raw[21..23] + raw[23..25]
                  + raw[25..27] + raw[27..29] + raw[29..];
    assert raw == Header(e) + raw[29..];
  }

  /** The numbers that two and four bytes spell, the most significant first. */
  function Two(h: seq<byte>, k: nat): (n: nat)
    requires k + 2 <= |h|
  {
    256 * (h[k] as int) + h[k + 1] as int
  }

  function Four(h: seq<byte>, k: nat): (n: nat)
    requires k + 4 <= |h|
  {
    0x1_0000 * Two(h, k) + Two(h, k + 2)
  }

  lemma ReadsTwo(b: seq<byte>)
    requires |b| == 2
    ensures FromBigEndian(b) == Two(b, 0)
  {
    assert FromBigEndian(b[..1]) == b[0];
  }

  lemma ReadsMore(b: seq<byte>)
    requires |b| >= 2
    ensures FromBigEndian(b) == 0x1_0000 * FromBigEndian(b[..|b| - 2]) + Two(b, |b| - 2)
  {
    var init := b[..|b| - 1];
    assert init[..|init| - 1] == b[..|b| - 2];
  }

  lemma ReadsFour(b: seq<byte>)
    requires |b| == 4
    ensures FromBigEndian(b) == Four(b, 0)
  {
    ReadsMore(b);
    ReadsTwo(b[..2]);
  }

  lemma ReadsEight(b: seq<byte>)
    requires |b| == 8
    ensures FromBigEndian(b) == 0x1_0000_0000 * Four(b, 0) + Four(b, 4)
  {
    var six := b[..6];
    ReadsMore(b);
    ReadsMore(six);
    assert six[..4] == b[..4];
    ReadsFour(b[..4]);
  }

  lemma SpeltTwo(h: seq<byte>, k: nat, n: nat)
    requires n < U16 && k + 2 <= |h| && h[k..k + 2] == BigEndian(n, 2)
    ensures Two(h, k) == n
  {
    FieldWidths();
    BigEndianRoundTrip(n, 2);
    ReadsTwo(h[k..k + 2]);
  }

  lemma SpeltFour(h: seq<byte>, k: nat, n: nat)
    requires n < U32 && k + 4 <= |h| && h[k..k + 4] == BigEndian(n, 4)
    ensures Four(h, k) == n
  {
    FieldWidths();
    BigEndianRoundTrip(n, 4);
    ReadsFour(h[k..k + 4]);
  }

  lemma SpeltEight(h: seq<byte>, k: nat, n: nat)
    requires n < U64 && k + 8 <= |h| && h[k..k + 8] == BigEndian(n, 8)
    ensures 0x1_0000_0000 * Four(h, k) + Four(h, k + 4) == n
  {
    FieldWidths();
    BigEndianRoundTrip(n, 8);
    ReadsEight(h[k..k + 8]);
  }

  /** Byte by byte: the letters RE5G, version 1, and then, in network order, flow id, packet
      id, timestamp, link type, chunk index, chunk count and payload length. */
  lemma HeaderLayout(e: Envelope)
    requires Fits(e)
    ensures var h := Header(e);
      && h[0] == 'R' as int && h[1] == 'E' as int && h[2] == '5' as int && h[3] == 'G' as int && h[4] == 1
      && Four(h, 5) == e.flowId && Four(h, 9) == e.packetId
      && 0x1_0000_0000 * Four(h, 13) + Four(h, 17) == e.timestamp
      && Two(h, 21) == e.linktype && Two(h, 23) == e.chunkIndex && Two(h, 25) == e.chunkCount
      && Two(h, 27) == |e.payload|
  {
    var h := Header(e);
    HeaderSlices(e, []);
    assert h + [] == h;
    SpeltFour(h, 5, e.flowId);
    SpeltFour(h, 9, e.packetId);
    SpeltEight(h, 13, e.timestamp);
    SpeltTwo(h, 21, e.linktype);
    SpeltTwo(h, 23, e.chunkIndex);
    SpeltTwo(h, 25, e.chunkCount);
    SpeltTwo(h, 27, |e.payload|);
    assert h[..4] == MAGIC;
    assert h[0] == h[..4][0] && h[1] == h[..4][1] && h[2] == h[..4][2] && h[3] == h[..4][3];
  }

  // ------------------------------------------------------------------ sender

  /** The slices `payload[i:i+max]` for i = 0, max, 2*max, ... */
  function Slices(payload: seq<byte>, max: nat): (r: seq<seq<byte>>)
    requires max > 0
  {
    if |payload| == 0 then []
    else if |payload| <= max then [payload]
    else [payload[..max]] + Slices(payload[max..], max)
  }

  /** An empty packet still travels, as one empty chunk. */
  function ChunkPayloads(payload: seq<byte>, max: nat): (r: seq<seq<byte>>)
    requires max > 0
    ensures |r| > 0
  {
    if |payload| == 0 then [[]] else Slices(payload, max)
  }

  lemma {:induction false} SlicesCover(payload: seq<byte>, max: nat)
    requires max > 0
    ensures Flatten(Slices(payload, max)) == payload
    ensures forall i | 0 <= i < |Slices(payload, max)| :: 0 < |Slices(payload, max)[i]| <= max
    decreases |payload|
  {
    if |payload| > max {
      SlicesCover(payload[max..], max);
      FlattenConcat([payload[..max]], Slices(payload[max..], max));
      assert Flatten([payload[..max]]) == payload[..max];
    } else if |payload| > 0 {
      assert Slices(payload, max) == [payload];
    }
  }

  /** No byte is lost, repeated or moved by the split. */
  lemma ChunkPayloadsCover(payload: seq<byte>, max: nat)
    requires max > 0
    ensures Flatten(ChunkPayloads(payload, max)) == payload
    ensures forall i | 0 <= i < |ChunkPayloads(payload, max)| :: |ChunkPayloads(payload, max)[i]| <= max
  {
    SlicesCover(payload, max);
  }

  /** The fewest chunks that the limit allows: all but the last are full, and the last is
      empty only if the packet is. */
  lemma {:induction false} ChunksAreFull(payload: seq<byte>, max: nat)
    requires max > 0
    ensures var r := ChunkPayloads(payload, max);
      && (forall i | 0 <= i < |r| - 1 :: |r[i]| == max)
      && (r[|r| - 1] == [] <==> payload == []) && (payload == [] ==> |r| == 1)
    decreases |payload|
  {
    if |payload| > max {
      ChunksAreFull(payload[max..], max);
    }
  }

  /** Chunk number `i` of a packet. */
  function ChunkOf(p: Original, max: nat, i: nat): (e: Envelope)
    requires max > 0 && i < |ChunkPayloads(p.payload, max)|
  {
    var parts := ChunkPayloads(p.payload, max);
    Envelope(p.flowId % U32, p.packetId % U32, p.timestamp, p.linktype % U16, i, |parts|, parts[i])
  }

  /** The packet can be sent: it needs at most 65535 chunks of at most 65535 bytes. */
  predicate Sendable(p: Original, max: nat)
    requires max > 0
  {
    var parts := ChunkPayloads(p.payload, max);
    |parts| < U16 && forall i | 0 <= i < |parts| :: |parts[i]| < U16
  }

  lemma ScaledOrder(a: nat, b: nat, n: nat)
    ensures a <= b ==> a * n <= b * n
  {
    if a <= b {
      assert b * n == a * n + (b - a) * n;
    }
  }

  /** As many chunks as the payload takes at the limit, at least one. */
  lemma {:induction false} CountOfChunks(payload: seq<byte>, max: nat)
    requires max > 0 && payload != []
    ensures var n := |ChunkPayloads(payload, max)|; (n - 1) * max < |payload| <= n * max
    decreases |payload|
  {
    if |payload| > max {
      CountOfChunks(payload[max..], max);
      var n := |ChunkPayloads(payload[max..], max)|;
      assert (n + 1) * max == n * max + max && n * max == (n - 1) * max + max;
    }
  }

  /** A packet can be sent exactly when it is at most 65535 times the limit long and the
      limit, or the packet, is at most 65535 bytes. */
  lemma SendableIff(p: Original, max: nat)
    requires max > 0
    ensures Sendable(p, max) <==> |p.payload| <= 65535 * max && (max <= 65535 || |p.payload| <= 65535)
  {
    var parts := ChunkPayloads(p.payload, max);
    ChunkPayloadsCover(p.payload, max);
    ChunksAreFull(p.payload, max);
    if p.payload != [] {
      CountOfChunks(p.payload, max);
      ScaledOrder(|parts|, 65535, max);
      ScaledOrder(65535, |parts| - 1, max);
      OneChunk(p.payload, max);
    }
  }

  lemma OneChunk(payload: seq<byte>, max: nat)
    requires max > 0 && payload != []
    ensures |payload| <= max ==> ChunkPayloads(payload, max) == [payload]
    ensures |payload| > max ==> |ChunkPayloads(payload, max)| > 1
  {
    if |payload| > max {
      assert Slices(payload[max..], max) != [];
    }
  }

  function RawChunk(p: Original, max: nat, i: nat): (raw: seq<byte>)
    requires max > 0 && i < |ChunkPayloads(p.payload, max)|
  {
    Header(ChunkOf(p, max, i)) + ChunkPayloads(p.payload, max)[i]
  }

  lemma ParseRawChunk(p: Original, max: nat, i: nat)
    requires max > 0 && i < |ChunkPayloads(p.payload, max)| && Sendable(p, max)
    ensures ParseEnvelopeChunk(RawChunk(p, max, i)) == Some(ChunkOf(p, max, i))
  {
    var e := ChunkOf(p, max, i);
    ParsePrinted(e, []);
    assert Header(e) + e.payload + [] == RawChunk(p, max, i);
  }

  /** Ids that fit the 32-bit fields come out as they went in. */
  lemma ParsedIds(p: Original, max: nat, i: nat)
    requires max > 0 && i < |ChunkPayloads(p.payload, max)| && Sendable(p, max)
    requires 0 <= p.flowId < U32 && 0 <= p.packetId < U32
    ensures var e := ParseEnvelopeChunk(RawChunk(p, max, i));
      e.Some? && e.value.flowId == p.flowId && e.value.packetId == p.packetId
  {
    ParseRawChunk(p, max, i);
    var e := ChunkOf(p, max, i);
    assert e.flowId == p.flowId && e.packetId == p.packetId;
  }

  function SlicesFrom(payload: seq<byte>, i: nat, max: nat): (r: seq<seq<byte>>)
    requires max > 0
  {
    if i < |payload| then Slices(payload[i..], max) else []
  }

  lemma SlicesStep(payload: seq<byte>, i: nat, max: nat)
    requires max > 0 && i < |payload|
    ensures SlicesFrom(payload, i, max) == [payload[i..Lesser(i + max, |payload|)]] + SlicesFrom(payload, i + max, max)
  {
    if i + max < |payload| {
      assert payload[i..][..max] == payload[i..i + max];
      assert payload[i..][max..] == payload[i + max..];
    } else {
      assert payload[i..|payload|] == payload[i..];
    }
  }

  /** The comprehension over `range(0, len(payload), max)`. */
  method SplitPayload(payload: seq<byte>, max: nat) returns (parts: seq<seq<byte>>)
    requires max > 0
    ensures parts == ChunkPayloads(payload, max)
  {
    if |payload| == 0 {
      return [[]];
    }
    parts := [];
    var i := 0;
    assert payload[0..] == payload;
    while i < |payload|
      invariant 0 <= i
      invariant parts + SlicesFrom(payload, i, max) == Slices(payload, max)
      decreases |payload| - i
    {
      SlicesStep(payload, i, max);
      parts := parts + [payload[i..Lesser(i + max, |payload|)]];
      i := i + max;
    }
  }

  method BuildEnvelopeChunks(flowId: int, packetId: int, timestamp: Bits64, linktype: int,
                             payload: seq<byte>, maxChunkPayload: int)
    returns (r: BuildResult)
    ensures r.ValueError? <==> maxChunkPayload <= 0
    ensures maxChunkPayload > 0 ==>
      var p := Original(flowId, packetId, timestamp, linktype, payload);
      && (r.Built? <==> Sendable(p, maxChunkPayload))
      && (r.Built? ==>
            && |r.chunks| == |ChunkPayloads(payload, maxChunkPayload)|
            && forall i | 0 <= i < |r.chunks| :: r.chunks[i] == RawChunk(p, maxChunkPayload, i))
  {
    if maxChunkPayload <= 0 {
      return ValueError;
    }
    ghost var p := Original(flowId, packetId, timestamp, linktype, payload);
    var parts := SplitPayload(payload, maxChunkPayload);
    var out: seq<seq<byte>> := [];
    for idx := 0 to |parts|
      invariant |out| == idx
      invariant idx > 0 ==> |parts| < U16
      invariant forall i | 0 <= i < idx :: |parts[i]| < U16 && out[i] == RawChunk(p, maxChunkPayload, i)
    {
      var e := Envelope(flowId % U32, packetId % U32, timestamp, linktype % U16, idx, |parts|, parts[idx]);
      if |parts| >= U16 || |parts[idx]| >= U16 {
        return StructError; // struct.pack refuses a value wider than its "H" field
      }
      assert e == ChunkOf(p, maxChunkPayload, idx) && Fits(e);
      out := out + [Header(e) + parts[idx]];
    }
    return Built(out);
  }
}
