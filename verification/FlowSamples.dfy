/** `flow_samples.py`: planning the sampled blocks, writing them in one pass, and the
    interpolated percentile. */
module FlowSamples {
  import opened Prelude

  const WINDOW_SIZE: int := 10

  datatype Block = Block(start: int, end: int)

  /** `NoPackets`: the source holds no IPv4 packet. `ZeroDivision`: a cap below one window
      is applied to a positive block size, which makes it zero, and the division by it
      raises. */
  datatype Plan = NoPackets | ZeroDivision | Plan(size: int, blocks: seq<Block>)

  /** The random generator: block number and inclusive bounds to a draw. */
  type Rng = (int, int, int) -> int

  ghost predicate Draws(rng: Rng)
  {
    forall b, lo, hi | lo <= hi :: lo <= rng(b, lo, hi) <= hi
  }

  function BlockCount(target: int, total: int, numBlocks: int): (n: int)
    ensures n >= 1
  {
    Greater(1, Lesser(numBlocks, Lesser(target, total)))
  }

  /** The first block-size computation: whole windows of an even share. */
  function FirstSize(target: int, total: int, numBlocks: int): (size: int)
  {
    Lesser(target, total) / BlockCount(target, total, numBlocks) / WINDOW_SIZE * WINDOW_SIZE
  }

  /** The block size and the number of blocks that are planned. */
  datatype Shape = Shape(size: int, count: int)

  function PlannedShape(target: int, total: int, numBlocks: int, maxBlock: int): (s: Option<Shape>)
    ensures s.None? <==> 0 <= maxBlock < WINDOW_SIZE && FirstSize(target, total, numBlocks) > 0
    ensures s.Some? ==> s.value.count >= 1
  {
    var first := FirstSize(target, total, numBlocks);
    if first > maxBlock then
      var capped := maxBlock / WINDOW_SIZE * WINDOW_SIZE;
      if capped == 0 then None else Some(Shape(capped, Greater(1, Lesser(target, total) / capped)))
    else Some(Shape(if first == 0 then WINDOW_SIZE else first, BlockCount(target, total, numBlocks)))
  }

  /** Block `b` of the plan, for a draw inside its segment. */
  function PlannedBlock(total: int, s: Shape, rng: Rng, b: int): (r: Block)
    requires s.count >= 1
  {
    var segment := total / s.count;
    var from := b * segment;
    var to := if b == s.count - 1 then total else from + segment;
    var latest := Greater(from, to - s.size);
    var start := if latest > from then rng(b, from, latest) else from;
    Block(start, start + s.size)
  }

  function PlannedBlocks(total: int, s: Shape, rng: Rng): (r: seq<Block>)
    requires s.count >= 1
    ensures |r| == s.count && forall b | 0 <= b < s.count :: r[b] == PlannedBlock(total, s, rng, b)
  {
    seq(s.count, b requires 0 <= b < s.count => PlannedBlock(total, s, rng, b))
  }

  /** It raises exactly when a cap of less than one window meets a positive block size; a
      first size of zero escapes the cap. */
  method PlanBlocks(target: int, total: nat, numBlocks: int, maxBlock: int, rng: Rng) returns (r: Plan)
    ensures r.NoPackets? <==> total == 0
    ensures r.ZeroDivision? <==>
      total > 0 && 0 <= maxBlock < WINDOW_SIZE && FirstSize(target, total, numBlocks) > 0
    ensures r.Plan? ==> var s := PlannedShape(target, total, numBlocks, maxBlock).value;
      r.size == s.size && r.blocks == PlannedBlocks(total, s, rng)
  {
    if total == 0 {
      return NoPackets;
    }
    var take := Lesser(target, total);
    var count := Greater(1, Lesser(numBlocks, take));
    var size := take / count / WINDOW_SIZE * WINDOW_SIZE;
    if size > maxBlock {
      size := maxBlock / WINDOW_SIZE * WINDOW_SIZE;
      if size == 0 {
        return ZeroDivision;
      }
      count := Greater(1, take / size);
    }
    if size == 0 {
      size := WINDOW_SIZE;
    }
    ghost var s := Shape(size, count);
    assert PlannedShape(target, total, numBlocks, maxBlock) == Some(s);
    var blocks: seq<Block> := [];
    var segment := total / count;
    for b := 0 to count
      invariant |blocks| == b
      invariant forall k | 0 <= k < b :: blocks[k] == PlannedBlock(total, s, rng, k)
    {
      var from := b * segment;
      var to := if b == count - 1 then total else from + segment;
      var latest := Greater(from, to - size);
      var start := if latest > from then rng(b, from, latest) else from;
      blocks := blocks + [Block(start, start + size)];
    }
    assert blocks == PlannedBlocks(total, s, rng);
    return Plan(size, blocks);
  }

  /** A cap below one window need not raise: with a first size of zero it is not applied
      at all, and the blocks planned are larger than the cap. */
  lemma SmallCapEscapes()
    ensures PlannedShape(5, 100, 1, 5) == Some(Shape(10, 1)) && PlannedShape(30, 100, 5, 5) == Some(Shape(10, 5))
  {
  }

  // ------------------------------------------------------------ sound plans

  /** Blocks lie one after the other inside the source. */
  ghost predicate InOrder(blocks: seq<Block>, total: int)
  {
    && (forall b | 0 <= b < |blocks| :: 0 <= blocks[b].start < blocks[b].end <= total)
    && forall a, b | 0 <= a < b < |blocks| :: blocks[a].end <= blocks[b].start
  }

  lemma Quotient(a: int, b: int)
    requires b > 0
    ensures b * (a / b) <= a < b * (a / b) + b
    ensures a >= b ==> a / b >= 1
  {
  }

  /** Products of integers, where the solver needs them spelt out. */
  lemma Product(a: int, b: int, n: int)
    requires a <= b && n >= 0
    ensures a * n <= b * n
  {
  }

  lemma SegmentBounds(total: int, count: int, b: int)
    requires total >= 0 && 0 <= b < count
    ensures var segment := total / count;
      && 0 <= b * segment && (b + 1) * segment == b * segment + segment
      && (b + 1) * segment <= total && count * segment <= total
  {
    Quotient(total, count);
    var segment := total / count;
    Product(0, b, segment);
    Product(b + 1, count, segment);
  }

  /** A block stays inside its own segment whenever the segment can hold it. */
  lemma BlockInSegment(total: int, s: Shape, rng: Rng, b: int)
    requires Draws(rng) && total >= 0 && s.count >= 1 && 0 <= b < s.count && 0 < s.size <= total / s.count
    ensures var k, segment := PlannedBlock(total, s, rng, b), total / s.count;
      && b * segment <= k.start && k.end == k.start + s.size && k.end <= total
      && (b < s.count - 1 ==> k.end <= (b + 1) * segment)
  {
    SegmentBounds(total, s.count, b);
  }

  lemma SegmentsApart(total: int, count: int, a: int, b: int)
    requires total >= 0 && 0 <= a < b < count
    ensures (a + 1) * (total / count) <= b * (total / count)
  {
    Product(a + 1, b, total / count);
  }

  /** For any draws, the blocks are ordered, disjoint and inside the source exactly when a
      block fits its segment. */
  lemma PlanIsSoundIff(total: int, s: Shape, rng: Rng)
    requires Draws(rng) && total > 0 && s.size > 0 && s.count >= 1
    ensures InOrder(PlannedBlocks(total, s, rng), total) <==> s.size <= total / s.count
  {
    var blocks, segment := PlannedBlocks(total, s, rng), total / s.count;
    if s.size <= segment {
      forall b | 0 <= b < |blocks| ensures 0 <= blocks[b].start < blocks[b].end <= total {
        SegmentBounds(total, s.count, b);
        BlockInSegment(total, s, rng, b);
      }
      forall a, b | 0 <= a < b < |blocks| ensures blocks[a].end <= blocks[b].start {
        BlockInSegment(total, s, rng, a);
        BlockInSegment(total, s, rng, b);
        SegmentsApart(total, s.count, a, b);
      }
    } else {
      SegmentBounds(total, s.count, 0);
      if s.count == 1 {
        assert segment == total;
        assert blocks[0] == Block(0, s.size);
      } else {
        TightSegment(total, s, rng);
        assert blocks[0].end == s.size && blocks[1].start == segment;
      }
    }
  }

  lemma TightSegment(total: int, s: Shape, rng: Rng)
    requires total > 0 && s.count >= 2 && s.size > total / s.count
    ensures PlannedBlock(total, s, rng, 0) == Block(0, s.size)
    ensures PlannedBlock(total, s, rng, 1).start == total / s.count
  {
    var segment := total / s.count;
    if s.count == 2 {
      assert total < 2 * segment + 2;
    }
  }

  lemma FitsSegment(size: int, count: int, total: int)
    requires size > 0 && count >= 1 && size * count <= total
    ensures size <= total / count
  {
    var q := total / count;
    Quotient(total, count);
    assert (q + 1) * count == count * q + count;
    if q + 1 <= size {
      Product(q + 1, size, count);
    }
  }

  lemma WholeWindows(x: int)
    ensures var w := x / WINDOW_SIZE * WINDOW_SIZE;
      w <= x && w % WINDOW_SIZE == 0 && (x >= WINDOW_SIZE ==> w >= WINDOW_SIZE)
  {
  }

  lemma ShareFits(take: int, n: int, size: int)
    requires n >= 1 && 0 < size <= take / n
    ensures size * n <= take && size <= take
  {
    Quotient(take, n);
    Product(size, take / n, n);
    Product(1, n, size);
  }

  lemma CappedFits(take: int, capped: int)
    requires 0 < capped <= take
    ensures Greater(1, take / capped) * capped <= take && capped * Greater(1, take / capped) <= take
  {
    Quotient(take, capped);
    assert take / capped * capped == capped * (take / capped);
  }

  /** Whenever the first block-size computation is positive and the cap admits a window:
      whole windows, none above the cap, every segment holds its block, and the blocks
      together plan at most the packets asked for and available. */
  lemma PlanFits(target: int, total: int, numBlocks: int, maxBlock: nat)
    requires total > 0 && maxBlock >= WINDOW_SIZE && FirstSize(target, total, numBlocks) > 0
    ensures var s := PlannedShape(target, total, numBlocks, maxBlock);
      && s.Some? && s.value.count >= 1
      && 0 < s.value.size <= maxBlock && s.value.size % WINDOW_SIZE == 0
      && s.value.size * s.value.count <= Lesser(target, total)
      && s.value.size <= total / s.value.count
  {
    var take, n := Lesser(target, total), BlockCount(target, total, numBlocks);
    var first := FirstSize(target, total, numBlocks);
    WholeWindows(take / n);
    WholeWindows(maxBlock);
    if first > maxBlock {
      var capped := maxBlock / WINDOW_SIZE * WINDOW_SIZE;
      ShareFits(take, n, first);
      CappedFits(take, capped);
      FitsSegment(capped, Greater(1, take / capped), total);
    } else {
      ShareFits(take, n, first);
      FitsSegment(first, n, total);
    }
  }

  lemma WholeWindowsMost(x: int)
    requires x >= 0
    ensures var w := x / WINDOW_SIZE * WINDOW_SIZE; 0 <= w <= x < w + 10 && w % 10 == 0
  {
  }

  lemma OneMoreIsTooMuch(take: int, n: int)
    requires n > 0
    ensures take < n * (take / n + 1)
  {
    Quotient(take, n);
    assert n * (take / n + 1) == n * (take / n) + n;
  }

  /** And it plans as much as it can: below the cap, as many blocks as asked for and
      available, and no window longer would fit them all; at the cap, blocks within a window
      of it, and no block more would fit. */
  lemma PlanIsLargest(target: int, total: int, numBlocks: int, maxBlock: nat)
    requires total > 0 && maxBlock >= WINDOW_SIZE && FirstSize(target, total, numBlocks) > 0
    ensures var s, take := PlannedShape(target, total, numBlocks, maxBlock).value, Lesser(target, total);
      if FirstSize(target, total, numBlocks) <= maxBlock
      then s.count == Greater(1, Lesser(numBlocks, take)) && take < s.count * (s.size + 10)
      else maxBlock < s.size + 10 && take < s.size * (s.count + 1)
  {
    var take, n := Lesser(target, total), BlockCount(target, total, numBlocks);
    PlanFits(target, total, numBlocks, maxBlock);
    if FirstSize(target, total, numBlocks) <= maxBlock {
      ShareIsLargest(take, n);
    } else {
      CapIsLargest(take, n, maxBlock);
    }
  }

  lemma ShareIsLargest(take: int, n: int)
    requires n >= 1 && take / n / WINDOW_SIZE * WINDOW_SIZE > 0
    ensures take < n * (take / n / WINDOW_SIZE * WINDOW_SIZE + 10)
  {
    var share := take / n;
    FirstSizePositive(share);
    WholeWindowsMost(share);
    OneMoreIsTooMuch(take, n);
    Product(share + 1, share / WINDOW_SIZE * WINDOW_SIZE + 10, n);
  }

  lemma CapIsLargest(take: int, n: int, maxBlock: nat)
    requires n >= 1 && maxBlock >= WINDOW_SIZE && take / n / WINDOW_SIZE * WINDOW_SIZE > maxBlock
    ensures var capped := maxBlock / WINDOW_SIZE * WINDOW_SIZE;
      capped > 0 && maxBlock < capped + 10 && take < capped * (Greater(1, take / capped) + 1)
  {
    var capped := maxBlock / WINDOW_SIZE * WINDOW_SIZE;
    WholeWindowsMost(maxBlock);
    ShareFits(take, n, take / n / WINDOW_SIZE * WINDOW_SIZE);
    OneMoreIsTooMuch(take, capped);
    Quotient(take, capped);
  }

  lemma FirstSizePositive(share: int)
    requires share / WINDOW_SIZE * WINDOW_SIZE > 0
    ensures share >= 0
  {
  }

  /** Every start that keeps a block inside its segment is drawn by some generator. */
  lemma EveryStartPossible(total: nat, s: Shape, b: nat, start: int) returns (rng: Rng)
    requires s.count >= 1 && b < s.count && 0 < s.size
    requires var segment := total / s.count;
      b * segment <= start && start + s.size <= if b == s.count - 1 then total else b * segment + segment
    ensures Draws(rng) && PlannedBlock(total, s, rng, b) == Block(start, start + s.size)
  {
    rng := (k: int, lo: int, hi: int) => if lo <= start <= hi then start else lo;
  }

  /** When the first computation gives zero the fallback of one window per block plans
      more packets than were to be taken. */
  lemma FallbackPlan(target: int, total: int, numBlocks: int, maxBlock: nat)
    requires total > 0 && FirstSize(target, total, numBlocks) == 0
    ensures var s := PlannedShape(target, total, numBlocks, maxBlock);
      && s == Some(Shape(WINDOW_SIZE, BlockCount(target, total, numBlocks)))
      && s.value.size * s.value.count > Lesser(target, total)
  {
    var take, n := Lesser(target, total), BlockCount(target, total, numBlocks);
    var q := take / n;
    Quotient(take, n);
    assert q < 10;
    assert (q + 1) * n == n * q + n;
    Product(q + 1, 10, n);
  }

  // ------------------------------------------------------------ one-pass writer

  datatype Raw = Raw(isIp: bool)

  /** How many IPv4 packets are among the first `n` of the source. */
  function IpCount(source: seq<Raw>, n: nat): (k: nat)
    requires n <= |source|
  {
    if n == 0 then 0 else IpCount(source, n - 1) + if source[n - 1].isIp then 1 else 0
  }

  /** The read cap; zero means none. */
  function ReadLimit(source: seq<Raw>, maxPackets: nat): (n: nat)
    ensures n <= |source|
  {
    if maxPackets != 0 && maxPackets < |source| then maxPackets else |source|
  }

  /** The first packet of a block that starts exactly where the previous one ends. */
  predicate Seam(blocks: seq<Block>, b: int)
  {
    0 < b < |blocks| && blocks[b].start == blocks[b - 1].end
  }

  predicate Holds(blocks: seq<Block>, b: int, k: int)
  {
    0 <= b < |blocks| && blocks[b].start <= k < blocks[b].end && !(Seam(blocks, b) && k == blocks[b].start)
  }

  /** IPv4 packet `k` is written: it lies in a block and is not lost at a seam. */
  predicate Kept(blocks: seq<Block>, k: int)
  {
    exists b | 0 <= b < |blocks| :: Holds(blocks, b, k)
  }

  /** The packets to be written among the first `n`, in source order. */
  function Selected(blocks: seq<Block>, n: nat): (r: seq<nat>)
  {
    if n == 0 then [] else Selected(blocks, n - 1) + if Kept(blocks, n - 1) then [n - 1] else []
  }

  /** The pass: what is written so far, and the block it waits for. */
  datatype Pass = Pass(written: seq<nat>, block: nat)

  /** IPv4 packet `k` goes by. A packet that ends a block is not looked at again. */
  function Advance(blocks: seq<Block>, s: Pass, k: nat): (r: Pass)
  {
    if s.block >= |blocks| then s
    else if blocks[s.block].start <= k < blocks[s.block].end then s.(written := s.written + [k])
    else if k >= blocks[s.block].end then s.(block := s.block + 1)
    else s
  }

  /** The pass after `n` IPv4 packets, for blocks planned in any way. */
  function PassOver(blocks: seq<Block>, n: nat): (s: Pass)
  {
    if n == 0 then Pass([], 0) else Advance(blocks, PassOver(blocks, n - 1), n - 1)
  }

  function Written(blocks: seq<Block>, n: nat): (r: seq<nat>)
  {
    PassOver(blocks, n).written
  }

  predicate InSomeBlock(blocks: seq<Block>, k: nat)
  {
    exists b :: 0 <= b < |blocks| && blocks[b].start <= k < blocks[b].end
  }

  /** Whatever the blocks, overlapping ones included: packets of blocks only, in source
      order, none twice. */
  lemma {:induction false} WrittenOnce(blocks: seq<Block>, n: nat)
    ensures var w := Written(blocks, n);
      && |w| <= n
      && (forall i | 0 <= i < |w| :: w[i] < n && InSomeBlock(blocks, w[i]))
      && forall i, j | 0 <= i < j < |w| :: w[i] < w[j]
    decreases n
  {
    if n > 0 {
      WrittenOnce(blocks, n - 1);
    }
  }

  /** Blocks below `j` are over, block `j` is not. */
  ghost predicate AtBlock(blocks: seq<Block>, j: nat, seen: nat)
  {
    && j <= |blocks|
    && (forall b | 0 <= b < j :: blocks[b].end < seen)
    && (j < |blocks| ==> seen <= blocks[j].end)
  }

  lemma KeptNow(blocks: seq<Block>, total: int, j: nat, k: nat)
    requires InOrder(blocks, total) && AtBlock(blocks, j, k)
    ensures j < |blocks| ==> (Kept(blocks, k) <==> blocks[j].start <= k < blocks[j].end)
    ensures j == |blocks| ==> !Kept(blocks, k)
    ensures j < |blocks| ==> AtBlock(blocks, if k >= blocks[j].end then j + 1 else j, k + 1)
  {
    forall b | 0 <= b < |blocks| && Holds(blocks, b, k) ensures b == j {
    }
    if j < |blocks| && blocks[j].start <= k < blocks[j].end {
      assert j > 0 ==> blocks[j - 1].end < k;
      assert Holds(blocks, j, k);
    }
    if j + 1 < |blocks| {
      assert blocks[j].end <= blocks[j + 1].start;
    }
  }

  lemma {:induction false} PassKeeps(blocks: seq<Block>, total: int, n: nat)
    requires InOrder(blocks, total)
    ensures AtBlock(blocks, PassOver(blocks, n).block, n) && Written(blocks, n) == Selected(blocks, n)
    decreases n
  {
    if n > 0 {
      PassKeeps(blocks, total, n - 1);
      KeptNow(blocks, total, PassOver(blocks, n - 1).block, n - 1);
    }
  }

  /** Of ordered disjoint blocks, exactly their packets are written, less the first packet
      of each block that starts where the previous one ends. */
  lemma InOrderWritten(blocks: seq<Block>, total: int, n: nat)
    requires InOrder(blocks, total)
    ensures Written(blocks, n) == Selected(blocks, n)
  {
    PassKeeps(blocks, total, n);
  }

  lemma {:induction false} PassIsOver(blocks: seq<Block>, m: nat, n: nat)
    requires m <= n && PassOver(blocks, m).block >= |blocks|
    ensures PassOver(blocks, n) == PassOver(blocks, m)
    decreases n
  {
    if m < n {
      PassIsOver(blocks, m, n - 1);
    }
  }

  /** One pass over the source, under any read cap and for any blocks. */
  method WriteBlocks(source: seq<Raw>, maxPackets: nat, blocks: seq<Block>) returns (written: seq<nat>)
    ensures written == Written(blocks, IpCount(source, ReadLimit(source, maxPackets)))
  {
    written := [];
    var ipSeen, blockIdx := 0, 0;
    ghost var limit := ReadLimit(source, maxPackets);
    for i := 0 to |source|
      invariant i <= limit && ipSeen == IpCount(source, i)
      invariant PassOver(blocks, ipSeen) == Pass(written, blockIdx)
    {
      if maxPackets != 0 && i >= maxPackets {
        return;
      }
      if source[i].isIp {
        if blockIdx < |blocks| {
          if blocks[blockIdx].start <= ipSeen < blocks[blockIdx].end {
            written := written + [ipSeen];
          } else if ipSeen >= blocks[blockIdx].end {
            blockIdx := blockIdx + 1;
          }
        }
        ipSeen := ipSeen + 1;
        if blockIdx >= |blocks| {
          IpCountGrows(source, i + 1, limit);
          PassIsOver(blocks, ipSeen, IpCount(source, limit));
          return;
        }
      }
    }
  }

  lemma {:induction false} IpCountGrows(source: seq<Raw>, m: nat, n: nat)
    requires m <= n <= |source|
    ensures IpCount(source, m) <= IpCount(source, n)
    decreases n
  {
    if m < n {
      IpCountGrows(source, m, n - 1);
    }
  }

  /** Frame `i` is an IPv4 packet that the cap lets through; a cap of zero lets all through. */
  predicate Readable(source: seq<Raw>, maxPackets: nat, i: int)
  {
    0 <= i < |source| && source[i].isIp && (maxPackets == 0 || i < maxPackets)
  }

  function ReadableBelow(source: seq<Raw>, maxPackets: nat, n: nat): (s: set<int>)
  {
    set i | 0 <= i < n && Readable(source, maxPackets, i)
  }

  lemma {:induction false} IpCountAre(source: seq<Raw>, maxPackets: nat, n: nat)
    requires n <= ReadLimit(source, maxPackets)
    ensures IpCount(source, n) == |ReadableBelow(source, maxPackets, n)|
    decreases n
  {
    if n == 0 {
      assert ReadableBelow(source, maxPackets, n) == {};
    } else {
      IpCountAre(source, maxPackets, n - 1);
      assert ReadableBelow(source, maxPackets, n)
          == ReadableBelow(source, maxPackets, n - 1) + if source[n - 1].isIp then {n - 1} else {};
    }
  }

  /** The pass looks at exactly the IPv4 packets among the frames the cap admits. */
  lemma ReadableCounted(source: seq<Raw>, maxPackets: nat)
    ensures IpCount(source, ReadLimit(source, maxPackets)) == |ReadableBelow(source, maxPackets, |source|)|
  {
    IpCountAre(source, maxPackets, ReadLimit(source, maxPackets));
    assert ReadableBelow(source, maxPackets, ReadLimit(source, maxPackets))
        == ReadableBelow(source, maxPackets, |source|);
  }

  // ------------------------------------------------------------ how many

  function Planned(blocks: seq<Block>): (n: int)
  {
    if blocks == [] then 0
    else Planned(blocks[..|blocks| - 1]) + blocks[|blocks| - 1].end - blocks[|blocks| - 1].start
  }

  function Seams(blocks: seq<Block>, n: nat): (k: nat)
    requires n <= |blocks|
  {
    if n == 0 then 0 else Seams(blocks, n - 1) + if Seam(blocks, n - 1) then 1 else 0
  }

  ghost predicate Ends(blocks: seq<Block>, n: int)
  {
    forall b | 0 <= b < |blocks| :: blocks[b].end <= n
  }

  lemma {:induction false} NoneKeptBeyond(blocks: seq<Block>, seen: nat, n: nat)
    requires Ends(blocks, seen) && seen <= n
    ensures Selected(blocks, n) == Selected(blocks, seen)
    decreases n
  {
    if seen < n {
      var k := n - 1;
      NoneKeptBeyond(blocks, seen, k);
      assert forall b | 0 <= b < |blocks| :: !Holds(blocks, b, k);
    }
  }

  lemma {:induction false} LastBlockComesLater(blocks: seq<Block>, total: int, n: nat)
    requires InOrder(blocks, total) && blocks != [] && n <= blocks[|blocks| - 1].start
    ensures Selected(blocks, n) == Selected(blocks[..|blocks| - 1], n)
    decreases n
  {
    if n > 0 {
      var init, k := blocks[..|blocks| - 1], n - 1;
      LastBlockComesLater(blocks, total, n - 1);
      assert forall b | 0 <= b < |init| :: Holds(blocks, b, k) == Holds(init, b, k);
      assert !Holds(blocks, |blocks| - 1, k);
    }
  }

  lemma {:induction false} LastBlockAdds(blocks: seq<Block>, total: int, n: nat)
    requires InOrder(blocks, total) && blocks != []
    requires var last := blocks[|blocks| - 1]; last.start <= n <= last.end
    ensures var last := blocks[|blocks| - 1];
      |Selected(blocks, n)| == |Selected(blocks, last.start)| + n - last.start
                               - if Seam(blocks, |blocks| - 1) && n > last.start then 1 else 0
    decreases n
  {
    var b := |blocks| - 1;
    if n > blocks[b].start {
      var k := n - 1;
      LastBlockAdds(blocks, total, k);
      forall c | 0 <= c < b ensures !Holds(blocks, c, k) {
        assert blocks[c].end <= blocks[b].start;
      }
      assert Kept(blocks, k) <==> Holds(blocks, b, k);
    }
  }

  /** The one-pass count: what is written is what was planned, less one packet for every
      block that starts exactly where the previous one ends. */
  lemma {:induction false} WrittenCount(blocks: seq<Block>, total: nat)
    requires InOrder(blocks, total)
    ensures |Selected(blocks, total)| == Planned(blocks) - Seams(blocks, |blocks|)
    decreases |blocks|
  {
    if blocks == [] {
      NoneKeptBeyond(blocks, 0, total);
    } else {
      var init, last := blocks[..|blocks| - 1], blocks[|blocks| - 1];
      assert forall a | 0 <= a < |init| :: blocks[a].end <= last.start;
      WrittenCount(init, last.start);
      SeamsPrefix(blocks, |init|);
      LastBlockComesLater(blocks, total, last.start);
      LastBlockAdds(blocks, total, last.end);
      NoneKeptBeyond(blocks, last.end, total);
    }
  }

  lemma {:induction false} SeamsPrefix(blocks: seq<Block>, n: nat)
    requires n < |blocks|
    ensures Seams(blocks[..|blocks| - 1], n) == Seams(blocks, n)
    decreases n
  {
    if n > 0 {
      SeamsPrefix(blocks, n - 1);
    }
  }

  lemma {:induction false} PlannedEqual(blocks: seq<Block>, size: int)
    requires forall b | 0 <= b < |blocks| :: blocks[b].end == blocks[b].start + size
    ensures Planned(blocks) == size * |blocks|
    decreases |blocks|
  {
    if blocks != [] {
      PlannedEqual(blocks[..|blocks| - 1], size);
      assert size * |blocks| == size * (|blocks| - 1) + size;
    }
  }

  /** What a sound plan writes, for any draws: the planned packets less the seams. */
  lemma DrawWrites(total: nat, s: Shape, rng: Rng)
    requires Draws(rng) && total > 0 && s.count >= 1 && 0 < s.size <= total / s.count
    ensures var blocks := PlannedBlocks(total, s, rng);
      && InOrder(blocks, total)
      && |Written(blocks, total)| == s.size * s.count - Seams(blocks, s.count)
      && Seams(blocks, s.count) <= s.count - 1
  {
    var blocks := PlannedBlocks(total, s, rng);
    PlanIsSoundIff(total, s, rng);
    PlannedEqual(blocks, s.size);
    InOrderWritten(blocks, total, total);
    WrittenCount(blocks, total);
    SeamsAtMost(blocks, s.count);
  }

  /** Planning and writing together, for any draws: when the first block size is positive
      the sample holds the planned packets less the seams, and never more than were
      asked for or available. */
  lemma SampleSize(target: int, total: nat, numBlocks: int, maxBlock: nat, rng: Rng)
    requires Draws(rng) && total > 0 && maxBlock >= WINDOW_SIZE && FirstSize(target, total, numBlocks) > 0
    ensures var s := PlannedShape(target, total, numBlocks, maxBlock).value;
      var blocks := PlannedBlocks(total, s, rng);
      && InOrder(blocks, total)
      && |Written(blocks, total)| == s.size * s.count - Seams(blocks, s.count) <= Lesser(target, total)
  {
    PlanFits(target, total, numBlocks, maxBlock);
    DrawWrites(total, PlannedShape(target, total, numBlocks, maxBlock).value, rng);
  }

  // ------------------------------------------------------------ packets lost at seams

  lemma {:induction false} SeamsAtMost(blocks: seq<Block>, n: nat)
    requires n <= |blocks|
    ensures Seams(blocks, n) <= if n == 0 then 0 else n - 1
    decreases n
  {
    if n > 0 {
      SeamsAtMost(blocks, n - 1);
    }
  }

  lemma {:induction false} AllSeams(blocks: seq<Block>, m: nat, n: nat)
    requires m <= n <= |blocks| && forall b | 1 <= b < m :: Seam(blocks, b)
    ensures Seams(blocks, n) >= if m == 0 then 0 else m - 1
    decreases n
  {
    if n > 0 {
      AllSeams(blocks, if m < n then m else n - 1, n - 1);
    }
  }

  lemma {:induction false} OneSeam(blocks: seq<Block>, b: nat, n: nat)
    requires b < n <= |blocks| && Seam(blocks, b)
    ensures Seams(blocks, n) >= 1
    decreases n
  {
    if b < n - 1 {
      OneSeam(blocks, b, n - 1);
    }
  }

  /** A block as long as its segment fills it, whatever is drawn. */
  lemma FilledSegment(total: int, s: Shape, rng: Rng, b: int)
    requires total > 0 && 0 <= b < s.count && 0 < s.size == total / s.count
    requires b < s.count - 1 || s.size * s.count == total
    ensures PlannedBlock(total, s, rng, b) == Block(b * s.size, b * s.size + s.size)
  {
    if b == s.count - 1 {
      assert b * s.size + s.size == s.size * s.count;
    }
  }

  lemma NextTo(b: int, size: int)
    ensures (b - 1) * size + size == b * size
  {
  }

  /** Blocks as long as their segments lose, on every draw, one packet for each of them
      but two; and one for each but the first when they fill the source. */
  lemma FullSegmentsLose(total: nat, s: Shape, rng: Rng)
    requires Draws(rng) && total > 0 && s.count >= 1 && 0 < s.size == total / s.count
    ensures var blocks := PlannedBlocks(total, s, rng);
      && |Written(blocks, total)| <= s.size * s.count - (s.count - 2)
      && (s.size * s.count == total ==> |Written(blocks, total)| == total - (s.count - 1))
  {
    var blocks := PlannedBlocks(total, s, rng);
    DrawWrites(total, s, rng);
    var filled := if s.size * s.count == total then s.count else s.count - 1;
    forall b | 1 <= b < filled ensures Seam(blocks, b) {
      FilledSegment(total, s, rng, b - 1);
      FilledSegment(total, s, rng, b);
      NextTo(b, s.size);
    }
    AllSeams(blocks, filled, s.count);
  }

  /** The defaults on a source of exactly a thousand IPv4 packets: five blocks of two
      hundred, and 996 packets written, whatever is drawn. */
  lemma ThousandLosesFour(rng: Rng)
    requires Draws(rng)
    ensures PlannedShape(1000, 1000, 5, 1000) == Some(Shape(200, 5))
    ensures |Written(PlannedBlocks(1000, Shape(200, 5), rng), 1000)| == 996
  {
    FullSegmentsLose(1000, Shape(200, 5), rng);
  }

  /** The draws that put the first block at the end of its segment and every other block
      at the start of its own. */
  function TouchingRng(): (rng: Rng)
  {
    (b, lo, hi) => if b == 0 then hi else lo
  }

  lemma TouchingSeam(total: nat, s: Shape)
    requires total > 0 && s.count >= 2 && 0 < s.size <= total / s.count
    ensures Draws(TouchingRng()) && Seams(PlannedBlocks(total, s, TouchingRng()), s.count) >= 1
  {
    var blocks, segment := PlannedBlocks(total, s, TouchingRng()), total / s.count;
    SegmentBounds(total, s.count, 1);
    assert blocks[0] == Block(segment - s.size, segment);
    assert blocks[1].start == segment by {
      BlockInSegment(total, s, TouchingRng(), 1);
    }
    OneSeam(blocks, 1, s.count);
  }

  ghost predicate AlwaysWhole(total: nat, s: Shape)
    requires s.count >= 1
  {
    forall rng | Draws(rng) :: |Written(PlannedBlocks(total, s, rng), total)| == s.size * s.count
  }

  /** Blocks that do not fit their segments plan more packets than there are. */
  lemma PlansTooMuch(total: nat, s: Shape)
    requires s.count >= 1 && s.size > total / s.count
    ensures s.size * s.count > total
  {
    var q := total / s.count;
    Quotient(total, s.count);
    assert (q + 1) * s.count == s.count * q + s.count;
    Product(q + 1, s.size, s.count);
  }

  /** Whatever shape is planned: every packet planned is written on every draw exactly
      when there is a single block and the source is long enough for it. */
  lemma AllWrittenIff(total: nat, s: Shape)
    requires total > 0 && s.count >= 1 && s.size > 0
    ensures AlwaysWhole(total, s) <==> s.count == 1 && s.size <= total
  {
    if s.size > total / s.count {
      PlansTooMuch(total, s);
      WrittenOnce(PlannedBlocks(total, s, TouchingRng()), total);
    } else if s.count == 1 {
      forall rng | Draws(rng) ensures |Written(PlannedBlocks(total, s, rng), total)| == s.size * s.count {
        DrawWrites(total, s, rng);
      }
    } else {
      TouchingSeam(total, s);
      DrawWrites(total, s, TouchingRng());
    }
  }

  // ------------------------------------------------------------ percentiles

  predicate Sorted(xs: seq<real>)
  {
    forall i, j | 0 <= i < j < |xs| :: xs[i] <= xs[j]
  }

  // Products of reals, by name: the laws below are all the arithmetic the statistics need.

  function Times(a: real, b: real): (r: real) { a * b }

  lemma TimesUnits(c: real)
    ensures Times(0.0, c) == 0.0 == Times(c, 0.0) && Times(1.0, c) == c == Times(c, 1.0)
  {
  }

  lemma TimesSign(d: real, c: real)
    requires d >= 0.0 && c >= 0.0
    ensures Times(d, c) >= 0.0 && (d > 0.0 && c > 0.0 ==> Times(d, c) > 0.0)
  {
  }

  lemma TimesDistributes(a: real, b: real, c: real)
    ensures Times(b - a, c) == Times(b, c) - Times(a, c) == Times(c, b) - Times(c, a)
  {
  }

  lemma TimesLess(a: real, b: real, c: real)
    requires a <= b && c >= 0.0
    ensures Times(a, c) <= Times(b, c) && Times(c, a) <= Times(c, b)
    ensures a < b && c > 0.0 ==> Times(a, c) < Times(b, c)
  {
    TimesSign(b - a, c);
    TimesDistributes(a, b, c);
  }

  /** `a + (b - a) * f`. */
  function Blend(a: real, b: real, f: real): (r: real)
  {
    a + Times(b - a, f)
  }

  /** Linear interpolation at a fractional index. */
  function Interpolated(xs: seq<real>, idx: real): (r: real)
    requires |xs| > 0 && 0.0 <= idx <= (|xs| - 1) as real
  {
    var lo := idx.Floor;
    var hi := if lo + 1 <= |xs| - 1 then lo + 1 else |xs| - 1;
    Blend(xs[lo], xs[hi], idx - lo as real)
  }

  function IndexAt(n: nat, p: real): (idx: real)
    requires n > 0
  {
    Times(p / 100.0, (n - 1) as real)
  }

  lemma IndexInRange(n: nat, p: real)
    requires n > 0 && 0.0 <= p <= 100.0
    ensures 0.0 <= IndexAt(n, p) <= (n - 1) as real
    ensures IndexAt(n, 0.0) == 0.0 && IndexAt(n, 100.0) == (n - 1) as real
  {
    TimesUnits((n - 1) as real);
    TimesLess(0.0, p / 100.0, (n - 1) as real);
    TimesLess(p / 100.0, 1.0, (n - 1) as real);
  }

  function Percentile(xs: seq<real>, p: real): (r: real)
  {
    if |xs| == 0 then 0.0
    else if p <= 0.0 then xs[0]
    else if p >= 100.0 then xs[|xs| - 1]
    else
      IndexInRange(|xs|, p);
      Interpolated(xs, IndexAt(|xs|, p))
  }

  lemma Between(a: real, b: real, f: real, g: real)
    requires a <= b && 0.0 <= f <= g <= 1.0
    ensures a <= Blend(a, b, f) <= Blend(a, b, g) <= b
  {
    TimesUnits(b - a);
    TimesLess(0.0, f, b - a);
    TimesLess(f, g, b - a);
    TimesLess(g, 1.0, b - a);
  }

  lemma InterpolatedBetween(xs: seq<real>, idx: real)
    requires |xs| > 0 && Sorted(xs) && 0.0 <= idx <= (|xs| - 1) as real
    ensures var lo := idx.Floor; var hi := if lo + 1 <= |xs| - 1 then lo + 1 else |xs| - 1;
      xs[lo] <= Interpolated(xs, idx) <= xs[hi]
  {
    var lo := idx.Floor;
    var hi := if lo + 1 <= |xs| - 1 then lo + 1 else |xs| - 1;
    Between(xs[lo], xs[hi], idx - lo as real, idx - lo as real);
  }

  lemma InterpolatedMonotone(xs: seq<real>, x: real, y: real)
    requires |xs| > 0 && Sorted(xs) && 0.0 <= x <= y <= (|xs| - 1) as real
    ensures Interpolated(xs, x) <= Interpolated(xs, y)
  {
    var lo := x.Floor;
    if lo == y.Floor {
      var hi := if lo + 1 <= |xs| - 1 then lo + 1 else |xs| - 1;
      Between(xs[lo], xs[hi], x - lo as real, y - lo as real);
    } else {
      InterpolatedBetween(xs, x);
      InterpolatedBetween(xs, y);
      assert lo + 1 <= y.Floor;
    }
  }

  lemma IndexMonotone(n: nat, p: real, q: real)
    requires n > 0 && p <= q
    ensures IndexAt(n, p) <= IndexAt(n, q)
  {
    TimesLess(p / 100.0, q / 100.0, (n - 1) as real);
  }

  function Clamp(p: real): (c: real)
  {
    if p <= 0.0 then 0.0 else if p >= 100.0 then 100.0 else p
  }

  /** Outside 0..100 the percentile is what interpolation gives at the nearer end. */
  lemma Clamped(xs: seq<real>, p: real)
    requires |xs| > 0
    ensures 0.0 <= IndexAt(|xs|, Clamp(p)) <= (|xs| - 1) as real
    ensures Percentile(xs, p) == Interpolated(xs, IndexAt(|xs|, Clamp(p)))
  {
    var n := |xs|;
    IndexInRange(n, Clamp(p));
    if p >= 100.0 {
      assert ((n - 1) as real).Floor == n - 1;
      TimesUnits(xs[n - 1] - xs[n - 1]);
    } else if p <= 0.0 {
      assert (0.0).Floor == 0;
      TimesUnits(xs[if 1 <= n - 1 then 1 else n - 1] - xs[0]);
    }
  }

  /** The percentile of a sorted list never decreases in p, over the whole line, and
      between 0 and 100 it lies between the two samples around its index. */
  lemma PercentileMonotone(xs: seq<real>, p: real, q: real)
    requires |xs| > 0 && Sorted(xs) && p <= q
    ensures Percentile(xs, p) <= Percentile(xs, q)
    ensures 0.0 < p < 100.0 ==>
      var lo := IndexAt(|xs|, p).Floor; var hi := if lo + 1 <= |xs| - 1 then lo + 1 else |xs| - 1;
      0 <= lo <= hi < |xs| && xs[lo] <= Percentile(xs, p) <= xs[hi]
  {
    var n := |xs|;
    Clamped(xs, p);
    Clamped(xs, q);
    IndexMonotone(n, Clamp(p), Clamp(q));
    InterpolatedMonotone(xs, IndexAt(n, Clamp(p)), IndexAt(n, Clamp(q)));
    InterpolatedBetween(xs, IndexAt(n, Clamp(p)));
  }

  /** At the k-th of the n-1 equal steps from 0 to 100 the percentile is the k-th sample. */
  lemma PercentileAtSample(xs: seq<real>, k: nat)
    requires k < |xs| && |xs| > 1
    ensures Percentile(xs, 100.0 * k as real / (|xs| - 1) as real) == xs[k]
  {
    var n, p := |xs|, 100.0 * k as real / (|xs| - 1) as real;
    SamplePlace(n, k);
    Clamped(xs, p);
    IndexUnclamped(n, p, k as real);
    TimesUnits(xs[if k + 1 <= n - 1 then k + 1 else n - 1] - xs[k]);
    assert (k as real).Floor == k;
  }

  lemma SamplePlace(n: nat, k: nat)
    requires k < n && n > 1
    ensures var p := 100.0 * k as real / (n - 1) as real; 0.0 <= p <= 100.0 && IndexAt(n, p) == k as real
  {
    var m := (n - 1) as real;
    var q := k as real / m;
    QuotientGap(0.0, k as real, m);
    QuotientGap(k as real, m, m);
    HundredTimes(k as real, m);
    assert 100.0 * k as real / m / 100.0 == q;
    QuotientTimes(k as real, m);
  }

  lemma IndexUnclamped(n: nat, p: real, idx: real)
    requires n > 0 && 0.0 <= p <= 100.0 && IndexAt(n, p) == idx
    ensures IndexAt(n, Clamp(p)) == idx
  {
  }

  /** From one sample to the next the percentile is linear: halfway between two percentages
      it is halfway between their percentiles. With `PercentileAtSample` and
      `PercentileMonotone` this fixes it everywhere. */
  lemma PercentileHalfway(xs: seq<real>, p: real, q: real, lo: nat)
    requires lo + 1 < |xs| && 0.0 <= p <= q <= 100.0
    requires lo as real <= IndexAt(|xs|, p) && IndexAt(|xs|, q) <= lo as real + 1.0
    ensures Percentile(xs, (p + q) / 2.0) == (Percentile(xs, p) + Percentile(xs, q)) / 2.0
  {
    var n, r := |xs|, (p + q) / 2.0;
    IndexHalfway(n, p, q);
    IndexMonotone(n, p, r);
    IndexMonotone(n, r, q);
    InStep(xs, p, lo);
    InStep(xs, q, lo);
    InStep(xs, r, lo);
    BlendHalfway(xs[lo], xs[lo + 1], IndexAt(n, p) - lo as real, IndexAt(n, q) - lo as real);
  }

  lemma InStep(xs: seq<real>, p: real, lo: nat)
    requires lo + 1 < |xs| && 0.0 <= p <= 100.0 && lo as real <= IndexAt(|xs|, p) <= lo as real + 1.0
    ensures Percentile(xs, p) == Blend(xs[lo], xs[lo + 1], IndexAt(|xs|, p) - lo as real)
  {
    var idx := IndexAt(|xs|, p);
    Clamped(xs, p);
    if idx == lo as real + 1.0 {
      assert idx.Floor == lo + 1;
      TimesUnits(xs[lo + 1] - xs[lo]);
      TimesUnits(xs[if lo + 2 <= |xs| - 1 then lo + 2 else |xs| - 1] - xs[lo + 1]);
    } else {
      assert idx.Floor == lo;
    }
  }

  lemma IndexHalfway(n: nat, p: real, q: real)
    requires n > 0
    ensures IndexAt(n, (p + q) / 2.0) == (IndexAt(n, p) + IndexAt(n, q)) / 2.0
  {
    TimesHalfway(p / 100.0, q / 100.0, (n - 1) as real);
    assert (p + q) / 2.0 / 100.0 == (p / 100.0 + q / 100.0) / 2.0;
  }

  lemma TimesHalfway(a: real, b: real, c: real)
    ensures Times((a + b) / 2.0, c) == (Times(a, c) + Times(b, c)) / 2.0
    ensures Times(c, (a + b) / 2.0) == (Times(c, a) + Times(c, b)) / 2.0
  {
  }

  lemma BlendHalfway(a: real, b: real, f: real, g: real)
    ensures Blend(a, b, (f + g) / 2.0) == (Blend(a, b, f) + Blend(a, b, g)) / 2.0
  {
    TimesHalfway(f, g, b - a);
  }

  function Ceiling(x: real): (n: int)
  {
    if x.Floor as real == x then x.Floor else x.Floor + 1
  }

  function RoundUpNice(value: real, step: real): (r: real)
    requires step != 0.0
  {
    if value <= 0.0 then step else Times(Ceiling(value / step) as real, step)
  }

  /** For a positive value, the least multiple of the step that is not below it. */
  lemma RoundUpIsLeast(value: real, step: real, k: int)
    requires value > 0.0 && step > 0.0
    ensures RoundUpNice(value, step) == Times(Ceiling(value / step) as real, step)
    ensures value <= RoundUpNice(value, step)
    ensures value <= Times(k as real, step) ==> RoundUpNice(value, step) <= Times(k as real, step)
  {
    var x, c := value / step, Ceiling(value / step);
    assert Times(x, step) == value;
    TimesLess(x, c as real, step);
    if k < c {
      TimesLess(k as real, x, step);
    } else {
      TimesLess(c as real, k as real, step);
    }
  }

  // ------------------------------------------------------------ replay parameters

  datatype Params = Params(idleTimeout: real, speed: real, maxDelay: real)

  /** The gap the recommendation is built on. */
  function Basis(gaps: seq<real>, p: real, margin: real): (g: real)
  {
    Times(Percentile(gaps, p), margin)
  }

  /** The speed that brings the basis down to the target, before it is rounded. */
  function ExactSpeed(gaps: seq<real>, target: real, p: real, margin: real): (speed: real)
    requires target != 0.0
  {
    if gaps == [] || Percentile(gaps, p) <= 0.0 || Basis(gaps, p, margin) / target < 1.0 then 1.0
    else Basis(gaps, p, margin) / target
  }

  function RecommendReplayParams(gaps: seq<real>, target: real, p: real, margin: real): (r: Params)
    requires target != 0.0
    ensures r.speed >= 1.0
  {
    var exact := ExactSpeed(gaps, target, p, margin);
    RoundedSpeed(exact);
    var speed := RoundAt(exact, 100.0);
    if gaps == [] then Params(target, 1.0, target)
    else
      var basis, last := Basis(gaps, p, margin), gaps[|gaps| - 1];
      Params(RoundUpNice(basis, 0.5), speed, RoundUpNice((if basis < last then basis else last) / speed, 0.05))
  }

  /** Rounded to two decimals a speed stays at least 1 and moves by at most 0.005. */
  lemma RoundedSpeed(exact: real)
    requires exact >= 1.0
    ensures RoundAt(exact, 100.0) >= 1.0 && exact - 0.005 <= RoundAt(exact, 100.0) <= exact + 0.005
  {
    RoundUnitLaws(100.0, exact * 100.0);
    RoundUnitLaws(exact * 100.0, 100.0);
  }

  lemma RoundUpCovers(value: real, step: real)
    requires step > 0.0
    ensures value <= RoundUpNice(value, step)
  {
    if value > 0.0 {
      RoundUpIsLeast(value, step, 0);
    }
  }

  lemma QuotientIff(x: real, s: real, t: real)
    requires s > 0.0
    ensures x / s <= t <==> x <= Times(s, t)
  {
    var q := x / s;
    assert Times(q, s) == x;
    if q <= t {
      TimesLess(q, t, s);
    } else {
      TimesLess(t, q, s);
    }
    assert Times(t, s) == Times(s, t);
  }

  /** The basis takes no longer than a pause t at speed s exactly if s is at least the
      speed that brings it down to t. */
  lemma SlowEnoughIff(basis: real, target: real, speed: real)
    requires target > 0.0 && speed > 0.0
    ensures basis / speed <= target <==> basis / target <= speed
  {
    QuotientIff(basis, speed, target);
    QuotientIff(basis, target, speed);
    assert Times(speed, target) == Times(target, speed);
  }

  /** A number that rounding to the nearest integer, ties to even, does not lower. */
  predicate RoundsUp(x: real)
  {
    var part := x - x.Floor as real;
    part == 0.0 || part > 0.5 || (part == 0.5 && x.Floor % 2 == 1)
  }

  lemma RoundsUpIff(x: real)
    ensures RoundUnit(x) as real >= x <==> RoundsUp(x)
  {
  }

  lemma RoundedSpeedIff(exact: real)
    ensures exact <= RoundAt(exact, 100.0) <==> RoundsUp(100.0 * exact)
  {
    RoundsUpIff(exact * 100.0);
    QuotientIff(exact * 100.0, 100.0, RoundAt(exact, 100.0));
  }

  /** At the recommended speed the basis fits the target idle timeout exactly when it fits
      unscaled, or the hundredfold of basis over target is a whole number, or has a
      fractional part above one half, or of one half after an odd number. */
  lemma BasisFitsIff(gaps: seq<real>, target: real, p: real, margin: real)
    requires gaps != [] && target > 0.0 && margin >= 0.0
    ensures var basis := Basis(gaps, p, margin);
      basis / RecommendReplayParams(gaps, target, p, margin).speed <= target
      <==> basis <= target || RoundsUp(100.0 * basis / target)
  {
    var basis, gap := Basis(gaps, p, margin), Percentile(gaps, p);
    var exact := ExactSpeed(gaps, target, p, margin);
    RoundedSpeed(exact);
    SlowEnoughIff(basis, target, RoundAt(exact, 100.0));
    SlowEnoughIff(basis, target, 1.0);
    if gap <= 0.0 {
      TimesLess(gap, 0.0, margin);
      TimesUnits(margin);
    }
    RoundedSpeedIff(exact);
    RoundedSpeedIff(1.0);
    HundredTimes(basis, target);
  }

  lemma HundredTimes(x: real, n: real)
    requires n > 0.0
    ensures 100.0 * (x / n) == 100.0 * x / n
  {
  }

  /** A single gap of 2.008 seconds, no margin and a target of 2: the speed is rounded down
      to 1, and the gap is replayed longer than the target. */
  lemma RoundingBreaksTarget()
    ensures var r := RecommendReplayParams([2.008], 2.0, 99.0, 1.0);
      Basis([2.008], 99.0, 1.0) == 2.008 && r.speed == 1.0 && 2.008 / r.speed > 2.0
  {
    Clamped([2.008], 99.0);
    TimesUnits(2.008);
    TimesUnits(2.008 - 2.008);
    assert Percentile([2.008], 99.0) == 2.008;
    assert 2.008 / 2.0 == 1.004;
    assert (100.4).Floor == 100;
  }

  lemma NearlyTarget(basis: real, target: real, exact: real, speed: real)
    requires target > 0.0 && speed >= 1.0 && exact <= speed + 0.005 && basis / target <= exact
    ensures basis / speed <= 1.005 * target
  {
    QuotientIff(basis, target, exact);
    TimesLess(exact, 1.005 * speed, target);
    assert Times(target, exact) == Times(exact, target);
    assert Times(1.005 * speed, target) == Times(speed, 1.005 * target);
    QuotientIff(basis, speed, 1.005 * target);
  }

  /** Whatever the rounding: a gap up to the basis is replayed within the target idle
      timeout and half a percent, no such gap of the sample is cut by the recommended cap,
      and the recommended idle timeout covers the basis itself. */
  lemma RecommendationHolds(gaps: seq<real>, target: real, p: real, margin: real, g: real)
    requires gaps != [] && Sorted(gaps) && gaps[0] >= 0.0 && target > 0.0 && margin >= 0.0
    requires g <= Basis(gaps, p, margin)
    ensures var r := RecommendReplayParams(gaps, target, p, margin);
      && g / r.speed <= 1.005 * target
      && (g <= gaps[|gaps| - 1] ==> g / r.speed <= r.maxDelay)
      && Basis(gaps, p, margin) <= r.idleTimeout
  {
    var r, basis, last := RecommendReplayParams(gaps, target, p, margin), Basis(gaps, p, margin), gaps[|gaps| - 1];
    var exact := ExactSpeed(gaps, target, p, margin);
    var gap := Percentile(gaps, p);
    RoundedSpeed(exact);
    QuotientGap(g, basis, r.speed);
    if gap <= 0.0 {
      TimesLess(gap, 0.0, margin);
      TimesUnits(margin);
      QuotientGap(basis, 0.0, target);
    }
    NearlyTarget(basis, target, exact, r.speed);
    var least := if basis < last then basis else last;
    RoundUpCovers(basis, 0.5);
    RoundUpCovers(least / r.speed, 0.05);
    if g <= last {
      QuotientGap(g, least, r.speed);
    }
  }
  /** The percentile gap itself, as replayed at the recommended speed. */
  ghost predicate PercentileFits(gaps: seq<real>, target: real, p: real, margin: real)
    requires target != 0.0
  {
    Percentile(gaps, p) / RecommendReplayParams(gaps, target, p, margin).speed <= target
  }

  /** Gaps as the sampler hands them over: sorted and not negative. */
  predicate Sample(gaps: seq<real>)
  {
    gaps != [] && Sorted(gaps) && gaps[0] >= 0.0
  }

  lemma PercentileNotNegative(gaps: seq<real>, p: real)
    requires Sample(gaps)
    ensures Percentile(gaps, p) >= 0.0
  {
    var idx := IndexAt(|gaps|, Clamp(p));
    Clamped(gaps, p);
    InterpolatedBetween(gaps, idx);
    assert 0 < idx.Floor < |gaps| ==> gaps[0] <= gaps[idx.Floor];
  }

  lemma MarginCovers(gaps: seq<real>, target: real, p: real, margin: real)
    requires Sample(gaps) && target > 0.0 && margin >= 1.005
    ensures PercentileFits(gaps, target, p, margin)
  {
    var gap, speed := Percentile(gaps, p), RecommendReplayParams(gaps, target, p, margin).speed;
    PercentileNotNegative(gaps, p);
    TimesLess(1.005, margin, gap);
    RecommendationHolds(gaps, target, p, margin, Times(gap, 1.005));
    QuotientIff(Times(gap, 1.005), speed, 1.005 * target);
    QuotientIff(gap, speed, target);
    assert Times(speed, 1.005 * target) == 1.005 * Times(speed, target);
  }

  lemma SingleGap(g: real, p: real)
    ensures Percentile([g], p) == g
  {
    Clamped([g], p);
    TimesUnits(IndexAt(1, Clamp(p)));
  }

  /** A gap that the margin brings to 1.005 times the target: the speed rounds down to 1. */
  function Uncovered(target: real, margin: real): (g: real)
    requires margin >= 0.0
  {
    if margin == 0.0 then 2.0 * target else 1.005 * target / margin
  }

  lemma QuotientTimes(x: real, n: real)
    requires n != 0.0
    ensures Times(x / n, n) == x
  {
  }

  lemma QuotientBack(x: real, n: real)
    requires n != 0.0
    ensures x * n / n == x
  {
  }

  lemma MarginMisses(target: real, p: real, margin: real)
    requires target > 0.0 && 0.0 <= margin < 1.005
    ensures Sample([Uncovered(target, margin)]) && !PercentileFits([Uncovered(target, margin)], target, p, margin)
  {
    var g := Uncovered(target, margin);
    SingleGap(g, p);
    if margin == 0.0 {
      TimesUnits(g);
    } else {
      QuotientTimes(1.005 * target, margin);
      QuotientIff(1.005 * target, margin, target);
      TimesLess(margin, 1.005, target);
      QuotientBack(1.005, target);
      assert (100.5).Floor == 100;
    }
  }

  /** The percentile gap is replayed within the target idle timeout, whatever the sample,
      exactly when the safety margin is at least the half percent that rounding may cost. */
  lemma MarginCoversRoundingIff(target: real, p: real, margin: real)
    requires target > 0.0 && margin >= 0.0
    ensures (forall gaps | Sample(gaps) :: PercentileFits(gaps, target, p, margin)) <==> margin >= 1.005
  {
    if margin >= 1.005 {
      forall gaps | Sample(gaps) ensures PercentileFits(gaps, target, p, margin) {
        MarginCovers(gaps, target, p, margin);
      }
    } else {
      MarginMisses(target, p, margin);
    }
  }

  /** A positive value is raised by less than a step; any other value becomes one step. */
  lemma RoundUpIsNear(value: real, step: real)
    requires step > 0.0
    ensures value > 0.0 ==> value <= RoundUpNice(value, step) < value + step
    ensures value <= 0.0 ==> RoundUpNice(value, step) == step
  {
    if value > 0.0 {
      var x, c := value / step, Ceiling(value / step);
      QuotientTimes(value, step);
      TimesLess(x, c as real, step);
      TimesLess(c as real - 1.0, x, step);
      TimesDistributes(1.0, c as real, step);
      TimesUnits(step);
    }
  }

  /** The recommended times are tight: the idle timeout exceeds the gap times the margin by
      less than half a second, and the cap exceeds the longest pause of the sample up to
      that gap, as replayed, by less than a twentieth. Without gaps the target is both. */
  lemma RecommendationIsTight(gaps: seq<real>, target: real, p: real, margin: real)
    requires target > 0.0
    ensures var r, basis := RecommendReplayParams(gaps, target, p, margin), Basis(gaps, p, margin);
      if gaps == [] then r == Params(target, 1.0, target)
      else
        var most := if basis < gaps[|gaps| - 1] then basis else gaps[|gaps| - 1];
        && (if basis > 0.0 then basis <= r.idleTimeout < basis + 0.5 else r.idleTimeout == 0.5)
        && (if most > 0.0 then most / r.speed <= r.maxDelay < most / r.speed + 0.05 else r.maxDelay == 0.05)
  {
    if gaps != [] {
      var r, basis := RecommendReplayParams(gaps, target, p, margin), Basis(gaps, p, margin);
      var most := if basis < gaps[|gaps| - 1] then basis else gaps[|gaps| - 1];
      RoundUpIsNear(basis, 0.5);
      RoundUpIsNear(most / r.speed, 0.05);
      QuotientSign(most, r.speed);
    }
  }

  lemma QuotientSign(x: real, n: real)
    requires n > 0.0
    ensures x / n > 0.0 <==> x > 0.0
  {
    QuotientIff(x, n, 0.0);
    TimesUnits(n);
  }
}
