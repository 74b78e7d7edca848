/** Where the label of a 10-packet window comes from, over whole runs without idle
    closings: its own stages, or the 100-packet window before the one it is part of. */
module WindowLabels {
  import opened Prelude
  import opened FlowBuilder
  import opened ModelEngine
  import opened Pipeline
  import opened PipelineRuns
  import opened PipelineProperties

  // ------------------------------------------------------- what was registered

  /** The verdict a logged window registered, if it did: only classified 100-packet
      windows do, and of their verdicts only Flood and Mirai. */
  function Registered(item: Item): (r: seq<Registration>)
    ensures |r| <= 1
  {
    if item.tag != W100 || item.ask.None? || !item.world.inference.Scores? then []
    else
      match RunStages(item.world.inference)
      case None => []
      case Some(v) =>
        if v.family == Flood || v.family == Mirai
        then [Registration(item.world.tier, Override(v, item.position, item.window.FlowId()))] else []
  }

  function RegistrationsOf(items: seq<Item>): (r: seq<Registration>)
  {
    if items == [] then [] else RegistrationsOf(items[..|items| - 1]) + Registered(items[|items| - 1])
  }

  /** A classified 10-packet window has the answer that the verdicts logged before it give. */
  ghost predicate AnsweredFrom(items: seq<Item>, j: nat)
    requires j < |items|
  {
    items[j].tag == W10 && items[j].ask.Some? ==>
      items[j].result == ClassifyFlow(History(RegistrationsOf(items[..j])), items[j].window, items[j].position,
                                      items[j].world.tier, items[j].world.inference)
  }

  /** The memory is what the log registered, and the log is in order of position. */
  ghost predicate Explained(c: Core)
  {
    && c.mem == History(RegistrationsOf(c.items))
    && (forall j | 0 <= j < |c.items| :: AnsweredFrom(c.items, j) && c.items[j].position <= c.position)
    && forall i, j | 0 <= i < j < |c.items| :: c.items[i].position <= c.items[j].position
  }

  lemma ExplainedAppend(c: Core, r: Core, item: Item)
    requires Explained(c) && r.items == c.items + [item]
    requires r.mem == History(RegistrationsOf(c.items) + Registered(item))
    requires item.position == c.position == r.position
    requires item.tag == W10 && item.ask.Some? ==>
      item.result == ClassifyFlow(c.mem, item.window, item.position, item.world.tier, item.world.inference)
    ensures Explained(r)
  {
    assert r.items[..|c.items|] == c.items;
    forall j | 0 <= j < |r.items| ensures AnsweredFrom(r.items, j) {
      if j < |c.items| {
        assert AnsweredFrom(c.items, j);
        assert r.items[..j] == c.items[..j];
      }
    }
  }

  lemma HandleExplains(c: Core, w: Option<Window>, tag: Tag, o: WindowOracle)
    requires Explained(c)
    ensures Explained(Handle(c, w, tag, o))
  {
    if w.Some? {
      var r := Handle(c, w, tag, o);
      var item := r.items[|c.items|];
      assert r.items == c.items + [item];
      if w.value.PacketCount() != SizeOf(c, tag) || tag == W10 {
        assert Registered(item) == [];
        assert RegistrationsOf(c.items) + [] == RegistrationsOf(c.items);
      } else {
        RegisterExplains(c.mem, w.value, c.position, o, item);
      }
      ExplainedAppend(c, r, item);
    }
  }

  lemma RegisterExplains(m: Memory, w: Window, position: nat, o: WindowOracle, item: Item)
    requires m.History? && item.tag == W100 && item.ask.Some?
    requires item.window == w && item.position == position && item.world == o
    ensures RegisterW100(m, w, position, o.tier, o.inference).0 == History(m.all + Registered(item))
  {
    assert m.all + [] == m.all;
  }

  lemma ExplainedElsewhere(c: Core, r: Core)
    requires Explained(c) && r.items == c.items && r.mem == c.mem && c.position <= r.position
    ensures Explained(r)
  {
  }

  lemma ProcessExplains(c: Core, s: Step)
    requires Explained(c)
    ensures Explained(Process(c, s))
  {
    var t := s.tick;
    var c0 := Counted(c, s.pkt);
    ExplainedElsewhere(c, c0);
    var (b0, w0) := c0.b10.Add(s.pkt, t.open10);
    ExplainedElsewhere(c0, c0.(b10 := b0));
    HandleExplains(c0.(b10 := b0), w0, W10, t.o10);
    var c1 := Add10(c0, s.pkt, t);
    var (b1, w1) := c1.b100.Add(s.pkt, t.open100);
    ExplainedElsewhere(c1, c1.(b100 := b1));
    HandleExplains(c1.(b100 := b1), w1, W100, t.o100);
    var c2 := Add100(c1, s.pkt, t);
    var (b2, w2) := c2.b10.Expire(t.expire10);
    ExplainedElsewhere(c2, c2.(b10 := b2));
    HandleExplains(c2.(b10 := b2), w2, W10, t.o10);
    var c3 := Stale10(c2, t);
    var (b3, w3) := c3.b100.Expire(t.expire100);
    ExplainedElsewhere(c3, c3.(b100 := b3));
    HandleExplains(c3.(b100 := b3), w3, W100, t.o100);
  }

  /** In every run that remembers all verdicts, the memory is exactly what the classified
      100-packet windows of the log registered, in log order, and every classified
      10-packet window has the answer that the verdicts logged before it give. */
  lemma {:induction false} RunExplains(steps: seq<Step>)
    ensures Explained(Run(History([]), steps))
    decreases |steps|
  {
    if steps != [] {
      RunExplains(steps[..|steps| - 1]);
      ProcessExplains(Run(History([]), steps[..|steps| - 1]), steps[|steps| - 1]);
    }
  }

  // ------------------------------------------------------- places in the log

  /** Where the k-th item of a tag stands in the log. */
  lemma {:induction false} PlaceOf(items: seq<Item>, tag: Tag, k: nat) returns (j: nat)
    requires k < |ItemsOf(items, tag)|
    ensures j < |items| && items[j] == ItemsOf(items, tag)[k] && items[j].tag == tag
    ensures |ItemsOf(items[..j], tag)| == k
    decreases |items|
  {
    var n := |items| - 1;
    if k < |ItemsOf(items[..n], tag)| {
      j := PlaceOf(items[..n], tag, k);
      assert items[..n][..j] == items[..j];
    } else {
      j := n;
    }
  }

  lemma {:induction false} ItemsBefore(items: seq<Item>, tag: Tag, j: nat)
    requires j < |items| && items[j].tag == tag
    ensures |ItemsOf(items[..j], tag)| < |ItemsOf(items, tag)|
    ensures ItemsOf(items, tag)[|ItemsOf(items[..j], tag)|] == items[j]
    decreases |items|
  {
    var n := |items| - 1;
    if j < n {
      ItemsBefore(items[..n], tag, j);
      assert items[..n][..j] == items[..j];
    }
  }

  lemma PlaceUnique(items: seq<Item>, tag: Tag, i: nat, j: nat)
    requires i < |items| && j < |items| && items[i].tag == tag == items[j].tag
    requires |ItemsOf(items[..i], tag)| == |ItemsOf(items[..j], tag)|
    ensures i == j
  {
    if i < j {
      assert items[..j][..i] == items[..i];
      ItemsBefore(items[..j], tag, i);
    } else if j < i {
      assert items[..i][..j] == items[..j];
      ItemsBefore(items[..i], tag, j);
    }
  }

  // ------------------------------------------------------- the label of a small window

  /** A logged window registered a verdict that speaks for the given one. */
  predicate SpeaksFor(item: Item, tier: Tier, position: nat, flow: Option<nat>)
  {
    && Registered(item) != [] && Registered(item)[0].tier == tier
    && Registered(item)[0].verdict.Speaks(position, flow)
  }

  lemma {:induction false} OnlyOneSpeaks(items: seq<Item>, n: nat, at: int, tier: Tier, position: nat,
                                        flow: Option<nat>)
    requires n <= |items| && forall m | 0 <= m < n && m != at :: !SpeaksFor(items[m], tier, position, flow)
    ensures Matching(RegistrationsOf(items[..n]), tier, position, flow)
         == if 0 <= at < n && SpeaksFor(items[at], tier, position, flow) then [Registered(items[at])[0].verdict] else []
    decreases n
  {
    if n > 0 {
      OnlyOneSpeaks(items, n - 1, at, tier, position, flow);
      RegistrationsStep(items, n);
      MatchingAppend(RegistrationsOf(items[..n - 1]), Registered(items[n - 1]), tier, position, flow);
      assert n - 1 != at ==> !SpeaksFor(items[n - 1], tier, position, flow);
    }
  }

  lemma RegistrationsStep(items: seq<Item>, n: nat)
    requires 0 < n <= |items|
    ensures RegistrationsOf(items[..n]) == RegistrationsOf(items[..n - 1]) + Registered(items[n - 1])
  {
    assert items[..n][..n - 1] == items[..n - 1];
  }

  lemma MatchingAppend(h: seq<Registration>, more: seq<Registration>, tier: Tier, position: nat, flow: Option<nat>)
    requires |more| <= 1
    ensures Matching(h + more, tier, position, flow)
         == Matching(h, tier, position, flow)
            + if more != [] && more[0].tier == tier && more[0].verdict.Speaks(position, flow)
              then [more[0].verdict] else []
  {
    if more == [] {
      assert h + more == h;
    } else {
      assert (h + more)[..|h|] == h;
    }
  }

  /** The label of a classified 10-packet window, given the 100-packet window that
      precedes the one it is part of. */
  function Labelled(small: Item, large: Option<Item>): (r: Result)
  {
    var inf := small.world.inference;
    if !inf.Scores? then Unavailable()
    else if inf.attack < STAGE1_THRESHOLD then Result(Benign, 1.0 - inf.attack)
    else
      match RunStages(inf)
      case None => Unavailable()
      case Some(own) =>
        if large.Some? && Carries(large.value, small) then Registered(large.value)[0].verdict.verdict.Answer()
        else own.Answer()
  }

  /** The larger window registered a verdict in the tier and for the one flow of the
      smaller window. */
  predicate Carries(large: Item, small: Item)
  {
    && Registered(large) != [] && large.world.tier == small.world.tier
    && large.window.FlowId().Some? && large.window.FlowId() == small.window.FlowId()
  }

  /** The positions of an undisturbed run, read off its log. */
  ghost predicate OnTheBeat(c: Core)
  {
    && (forall i | 0 <= i < |ItemsOf(c.items, W10)| :: ItemsOf(c.items, W10)[i].position == 10 * i + 10)
    && (forall k | 0 <= k < |ItemsOf(c.items, W100)| :: ItemsOf(c.items, W100)[k].position == 100 * k + 100)
    && 10 * |ItemsOf(c.items, W10)| <= c.position < 100 * |ItemsOf(c.items, W100)| + 100
  }

  lemma UndisturbedOnTheBeat(mem: Memory, steps: seq<Step>)
    requires Undisturbed(Run(mem, steps))
    ensures OnTheBeat(Run(mem, steps))
    ensures forall j | 0 <= j < |Run(mem, steps).items| :: Run(mem, steps).items[j].ask.Some?
  {
    var c := Run(mem, steps);
    RunKeeps(mem, steps);
    SmallWindowsAreSlices(c);
    LargeWindowsAreSlices(c);
    var n := |ItemsOf(c.items, W10)|;
    assert n > 0 ==> 10 * (n - 1) + 10 <= |c.stream|;
    forall j | 0 <= j < |c.items| ensures c.items[j].ask.Some? {
      ItemsBefore(c.items, c.items[j].tag, j);
      var k := |ItemsOf(c.items[..j], c.items[j].tag)|;
      assert WindowsOf(c, c.items[j].tag)[k].closeReason == WindowSize;
      assert Answered(c, c.items[j]);
    }
  }

  /** Of the log before a small window, only the large window before its own speaks for it. */
  lemma OnlyThePreviousSpeaks(c: Core, i: nat, j: nat, at: int)
    requires OnTheBeat(c) && j < |c.items| && i < |ItemsOf(c.items, W10)|
    requires c.items[j].position == 10 * i + 10
    requires at < |c.items| && (i < 10 ==> at < 0)
    requires i >= 10 ==> 0 <= at && c.items[at].tag == W100 && |ItemsOf(c.items[..at], W100)| == i / 10 - 1
    ensures var small := c.items[j];
      forall m | 0 <= m < j && m != at ::
        !SpeaksFor(c.items[m], small.world.tier, small.position, small.window.FlowId())
  {
    var small := c.items[j];
    forall m | 0 <= m < j && m != at
      ensures !SpeaksFor(c.items[m], small.world.tier, small.position, small.window.FlowId())
    {
      if SpeaksFor(c.items[m], small.world.tier, small.position, small.window.FlowId()) {
        ItemsBefore(c.items, W100, m);
        var k := |ItemsOf(c.items[..m], W100)|;
        assert c.items[m].position == 100 * k + 100;
        assert 100 * k + 100 < 10 * i + 10 <= 100 * k + 200;
        assert k == i / 10 - 1;
        PlaceUnique(c.items, W100, m, at);
      }
    }
  }

  /** The large window before the one of small window `i`, and where it stands. */
  lemma PreviousLarge(c: Core, i: nat, j: nat) returns (at: int)
    requires Explained(c) && OnTheBeat(c) && j < |c.items| && i < |ItemsOf(c.items, W10)|
    requires c.items[j].position == 10 * i + 10
    ensures at < |c.items| && (i < 10 ==> at < 0)
    ensures i >= 10 ==>
      && 0 <= at < j && i / 10 - 1 < |ItemsOf(c.items, W100)| && c.items[at] == ItemsOf(c.items, W100)[i / 10 - 1]
      && c.items[at].tag == W100 && |ItemsOf(c.items[..at], W100)| == i / 10 - 1
      && c.items[at].position < c.items[j].position <= c.items[at].position + 100
  {
    at := -1;
    if i >= 10 {
      at := PlaceOf(c.items, W100, i / 10 - 1);
      assert c.items[at].position == 100 * (i / 10 - 1) + 100;
      assert c.items[at].position < c.items[j].position;
    }
  }

  /** A window whose answer comes from a history in which nothing but `large` can speak
      for it. */
  lemma LabelOf(small: Item, h: seq<Registration>, large: Option<Item>)
    requires small.result
          == ClassifyFlow(History(h), small.window, small.position, small.world.tier, small.world.inference)
    requires large.Some? ==> large.value.position < small.position <= large.value.position + OVERRIDE_REACH
    requires Matching(h, small.world.tier, small.position, small.window.FlowId())
          == if large.Some? && SpeaksFor(large.value, small.world.tier, small.position, small.window.FlowId())
             then [Registered(large.value)[0].verdict] else []
    ensures small.result == Labelled(small, large)
  {
  }

  lemma LabelAt(c: Core, i: nat)
    requires Explained(c) && OnTheBeat(c) && i < |ItemsOf(c.items, W10)|
    requires forall j | 0 <= j < |c.items| :: c.items[j].ask.Some?
    ensures i < 10 || i / 10 - 1 < |ItemsOf(c.items, W100)|
    ensures ItemsOf(c.items, W10)[i].result
         == Labelled(ItemsOf(c.items, W10)[i], if i < 10 then None else Some(ItemsOf(c.items, W100)[i / 10 - 1]))
  {
    var j := PlaceOf(c.items, W10, i);
    var at := PreviousLarge(c, i, j);
    OnlyThePreviousSpeaks(c, i, j, at);
    var small := c.items[j];
    OnlyOneSpeaks(c.items, j, at, small.world.tier, small.position, small.window.FlowId());
    assert AnsweredFrom(c.items, j);
    LabelOf(small, RegistrationsOf(c.items[..j]), if i < 10 then None else Some(c.items[at]));
  }

  lemma LabelFromHistory(steps: seq<Step>, i: nat)
    requires var c := Run(History([]), steps); Undisturbed(c) && i < |ItemsOf(c.items, W10)|
    ensures var c := Run(History([]), steps);
      && (i < 10 || i / 10 - 1 < |ItemsOf(c.items, W100)|)
      && ItemsOf(c.items, W10)[i].result
         == Labelled(ItemsOf(c.items, W10)[i], if i < 10 then None else Some(ItemsOf(c.items, W100)[i / 10 - 1]))
  {
    RunExplains(steps);
    UndisturbedOnTheBeat(History([]), steps);
    LabelAt(Run(History([]), steps), i);
  }

  lemma SameLog(steps: seq<Step>)
    ensures var a, b := Run(Slots(map[]), steps), Run(History([]), steps);
      a.items == b.items && a.stream == b.stream && a.position == b.position
  {
    RunMirrors(steps);
  }

  lemma SameUndisturbed(a: Core, b: Core)
    requires Undisturbed(a) && a.items == b.items && a.stream == b.stream && a.position == b.position
    ensures Undisturbed(b)
  {
    assert forall tag :: WindowsOf(a, tag) == WindowsOf(b, tag);
  }

  /** In every run of the engine with its single slot per tier, without idle closings: the
      label of the i-th 10-packet window comes from its own stages, except that a Flood or
      Mirai verdict of the 100-packet window i/10-1, registered in its tier and for its
      flow, replaces what the stages of an attack window say. No other window of the run
      has any influence on it. */
  lemma SmallFollowsLarge(steps: seq<Step>, i: nat)
    requires var c := Run(Slots(map[]), steps); Undisturbed(c) && i < |ItemsOf(c.items, W10)|
    ensures var c := Run(Slots(map[]), steps);
      && (i < 10 || i / 10 - 1 < |ItemsOf(c.items, W100)|)
      && ItemsOf(c.items, W10)[i].result
         == Labelled(ItemsOf(c.items, W10)[i], if i < 10 then None else Some(ItemsOf(c.items, W100)[i / 10 - 1]))
  {
    SameLog(steps);
    SameUndisturbed(Run(Slots(map[]), steps), Run(History([]), steps));
    LabelFromHistory(steps, i);
  }

  /** Dual-window alignment over every run without idle closings: the 100-packet window k
      holds exactly the packets of the 10-packet windows 10k to 10k+9, in order; and the
      verdict it registered, if it did and has a single flow, speaks for a 10-packet
      window of that flow exactly when that window is one of the ten that make up the
      100-packet window k+1. */
  lemma DualWindowsAlign(mem: Memory, steps: seq<Step>, k: nat)
    requires var c := Run(mem, steps); Undisturbed(c) && k < |ItemsOf(c.items, W100)|
    ensures var c := Run(mem, steps);
      && 10 * k + 10 <= |WindowsOf(c, W10)|
      && WindowsOf(c, W100)[k].packets == Flatten(PacketLists(TenOf(WindowsOf(c, W10), k)))
    ensures var c := Run(mem, steps); var large := ItemsOf(c.items, W100)[k];
      Registered(large) != [] && large.window.FlowId().Some? ==>
        forall i | 0 <= i < |ItemsOf(c.items, W10)| ::
          Registered(large)[0].verdict.Speaks(ItemsOf(c.items, W10)[i].position, large.window.FlowId())
          <==> 10 * (k + 1) <= i < 10 * (k + 1) + 10
  {
    RunKeeps(mem, steps);
    var c := Run(mem, steps);
    SmallWindowsAreSlices(c);
    LargeWindowsAreSlices(c);
    TensFillHundred(ItemsOf(c.items, W10), WindowsOf(c, W10), ItemsOf(c.items, W100), WindowsOf(c, W100),
                    c.stream, StreamRows(c.stream), k);
  }
}
