/** What the item log says of itself, over every run and its shutdown flush: the answers of
    the 100-packet windows, the questions put to the trigger, which of them fired and which
    left an incident, and the order the items stand in. */
module Evidence {
  import opened Prelude
  import opened FlowBuilder
  import opened ModelEngine
  import opened Pipeline
  import opened PipelineRuns
  import opened PipelineProperties
  import Trigger

  // ------------------------------------------------------- questions and answers

  /** The question a classified window puts to the trigger: its own result, at the clock
      reading of its own handling. */
  function QuestionOf(item: Item): (r: seq<Trigger.Event>)
    ensures |r| <= 1
  {
    if item.ask.None? then [] else [Trigger.Event(item.result.name, item.result.confidence, item.world.now)]
  }

  function Questions(items: seq<Item>): (r: seq<Trigger.Event>)
  {
    if items == [] then [] else Questions(items[..|items| - 1]) + QuestionOf(items[|items| - 1])
  }

  lemma QuestionsAppend(items: seq<Item>, item: Item)
    ensures Questions(items + [item]) == Questions(items) + QuestionOf(item)
  {
    assert (items + [item])[..|items|] == items;
  }

  lemma {:induction false} QuestionAt(items: seq<Item>, j: nat)
    requires j < |items| && items[j].ask.Some?
    ensures |Questions(items[..j])| < |Questions(items)|
    ensures Questions(items)[|Questions(items[..j])|] == QuestionOf(items[j])[0]
    decreases |items|
  {
    var last := |items| - 1;
    if j < last {
      assert items[..last][..j] == items[..j];
      QuestionAt(items[..last], j);
    }
  }

  lemma {:induction false} QuestionFrom(items: seq<Item>, s: nat) returns (j: nat)
    requires s < |Questions(items)|
    ensures j < |items| && items[j].ask.Some? && |Questions(items[..j])| == s
    decreases |items|
  {
    var last := |items| - 1;
    if s < |Questions(items[..last])| {
      j := QuestionFrom(items[..last], s);
      assert items[..last][..j] == items[..j];
    } else {
      j := last;
    }
  }

  /** Questions are numbered in the order of the log. */
  lemma {:induction false} QuestionsGrow(items: seq<Item>, i: nat, j: nat)
    requires i <= j <= |items|
    ensures |Questions(items[..i])| <= |Questions(items[..j])|
    ensures i < j && items[i].ask.Some? ==> |Questions(items[..i])| < |Questions(items[..j])|
    decreases j
  {
    if i < j {
      assert items[..j][..j - 1] == items[..j - 1];
      QuestionsGrow(items, i, j - 1);
    }
  }

  /** One item: its question has the number of those before it, a 100-packet window has the
      answer of its own stages, and an incident is a firing whose collection succeeded. */
  ghost predicate Recorded(items: seq<Item>, i: nat)
    requires i < |items|
  {
    var item := items[i];
    && (item.ask.Some? ==> item.ask.value == |Questions(items[..i])|)
    && (item.tag == W100 && item.ask.Some? ==> Staged(item.world.inference, item.result))
    && (item.incident <==> item.fired && item.world.collected)
  }

  /** The log accounts for every question. */
  ghost predicate Booked(c: Core)
  {
    c.asks == Questions(c.items) && forall i | 0 <= i < |c.items| :: Recorded(c.items, i)
  }

  lemma BookedAppend(c: Core, r: Core, item: Item)
    requires Booked(c) && r.items == c.items + [item] && r.asks == c.asks + QuestionOf(item)
    requires item.ask.Some? ==> item.ask.value == |c.asks|
    requires item.tag == W100 && item.ask.Some? ==> Staged(item.world.inference, item.result)
    requires item.incident <==> item.fired && item.world.collected
    ensures Booked(r)
  {
    QuestionsAppend(c.items, item);
    forall i | 0 <= i < |r.items| ensures Recorded(r.items, i) {
      assert r.items[..i] == c.items[..i];
      if i < |c.items| {
        assert Recorded(c.items, i);
      } else {
        assert c.items[..i] == c.items;
      }
    }
  }

  /** What handling one window appends to the log. */
  lemma NewItem(c: Core, w: Window, tag: Tag, o: WindowOracle) returns (item: Item)
    ensures var r := HandleWindow(c, w, tag, c.position, o);
      && r.items == c.items + [item] && r.asks == c.asks + QuestionOf(item)
      && item.tag == tag && item.position == c.position && item.window == w && item.world == o
      && (item.ask.Some? ==> item.ask.value == |c.asks|)
      && (item.incident <==> item.fired && o.collected)
      && (tag == W100 && item.ask.Some? ==> Staged(o.inference, item.result))
  {
    var r := HandleWindow(c, w, tag, c.position, o);
    item := r.items[|c.items|];
    if w.PacketCount() != SizeOf(c, tag) {
      assert c.asks + [] == c.asks;
    } else if tag == W100 {
      LargeIsStaged(c.mem, w, c.position, o.tier, o.inference);
    }
  }

  lemma HandleBooked(c: Core, c': Core, w: Option<Window>, tag: Tag, o: WindowOracle)
    requires Booked(c) && c'.items == c.items && c'.asks == c.asks
    ensures Booked(Handle(c', w, tag, o))
  {
    if w.Some? {
      var item := NewItem(c', w.value, tag, o);
      BookedAppend(c, Handle(c', w, tag, o), item);
    }
  }

  lemma ProcessBooked(c: Core, s: Step)
    requires Booked(c)
    ensures Booked(Process(c, s))
  {
    var pkt, t := s.pkt, s.tick;
    var c0 := Counted(c, pkt);
    HandleBooked(c, c0.(b10 := c0.b10.Add(pkt, t.open10).0), c0.b10.Add(pkt, t.open10).1, W10, t.o10);
    var c1 := Add10(c0, pkt, t);
    HandleBooked(c1, c1.(b100 := c1.b100.Add(pkt, t.open100).0), c1.b100.Add(pkt, t.open100).1, W100, t.o100);
    var c2 := Add100(c1, pkt, t);
    HandleBooked(c2, c2.(b10 := c2.b10.Expire(t.expire10).0), c2.b10.Expire(t.expire10).1, W10, t.o10);
    var c3 := Stale10(c2, t);
    HandleBooked(c3, c3.(b100 := c3.b100.Expire(t.expire100).0), c3.b100.Expire(t.expire100).1, W100, t.o100);
  }

  lemma {:induction false} RunBooked(mem: Memory, steps: seq<Step>)
    ensures Booked(Run(mem, steps))
    decreases |steps|
  {
    if steps != [] {
      RunBooked(mem, steps[..|steps| - 1]);
      ProcessBooked(Run(mem, steps[..|steps| - 1]), steps[|steps| - 1]);
    }
  }

  lemma FlushBooked(mem: Memory, steps: seq<Step>, o10: WindowOracle, o100: WindowOracle)
    ensures Booked(Shutdown(Run(mem, steps), o10, o100)) && Accounted(Shutdown(Run(mem, steps), o10, o100))
  {
    RunBooked(mem, steps);
    ShutdownAccounts(mem, steps, o10, o100);
    var c := Run(mem, steps);
    HandleBooked(c, c.(b10 := c.b10.Flush().0), c.b10.Flush().1, W10, o10);
    var c1 := Handle(c.(b10 := c.b10.Flush().0), c.b10.Flush().1, W10, o10);
    HandleBooked(c1, c1.(b100 := c1.b100.Flush().0), c1.b100.Flush().1, W100, o100);
  }

  /** Every classified 100-packet window of every run has the answer of its own stages 2
      and 3, whatever is remembered. */
  lemma LargeWindowsAreStaged(mem: Memory, steps: seq<Step>, o10: WindowOracle, o100: WindowOracle, i: nat)
    requires i < |Shutdown(Run(mem, steps), o10, o100).items|
    ensures var item := Shutdown(Run(mem, steps), o10, o100).items[i];
      item.tag == W100 && item.ask.Some? ==> Staged(item.world.inference, item.result)
  {
    FlushBooked(mem, steps, o10, o100);
    assert Recorded(Shutdown(Run(mem, steps), o10, o100).items, i);
  }

  /** The trigger was asked about every classified window, in log order and about no other
      thing: its own label and confidence, at the clock reading of its own handling. An
      incident is a firing whose collection succeeded, and nothing else. */
  lemma AskedAndTaken(mem: Memory, steps: seq<Step>, o10: WindowOracle, o100: WindowOracle, i: nat)
    requires i < |Shutdown(Run(mem, steps), o10, o100).items|
    ensures var r := Shutdown(Run(mem, steps), o10, o100); var item := r.items[i];
      && r.asks == Questions(r.items)
      && (item.ask.Some? <==> item.window.closeReason == WindowSize)
      && (item.ask.Some? ==>
            && item.ask.value == |Questions(r.items[..i])| < |r.asks|
            && r.asks[item.ask.value] == Trigger.Event(item.result.name, item.result.confidence, item.world.now))
      && (item.incident <==> item.fired && item.world.collected)
  {
    FlushBooked(mem, steps, o10, o100);
    var r := Shutdown(Run(mem, steps), o10, o100);
    assert Recorded(r.items, i) && Answered(r, r.items[i]);
    if r.items[i].ask.Some? {
      QuestionAt(r.items, i);
    }
  }

  // ------------------------------------------------------- which windows fire

  /** The clock does not go back from one classified window to a later one. */
  ghost predicate ForwardLog(items: seq<Item>)
  {
    forall i, j | 0 <= i < j < |items| && items[i].ask.Some? && items[j].ask.Some? ::
      items[i].world.now <= items[j].world.now
  }

  lemma LogIsForward(items: seq<Item>)
    requires ForwardLog(items)
    ensures Trigger.Forward(Questions(items))
  {
    var evs := Questions(items);
    forall s, t | 0 <= s < t < |evs| ensures evs[s].now <= evs[t].now {
      var i := QuestionFrom(items, s);
      var j := QuestionFrom(items, t);
      QuestionAt(items, i);
      QuestionAt(items, j);
      if j < i {
        QuestionsGrow(items, j, i);
      }
    }
  }

  /** An earlier item of the label that fired. */
  ghost predicate FiredBefore(items: seq<Item>, j: nat, i: int)
    requires j < |items|
  {
    0 <= i < j && items[i].fired && items[i].result.name == items[j].result.name
  }

  lemma FiringIsItem(c: Core, j: nat, s: nat) returns (i: nat)
    requires Booked(c) && Accounted(c) && j < |c.items| && c.items[j].ask.Some? && s < c.items[j].ask.value
    requires Trigger.FiringOf(c.asks, s, c.items[j].result.name)
    ensures FiredBefore(c.items, j, i) && c.items[i].world.now == c.asks[s].now
  {
    i := QuestionFrom(c.items, s);
    assert Recorded(c.items, i) && Recorded(c.items, j) && Answered(c, c.items[i]);
    QuestionAt(c.items, i);
    if j <= i {
      QuestionsGrow(c.items, j, i);
    }
  }

  lemma ItemIsFiring(c: Core, j: nat, i: nat)
    requires Booked(c) && Accounted(c) && j < |c.items| && c.items[j].ask.Some? && FiredBefore(c.items, j, i)
    ensures c.items[i].ask.Some? && c.items[i].ask.value < c.items[j].ask.value < |c.asks|
    ensures Trigger.FiringOf(c.asks, c.items[i].ask.value, c.items[j].result.name)
    ensures c.asks[c.items[i].ask.value].now == c.items[i].world.now
  {
    assert Recorded(c.items, i) && Recorded(c.items, j) && Answered(c, c.items[i]) && Answered(c, c.items[j]);
    QuestionAt(c.items, i);
    QuestionsGrow(c.items, i, j);
  }

  /** Whether a classified window fires, in terms of the log before it. */
  ghost predicate MayFire(items: seq<Item>, j: nat)
    requires j < |items|
  {
    && items[j].result.name != Benign && items[j].result.confidence >= 0.80
    && (forall i | FiredBefore(items, j, i) :: items[j].world.now - items[i].world.now >= 30.0)
    && ((exists i :: FiredBefore(items, j, i)) || items[j].world.now >= 30.0)
  }

  lemma FiresByLog(c: Core, j: nat)
    requires Booked(c) && Accounted(c) && ForwardLog(c.items) && j < |c.items| && c.items[j].ask.Some?
    ensures c.items[j].fired <==> MayFire(c.items, j)
  {
    var t, items := c.items[j].ask.value, c.items;
    assert Recorded(items, j) && Answered(c, items[j]);
    QuestionAt(items, j);
    LogIsForward(items);
    Trigger.FiresIff(c.asks, t);
    forall s | 0 <= s < t && Trigger.FiringOf(c.asks, s, items[j].result.name)
      ensures exists i :: FiredBefore(items, j, i) && items[i].world.now == c.asks[s].now
    {
      var i := FiringIsItem(c, j, s);
    }
    forall i | FiredBefore(items, j, i)
      ensures exists s :: 0 <= s < t && Trigger.FiringOf(c.asks, s, items[j].result.name)
                          && c.asks[s].now == items[i].world.now
    {
      ItemIsFiring(c, j, i);
    }
  }

  /** Over every run on a forward clock, read off the log alone: a window fires exactly if it
      was classified, its label is not Benign with a confidence of at least 0.80, no earlier
      window of that label fired less than thirty seconds before, and one fired before or
      the clock has reached thirty. */
  lemma WindowFiresIff(mem: Memory, steps: seq<Step>, o10: WindowOracle, o100: WindowOracle, j: nat)
    requires var items := Shutdown(Run(mem, steps), o10, o100).items; j < |items| && ForwardLog(items)
    ensures var items := Shutdown(Run(mem, steps), o10, o100).items;
      items[j].fired <==> items[j].ask.Some? && MayFire(items, j)
  {
    FlushBooked(mem, steps, o10, o100);
    var r := Shutdown(Run(mem, steps), o10, o100);
    assert Answered(r, r.items[j]);
    if r.items[j].ask.Some? {
      FiresByLog(r, j);
    }
  }

  // ------------------------------------------------------- the order of the log

  function WorldOf(t: Tick, tag: Tag): (o: WindowOracle)
  {
    if tag == W100 then t.o100 else t.o10
  }

  /** Within one position: windows closed by size before stale ones, small before large. */
  function Rank(item: Item): (n: nat)
  {
    (if item.window.closeReason == WindowSize then 0 else 2) + if item.tag == W100 then 1 else 0
  }

  ghost predicate Precedes(a: Item, b: Item)
  {
    a.position < b.position || (a.position == b.position && Rank(a) < Rank(b))
  }

  /** Every item stands at the step that closed its window and saw that step's world; items
      are in order, and those of the current step rank below `below`. */
  ghost predicate Filed(c: Core, steps: seq<Step>, below: nat)
  {
    && c.position == |steps|
    && (forall i | 0 <= i < |c.items| ::
          && 1 <= c.items[i].position <= |steps|
          && c.items[i].world == WorldOf(steps[c.items[i].position - 1].tick, c.items[i].tag)
          && (c.items[i].position == |steps| ==> Rank(c.items[i]) < below))
    && forall i, j | 0 <= i < j < |c.items| :: Precedes(c.items[i], c.items[j])
  }

  lemma HandleFiled(c: Core, c': Core, w: Option<Window>, tag: Tag, o: WindowOracle, steps: seq<Step>, rank: nat)
    requires steps != [] && Filed(c, steps, rank) && c'.items == c.items && c'.position == c.position
    requires o == WorldOf(steps[|steps| - 1].tick, tag)
    requires w.Some? ==> rank == (if w.value.closeReason == WindowSize then 0 else 2) + if tag == W100 then 1 else 0
    ensures Filed(Handle(c', w, tag, o), steps, rank + 1)
  {
    if w.Some? {
      var r := Handle(c', w, tag, o);
      var item := NewItem(c', w.value, tag, o);
      forall i, j | 0 <= i < j < |r.items| ensures Precedes(r.items[i], r.items[j]) {
        if j < |c.items| {
          assert Precedes(c.items[i], c.items[j]);
        }
      }
    }
  }

  lemma CountedFiled(c: Core, steps: seq<Step>)
    requires steps != [] && Filed(c, steps[..|steps| - 1], 4)
    ensures Filed(Counted(c, steps[|steps| - 1].pkt), steps, 0)
  {
  }

  lemma AddReason(b: Builder, pkt: Packet, now: real)
    ensures b.Add(pkt, now).1.Some? ==> b.Add(pkt, now).1.value.closeReason == WindowSize
  {
  }

  lemma Add10Filed(c: Core, steps: seq<Step>)
    requires steps != [] && Filed(c, steps, 0)
    ensures var s := steps[|steps| - 1]; Filed(Add10(c, s.pkt, s.tick), steps, 1)
  {
    var s := steps[|steps| - 1];
    var (b, w) := c.b10.Add(s.pkt, s.tick.open10);
    AddReason(c.b10, s.pkt, s.tick.open10);
    HandleFiled(c, c.(b10 := b), w, W10, s.tick.o10, steps, 0);
  }

  lemma Add100Filed(c: Core, steps: seq<Step>)
    requires steps != [] && Filed(c, steps, 1)
    ensures var s := steps[|steps| - 1]; Filed(Add100(c, s.pkt, s.tick), steps, 2)
  {
    var s := steps[|steps| - 1];
    var (b, w) := c.b100.Add(s.pkt, s.tick.open100);
    AddReason(c.b100, s.pkt, s.tick.open100);
    HandleFiled(c, c.(b100 := b), w, W100, s.tick.o100, steps, 1);
  }

  lemma StalesFiled(c: Core, steps: seq<Step>)
    requires steps != [] && Filed(c, steps, 2)
    ensures var t := steps[|steps| - 1].tick; Filed(Stale100(Stale10(c, t), t), steps, 4)
  {
    var t := steps[|steps| - 1].tick;
    HandleFiled(c, c.(b10 := c.b10.Expire(t.expire10).0), c.b10.Expire(t.expire10).1, W10, t.o10, steps, 2);
    var c1 := Stale10(c, t);
    HandleFiled(c1, c1.(b100 := c1.b100.Expire(t.expire100).0), c1.b100.Expire(t.expire100).1, W100, t.o100, steps, 3);
  }

  lemma ProcessFiled(c: Core, steps: seq<Step>)
    requires steps != [] && Filed(c, steps[..|steps| - 1], 4)
    ensures Filed(Process(c, steps[|steps| - 1]), steps, 4)
  {
    var s := steps[|steps| - 1];
    CountedFiled(c, steps);
    Add10Filed(Counted(c, s.pkt), steps);
    Add100Filed(Add10(Counted(c, s.pkt), s.pkt, s.tick), steps);
    StalesFiled(Add100(Add10(Counted(c, s.pkt), s.pkt, s.tick), s.pkt, s.tick), steps);
  }

  /** Over every run the log is in order: by position, and within one position full windows
      before stale ones and small before large; and each item was handled in the world of
      the step that closed its window. */
  lemma {:induction false} LogIsFiled(mem: Memory, steps: seq<Step>)
    ensures Filed(Run(mem, steps), steps, 4)
    decreases |steps|
  {
    if steps != [] {
      LogIsFiled(mem, steps[..|steps| - 1]);
      ProcessFiled(Run(mem, steps[..|steps| - 1]), steps);
    }
  }
}
