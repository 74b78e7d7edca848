/** When no window closes for idleness: a condition on the packets and the clock alone. */
module PromptRuns {
  import opened Prelude
  import opened FlowBuilder
  import opened ModelEngine
  import opened Pipeline
  import opened PipelineRuns
  import opened PipelineProperties

  /** Every packet has an IP layer, and every clock reading of a stale check lies less than
      the idle time after every earlier one that may have opened a window. */
  predicate Prompt(steps: seq<Step>)
  {
    && (forall t | 0 <= t < |steps| :: steps[t].pkt.hasIp)
    && forall t, u | 0 <= t <= u < |steps| ::
         && steps[u].tick.expire10 - steps[t].tick.open10 < IDLE_FLUSH_SECONDS
         && steps[u].tick.expire100 - steps[t].tick.open100 < IDLE_FLUSH_SECONDS
  }

  /** What the 10-packet builder holds is younger than the idle time at every stale check
      from step `n` on. */
  ghost predicate Young10(b: Builder, steps: seq<Step>, n: nat)
  {
    && b.idle == IDLE_FLUSH_SECONDS
    && (b.rows != [] ==> forall u | n <= u < |steps| :: steps[u].tick.expire10 - b.openedAt < IDLE_FLUSH_SECONDS)
  }

  ghost predicate Young100(b: Builder, steps: seq<Step>, n: nat)
  {
    && b.idle == IDLE_FLUSH_SECONDS
    && (b.rows != [] ==> forall u | n <= u < |steps| :: steps[u].tick.expire100 - b.openedAt < IDLE_FLUSH_SECONDS)
  }

  ghost predicate AllSized(c: Core)
  {
    forall tag: Tag, i | 0 <= i < |WindowsOf(c, tag)| :: WindowsOf(c, tag)[i].closeReason == WindowSize
  }

  lemma HandleSized(c: Core, c': Core, w: Option<Window>, tag: Tag, o: WindowOracle)
    requires AllSized(c) && c'.items == c.items && (w.Some? ==> w.value.closeReason == WindowSize)
    ensures var r := Handle(c', w, tag, o); AllSized(r) && r.b10 == c'.b10 && r.b100 == c'.b100
  {
    assert forall other: Tag :: WindowsOf(c', other) == WindowsOf(c, other);
    HandleEmits(c', w, tag, o);
  }

  /** The invariant after `n` steps. */
  ghost predicate Steady(c: Core, steps: seq<Step>, n: nat)
  {
    AllSized(c) && Young10(c.b10, steps, n) && Young100(c.b100, steps, n)
  }

  lemma AddsSteady(c: Core, steps: seq<Step>, n: nat)
    requires Prompt(steps) && n < |steps| && Steady(c, steps, n)
    ensures Steady(Add100(Add10(c, steps[n].pkt, steps[n].tick), steps[n].pkt, steps[n].tick), steps, n)
  {
    var pkt, t := steps[n].pkt, steps[n].tick;
    var (b10, w10) := c.b10.Add(pkt, t.open10);
    HandleSized(c, c.(b10 := b10), w10, W10, t.o10);
    var c1 := Add10(c, pkt, t);
    var (b100, w100) := c1.b100.Add(pkt, t.open100);
    HandleSized(c1, c1.(b100 := b100), w100, W100, t.o100);
  }

  lemma NoneStale(c: Core, steps: seq<Step>, n: nat)
    requires n < |steps| && Steady(c, steps, n)
    ensures Stale100(Stale10(c, steps[n].tick), steps[n].tick) == c
  {
    var t := steps[n].tick;
    assert c.b10.Expire(t.expire10) == (c.b10, None);
    assert c.b100.Expire(t.expire100) == (c.b100, None);
  }

  lemma StepSteady(c: Core, steps: seq<Step>, n: nat)
    requires Prompt(steps) && n < |steps| && Steady(c, steps, n)
    ensures Steady(Process(c, steps[n]), steps, n + 1)
  {
    var s := steps[n];
    var c0 := Counted(c, s.pkt);
    assert forall tag: Tag :: WindowsOf(c0, tag) == WindowsOf(c, tag);
    AddsSteady(c0, steps, n);
    NoneStale(Add100(Add10(c0, s.pkt, s.tick), s.pkt, s.tick), steps, n);
  }

  lemma {:induction false} PromptSteady(mem: Memory, steps: seq<Step>, n: nat)
    requires Prompt(steps) && n <= |steps|
    ensures var c := Run(mem, steps[..n]); Steady(c, steps, n) && c.position == |c.stream|
    decreases n
  {
    if n > 0 {
      assert steps[..n][..n - 1] == steps[..n - 1];
      PromptSteady(mem, steps, n - 1);
      StepSteady(Run(mem, steps[..n - 1]), steps, n - 1);
      RunKeeps(mem, steps[..n - 1]);
      ProcessKeeps(Run(mem, steps[..n - 1]), steps[n - 1]);
    }
  }

  /** Such a run is undisturbed: every window closes by size. */
  lemma PromptIsUndisturbed(mem: Memory, steps: seq<Step>)
    requires Prompt(steps)
    ensures Undisturbed(Run(mem, steps))
  {
    PromptSteady(mem, steps, |steps|);
    assert steps[..|steps|] == steps;
  }

  function PacketsOf(steps: seq<Step>): (r: seq<Packet>)
    ensures |r| == |steps|
  {
    seq(|steps|, i requires 0 <= i < |steps| => steps[i].pkt)
  }

  lemma StreamGrows(mem: Memory, steps: seq<Step>)
    requires steps != [] && steps[|steps| - 1].pkt.hasIp
    ensures Run(mem, steps).stream == Run(mem, steps[..|steps| - 1]).stream + [steps[|steps| - 1].pkt]
  {
    RunKeeps(mem, steps[..|steps| - 1]);
    ProcessKeeps(Run(mem, steps[..|steps| - 1]), steps[|steps| - 1]);
  }

  /** Its stream is its packets. */
  lemma {:induction false} PromptStream(mem: Memory, steps: seq<Step>)
    requires forall t | 0 <= t < |steps| :: steps[t].pkt.hasIp
    ensures Run(mem, steps).stream == PacketsOf(steps)
    decreases |steps|
  {
    if steps != [] {
      var init, last := steps[..|steps| - 1], steps[|steps| - 1];
      PromptStream(mem, init);
      StreamGrows(mem, steps);
      NextPacket(steps);
    }
  }

  lemma NextPacket(steps: seq<Step>)
    requires steps != []
    ensures PacketsOf(steps) == PacketsOf(steps[..|steps| - 1]) + [steps[|steps| - 1].pkt]
  {
  }
}
