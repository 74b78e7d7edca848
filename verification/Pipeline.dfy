/** The packet pipeline of `capture.py` behind the capture front end: the position
    counter, the two window builders, classification, acquisition and the item log. */
module Pipeline {
  import opened Prelude
  import opened FlowBuilder
  import opened ModelEngine
  import Trigger

  datatype Tag = W10 | W100

  /** What the world supplies when a window is handled: the tier the resource monitor
      picks, the inference it gives, the clock, and whether collection succeeds. */
  datatype WindowOracle = WindowOracle(tier: Tier, inference: Inference, now: real, collected: bool)

  /** One line of the item log. `ask` is the window's question to the trigger; a
      partial window asks none. */
  datatype Item = Item(tag: Tag, position: nat, window: Window, world: WindowOracle, result: Result, ask: Option<nat>,
                       fired: bool, incident: bool)

  /** Real-clock readings while one packet is processed, and the world's answers for
      the windows it closes. */
  datatype Tick = Tick(open10: real, open100: real, expire10: real, expire100: real,
                       o10: WindowOracle, o100: WindowOracle)

  datatype Step = Step(pkt: Packet, tick: Tick)

  /** The pipeline's state. `stream` and `asks` record what was fed to the builders and
      what the trigger was asked; no decision depends on them. */
  datatype Core = Core(b10: Builder, b100: Builder, position: nat, mem: Memory, fired: Trigger.Fired,
                       items: seq<Item>, stream: seq<Packet>, asks: seq<Trigger.Event>)

  function Start(mem: Memory): (c: Core)
  {
    Core(NewBuilder(10), NewBuilder(100), 0, mem, map[], [], [], [])
  }

  function SizeOf(c: Core, tag: Tag): (n: nat)
  {
    if tag == W100 then c.b100.size else c.b10.size
  }

  /** Classification of a full window; a 100-packet window also registers its verdict. */
  function Classified(mem: Memory, w: Window, tag: Tag, position: nat, o: WindowOracle): (r: (Memory, Result))
  {
    if tag == W100 then RegisterW100(mem, w, position, o.tier, o.inference)
    else (mem, ClassifyFlow(mem, w, position, o.tier, o.inference))
  }

  function HandleWindow(c: Core, w: Window, tag: Tag, position: nat, o: WindowOracle): (r: Core)
  {
    if w.PacketCount() != SizeOf(c, tag) then
      c.(items := c.items + [Item(tag, position, w, o, Result(InsufficientData, 0.0), None, false, false)])
    else
      var (mem, result) := Classified(c.mem, w, tag, position, o);
      var ask := Trigger.Event(result.name, result.confidence, o.now);
      var (fire, fired) := Trigger.Decide(c.fired, ask);
      c.(mem := mem, fired := fired, asks := c.asks + [ask],
         items := c.items + [Item(tag, position, w, o, result, Some(|c.asks|), fire, fire && o.collected)])
  }

  function Handle(c: Core, w: Option<Window>, tag: Tag, o: WindowOracle): (r: Core)
  {
    if w.Some? then HandleWindow(c, w.value, tag, c.position, o) else c
  }

  function Counted(c: Core, pkt: Packet): (r: Core)
  {
    c.(position := c.position + 1, stream := if pkt.hasIp then c.stream + [pkt] else c.stream)
  }

  function Add10(c: Core, pkt: Packet, t: Tick): (r: Core)
  {
    var (b, w) := c.b10.Add(pkt, t.open10);
    Handle(c.(b10 := b), w, W10, t.o10)
  }

  function Add100(c: Core, pkt: Packet, t: Tick): (r: Core)
  {
    var (b, w) := c.b100.Add(pkt, t.open100);
    Handle(c.(b100 := b), w, W100, t.o100)
  }

  function Stale10(c: Core, t: Tick): (r: Core)
  {
    var (b, w) := c.b10.Expire(t.expire10);
    Handle(c.(b10 := b), w, W10, t.o10)
  }

  function Stale100(c: Core, t: Tick): (r: Core)
  {
    var (b, w) := c.b100.Expire(t.expire100);
    Handle(c.(b100 := b), w, W100, t.o100)
  }

  /** One whole packet: counted, given to the 10-packet builder, then to the 100-packet
      builder, then both builders give up stale windows. */
  function Process(c: Core, s: Step): (r: Core)
  {
    Stale100(Stale10(Add100(Add10(Counted(c, s.pkt), s.pkt, s.tick), s.pkt, s.tick), s.tick), s.tick)
  }

  /** The trailing windows at shutdown. */
  function Shutdown(c: Core, o10: WindowOracle, o100: WindowOracle): (r: Core)
  {
    var (b10, w10) := c.b10.Flush();
    var c1 := Handle(c.(b10 := b10), w10, W10, o10);
    var (b100, w100) := c1.b100.Flush();
    Handle(c1.(b100 := b100), w100, W100, o100)
  }

  function Run(mem: Memory, steps: seq<Step>): (c: Core)
  {
    if steps == [] then Start(mem) else Process(Run(mem, steps[..|steps| - 1]), steps[|steps| - 1])
  }

  // ------------------------------------------------------------ item log

  function ItemsOf(items: seq<Item>, tag: Tag): (r: seq<Item>)
  {
    if items == [] then []
    else
      var last := items[|items| - 1];
      ItemsOf(items[..|items| - 1], tag) + if last.tag == tag then [last] else []
  }

  function Windows(items: seq<Item>): (ws: seq<Window>)
    ensures |ws| == |items|
  {
    seq(|items|, i requires 0 <= i < |items| => items[i].window)
  }

  function WindowsOf(c: Core, tag: Tag): (ws: seq<Window>)
  {
    Windows(ItemsOf(c.items, tag))
  }

  lemma ItemsAppend(items: seq<Item>, item: Item)
    ensures forall tag: Tag ::
      ItemsOf(items + [item], tag) == ItemsOf(items, tag) + if item.tag == tag then [item] else []
  {
    assert (items + [item])[..|items|] == items;
  }
}
