/** `model_engine.py`: the staged classifier and the dual-window override. Inference is
    an input: the scores of each stage, or the failure to produce them. */
module ModelEngine {
  import opened Prelude
  import opened FlowBuilder

  datatype Tier = Heavy | Lite

  /** The labels the system writes: the six families of stage 2, the two answers of
      stage 3 and the labels that stand for no answer. */
  datatype Label = Benign | BruteForce | Flood | Mirai | Recon | Spoofing | Web | DDoS | DoS
                 | FloodUncertain | ModelUnavailable | InsufficientData

  datatype Score = Score(name: Label, p: real)

  /** What a window meets in the tier chosen for it: artifacts missing, an exception,
      or the outputs of the stages. */
  datatype Inference = NotLoaded | Raises | Scores(attack: real, stage2: seq<Score>, stage3: seq<Score>)

  datatype Result = Result(name: Label, confidence: real)

  const STAGE1_THRESHOLD: real := 0.5
  const MIN_MARGIN: real := 0.20
  const OVERRIDE_REACH: nat := 100

  function Unavailable(): (r: Result) { Result(ModelUnavailable, 0.0) }

  // ------------------------------------------------------------ stages 2 and 3

  /** `np.argmax`: the first position of the largest score. */
  function ArgMax(scores: seq<Score>): (k: nat)
    requires |scores| > 0
    ensures k < |scores|
    ensures forall i | 0 <= i < |scores| :: scores[i].p <= scores[k].p
    ensures forall i | 0 <= i < k :: scores[i].p < scores[k].p
  {
    if |scores| == 1 then 0
    else
      var k := ArgMax(scores[..|scores| - 1]);
      if scores[|scores| - 1].p > scores[k].p then |scores| - 1 else k
  }

  function PositionOf(scores: seq<Score>, name: Label): (k: Option<nat>)
    ensures k.None? <==> forall i | 0 <= i < |scores| :: scores[i].name != name
    ensures k.Some? ==> k.value < |scores| && scores[k.value].name == name
    ensures k.Some? ==> forall i | 0 <= i < k.value :: scores[i].name != name
  {
    if |scores| == 0 then None
    else
      var k := PositionOf(scores[..|scores| - 1], name);
      if k.Some? then k
      else if scores[|scores| - 1].name == name then Some(|scores| - 1) else None
  }

  function Abs(x: real): (r: real) { if x < 0.0 then -x else x }

  /** The stage-2 family with its score, and for Flood the stage-3 answer with its score. */
  datatype Verdict = Verdict(family: Label, familyConf: real, stage3: Option<Result>)
  {
    /** What a verdict makes of a window; a Flood verdict answers with its stage 3. */
    function Answer(): (r: Result)
    {
      if family == Flood && stage3.Some? then stage3.value else Result(family, familyConf)
    }
  }

  /** No output position has the class. */
  predicate Lacks(scores: seq<Score>, name: Label)
  {
    forall i | 0 <= i < |scores| :: scores[i].name != name
  }

  /** Raises (`None`) exactly when stage 2 has no class, or it says Flood and stage 3 lacks
      one of its two classes; otherwise the family is a best-scored one of stage 2, and a
      stage-3 answer with a best score of stage 3 accompanies exactly the Flood verdicts. */
  function RunStages(inf: Inference): (v: Option<Verdict>)
    requires inf.Scores?
    ensures v.None? <==>
      || |inf.stage2| == 0
      || (inf.stage2[ArgMax(inf.stage2)].name == Flood && (Lacks(inf.stage3, DDoS) || Lacks(inf.stage3, DoS)))
    ensures v.Some? ==>
      && Score(v.value.family, v.value.familyConf) in inf.stage2
      && (forall i | 0 <= i < |inf.stage2| :: inf.stage2[i].p <= v.value.familyConf)
      && (v.value.family == Flood <==> v.value.stage3.Some?)
      && (v.value.stage3.Some? ==>
            forall i | 0 <= i < |inf.stage3| :: inf.stage3[i].p <= v.value.stage3.value.confidence)
  {
    if |inf.stage2| == 0 then None
    else
      var top := inf.stage2[ArgMax(inf.stage2)];
      if top.name != Flood then Some(Verdict(top.name, top.p, None))
      else
        var ddos, dos := PositionOf(inf.stage3, DDoS), PositionOf(inf.stage3, DoS);
        if ddos.None? || dos.None? then None
        else
          var margin := Abs(inf.stage3[ddos.value].p - inf.stage3[dos.value].p);
          var best := inf.stage3[ArgMax(inf.stage3)];
          Some(Verdict(Flood, top.p,
                       Some(Result(if margin >= MIN_MARGIN then best.name else FloodUncertain, best.p))))
  }

  // ------------------------------------------------------------ the override

  /** A Flood or Mirai verdict of a full 100-packet window. */
  datatype Override = Override(verdict: Verdict, validUpto: nat, flowId: Option<nat>)
  {
    /** The verdict speaks for a 10-packet window at `position`: same flow, and within
        the hundred packets after the window it came from. */
    predicate Speaks(position: nat, flow: Option<nat>)
    {
      flowId.Some? && flowId == flow && validUpto < position <= validUpto + OVERRIDE_REACH
    }
  }

  datatype Registration = Registration(tier: Tier, verdict: Override)

  /** What the engine remembers of earlier 100-packet windows. The source keeps one
      slot per tier; `History` is the reference that forgets nothing. */
  datatype Memory = Slots(slots: map<Tier, Override>) | History(all: seq<Registration>)
  {
    function Remember(tier: Tier, ov: Override): (m: Memory)
    {
      match this
      case Slots(s) => Slots(s[tier := ov])
      case History(h) => History(h + [Registration(tier, ov)])
    }

    /** The remembered verdict that speaks for a window, if any. */
    function Consult(tier: Tier, position: nat, flow: Option<nat>): (v: Option<Verdict>)
    {
      match this
      case Slots(s) =>
        if tier in s && s[tier].Speaks(position, flow) then Some(s[tier].verdict) else None
      case History(h) =>
        var found := Matching(h, tier, position, flow);
        if found == [] then None else Some(found[0].verdict)
    }
  }

  /** Every verdict ever registered for the tier that speaks for the window. */
  function Matching(h: seq<Registration>, tier: Tier, position: nat, flow: Option<nat>): (r: seq<Override>)
  {
    if h == [] then []
    else
      var last := h[|h| - 1];
      Matching(h[..|h| - 1], tier, position, flow)
      + if last.tier == tier && last.verdict.Speaks(position, flow) then [last.verdict] else []
  }

  function RegisterW100(m: Memory, w: Window, position: nat, tier: Tier, inf: Inference): (r: (Memory, Result))
  {
    if !inf.Scores? then (m, Unavailable())
    else
      match RunStages(inf)
      case None => (m, Unavailable())
      case Some(v) =>
        (if v.family == Flood || v.family == Mirai then m.Remember(tier, Override(v, position, w.FlowId())) else m,
         v.Answer())
  }

  function ClassifyFlow(m: Memory, w: Window, position: nat, tier: Tier, inf: Inference): (r: Result)
  {
    if !inf.Scores? then Unavailable()
    else if inf.attack < STAGE1_THRESHOLD then Result(Benign, 1.0 - inf.attack)
    else
      match RunStages(inf)
      case None => Unavailable()
      case Some(v) =>
        match m.Consult(tier, position, w.FlowId())
        case None => v.Answer()
        case Some(remembered) => remembered.Answer()
  }

  class Engine {
    var stage2Override: map<Tier, Override>

    constructor ()
      ensures stage2Override == map[]
    {
      stage2Override := map[];
    }

    method RegisterW100Result(w: Window, position: nat, tier: Tier, inf: Inference) returns (r: Result)
      modifies this
      ensures (Slots(stage2Override), r) == RegisterW100(Slots(old(stage2Override)), w, position, tier, inf)
    {
      if !inf.Scores? {
        return Unavailable();
      }
      var verdict := RunStages(inf);
      if verdict.None? {
        return Unavailable();
      }
      var v := verdict.value;
      if v.family == Flood || v.family == Mirai {
        stage2Override := stage2Override[tier := Override(v, position, w.FlowId())];
      }
      if v.family == Flood {
        r := v.stage3.value;
      } else {
        r := Result(v.family, v.familyConf);
      }
    }

    method Classify(w: Window, position: nat, tier: Tier, inf: Inference) returns (r: Result)
      ensures r == ClassifyFlow(Slots(stage2Override), w, position, tier, inf)
    {
      if !inf.Scores? {
        return Unavailable();
      }
      if inf.attack < STAGE1_THRESHOLD {
        return Result(Benign, 1.0 - inf.attack);
      }
      var verdict := RunStages(inf);
      if verdict.None? {
        return Unavailable();
      }
      var family := verdict.value.family;
      r := if family == Flood then verdict.value.stage3.value else Result(family, verdict.value.familyConf);
      if tier in stage2Override {
        var override := stage2Override[tier];
        var sameFlow := override.flowId.Some? && override.flowId == w.FlowId();
        if sameFlow && override.validUpto < position <= override.validUpto + OVERRIDE_REACH {
          family := override.verdict.family;
          if family == Flood && override.verdict.stage3.Some? {
            r := override.verdict.stage3.value;
          } else {
            r := Result(family, override.verdict.familyConf);
          }
        }
      }
    }
  }

  // ---------------------------------------- one slot answers for all of history

  /** Verdicts were registered at least a hundred positions apart, none after `upto`. */
  predicate Spaced(h: seq<Registration>, upto: nat)
  {
    && (forall i | 0 <= i < |h| :: h[i].verdict.validUpto <= upto)
    && forall i, j | 0 <= i < j < |h| :: h[i].verdict.validUpto + OVERRIDE_REACH <= h[j].verdict.validUpto
  }

  /** The slot of a tier is the tier's latest registration. */
  function LatestOf(h: seq<Registration>, tier: Tier): (ov: Option<Override>)
  {
    if h == [] then None
    else if h[|h| - 1].tier == tier then Some(h[|h| - 1].verdict)
    else LatestOf(h[..|h| - 1], tier)
  }

  ghost predicate SlotsAreLatest(s: map<Tier, Override>, h: seq<Registration>)
  {
    forall t: Tier :: (t in s <==> LatestOf(h, t).Some?) && (t in s ==> LatestOf(h, t) == Some(s[t]))
  }

  lemma {:induction false} NothingOlderSpeaks(h: seq<Registration>, tier: Tier, position: nat, flow: Option<nat>)
    requires forall i | 0 <= i < |h| :: h[i].verdict.validUpto + OVERRIDE_REACH < position
    ensures Matching(h, tier, position, flow) == []
    decreases |h|
  {
    if h != [] {
      NothingOlderSpeaks(h[..|h| - 1], tier, position, flow);
    }
  }

  /** At most one registration ever speaks for a later window, and if one does it is
      the tier's latest. */
  lemma {:induction false} OnlyLatestSpeaks(h: seq<Registration>, tier: Tier, position: nat, flow: Option<nat>)
    requires position > 0 && Spaced(h, position - 1)
    ensures Matching(h, tier, position, flow)
         == match LatestOf(h, tier)
            case None => []
            case Some(ov) => if ov.Speaks(position, flow) then [ov] else []
    decreases |h|
  {
    if h != [] {
      var init := h[..|h| - 1];
      OnlyLatestSpeaks(init, tier, position, flow);
      if h[|h| - 1].tier == tier {
        forall i | 0 <= i < |init| ensures init[i].verdict.validUpto + OVERRIDE_REACH < position {
          assert h[i].verdict.validUpto + OVERRIDE_REACH <= h[|h| - 1].verdict.validUpto;
        }
        NothingOlderSpeaks(init, tier, position, flow);
      }
    }
  }

  lemma SlotAnswersForHistory(s: map<Tier, Override>, h: seq<Registration>, tier: Tier, position: nat,
                              flow: Option<nat>)
    requires SlotsAreLatest(s, h) && position > 0 && Spaced(h, position - 1)
    ensures Slots(s).Consult(tier, position, flow) == History(h).Consult(tier, position, flow)
    ensures |Matching(h, tier, position, flow)| <= 1
  {
    OnlyLatestSpeaks(h, tier, position, flow);
  }

  lemma RememberKeepsLatest(s: map<Tier, Override>, h: seq<Registration>, tier: Tier, ov: Override)
    requires SlotsAreLatest(s, h)
    ensures SlotsAreLatest(s[tier := ov], h + [Registration(tier, ov)])
  {
    assert (h + [Registration(tier, ov)])[..|h|] == h;
  }

  // ------------------------------------------------------ uncertain verdicts

  /** The outputs of trained models: stage 2 knows the six families, and stage 3 gives
      a probability distribution over its two classes. */
  predicate Trained(inf: Inference)
  {
    inf.Scores? ==>
      && (forall i | 0 <= i < |inf.stage2| :: inf.stage2[i].name in { BruteForce, Flood, Mirai, Recon, Spoofing, Web })
      && |inf.stage3| == 2
      && ((inf.stage3[0].name == DDoS && inf.stage3[1].name == DoS)
          || (inf.stage3[0].name == DoS && inf.stage3[1].name == DDoS))
      && inf.stage3[0].p + inf.stage3[1].p == 1.0
  }

  /** Labels that claim no attack. */
  predicate Inconclusive(name: Label)
  {
    name == Benign || name == FloodUncertain || name == ModelUnavailable || name == InsufficientData
  }

  /** A result that names no attack, other than Benign, is below a confidence of 0.6. */
  predicate Sound(r: Result)
  {
    Inconclusive(r.name) && r.name != Benign ==> r.confidence < 0.6
  }

  /** On a two-class distribution a margin below 0.20 leaves the better class below 0.60. */
  lemma TrainedVerdictIsSound(inf: Inference)
    requires Trained(inf) && inf.Scores? && RunStages(inf).Some?
    ensures var v := RunStages(inf).value; Sound(v.Answer()) && v.Answer().name != Benign
  {
    var top := inf.stage2[ArgMax(inf.stage2)];
    assert top.name in { BruteForce, Flood, Mirai, Recon, Spoofing, Web };
  }

  /** The score a stage-3 output gives a class. */
  function ScoreOf(scores: seq<Score>, name: Label): (p: real)
  {
    var k := PositionOf(scores, name);
    if k.Some? then scores[k.value].p else 0.0
  }

  /** What stage 3 answers, whichever of its classes comes first: DDoS or DoS exactly when
      that class leads by the margin, uncertain exactly when neither does, always with the
      larger of the two scores. */
  lemma FloodAnswers(inf: Inference)
    requires Trained(inf) && inf.Scores? && RunStages(inf).Some? && RunStages(inf).value.family == Flood
    ensures var r := RunStages(inf).value.Answer();
      var ddos, dos := ScoreOf(inf.stage3, DDoS), ScoreOf(inf.stage3, DoS);
      && (r.name == DDoS <==> ddos - dos >= MIN_MARGIN) && (r.name == DoS <==> dos - ddos >= MIN_MARGIN)
      && (r.name == FloodUncertain <==> -MIN_MARGIN < ddos - dos < MIN_MARGIN)
      && r.confidence >= ddos && r.confidence >= dos && (r.confidence == ddos || r.confidence == dos)
  {
    var s := inf.stage3;
    assert PositionOf(s, DDoS).Some? && PositionOf(s, DoS).Some?;
    var k := ArgMax(s);
    assert k == 0 || k == 1;
  }

  /** The gate of stage 1, with verdicts of trained models remembered: a full window is
      called benign exactly when its attack score is below one half, then with more than
      that as its confidence; otherwise it gets the remembered verdict that speaks for it,
      or its own. */
  lemma GateIff(m: Memory, w: Window, position: nat, tier: Tier, inf: Inference)
    requires m.Slots? && Trained(inf) && forall t | t in m.slots :: m.slots[t].verdict.Answer().name != Benign
    ensures var r := ClassifyFlow(m, w, position, tier, inf);
      && (r.name == Benign <==> inf.Scores? && inf.attack < 0.5)
      && (r.name == Benign ==> r.confidence == 1.0 - inf.attack > 0.5)
      && (!inf.Scores? ==> r == Result(ModelUnavailable, 0.0))
      && (inf.Scores? && inf.attack >= 0.5 && RunStages(inf).None? ==> r == Result(ModelUnavailable, 0.0))
      && (inf.Scores? && inf.attack >= 0.5 && RunStages(inf).Some? ==>
            r == if tier in m.slots && m.slots[tier].Speaks(position, w.FlowId()) then m.slots[tier].verdict.Answer()
                 else RunStages(inf).value.Answer())
  {
    if inf.Scores? && RunStages(inf).Some? {
      TrainedVerdictIsSound(inf);
    }
  }

  // ------------------------------------------------------ what the stages say

  /** The first of the best-scored positions. */
  ghost predicate BestAt(scores: seq<Score>, k: int)
  {
    && 0 <= k < |scores|
    && (forall i | 0 <= i < |scores| :: scores[i].p <= scores[k].p)
    && forall i | 0 <= i < k :: scores[i].p < scores[k].p
  }

  /** What a Flood window is called: unavailable without both classes of stage 3, uncertain
      when they are closer than the margin, and otherwise the best class; with the best
      score. */
  ghost predicate FloodStaged(stage3: seq<Score>, r: Result)
  {
    if Lacks(stage3, DDoS) || Lacks(stage3, DoS) then r == Result(ModelUnavailable, 0.0)
    else
      exists m :: BestAt(stage3, m) && r.confidence == stage3[m].p
               && r.name == if -0.20 < ScoreOf(stage3, DDoS) - ScoreOf(stage3, DoS) < 0.20 then FloodUncertain
                            else stage3[m].name
  }

  /** What stages 2 and 3 make of a window: unavailable without scores or a stage-2 class,
      stage 3 for Flood, and otherwise the best family with its score. */
  ghost predicate Staged(inf: Inference, r: Result)
  {
    if !inf.Scores? || inf.stage2 == [] then r == Result(ModelUnavailable, 0.0)
    else
      exists k :: BestAt(inf.stage2, k)
               && if inf.stage2[k].name == Flood then FloodStaged(inf.stage3, r)
                  else r == Result(inf.stage2[k].name, inf.stage2[k].p)
  }

  lemma StagesAnswer(inf: Inference)
    requires inf.Scores?
    ensures Staged(inf, if RunStages(inf).Some? then RunStages(inf).value.Answer() else Unavailable())
  {
    if inf.stage2 != [] {
      assert BestAt(inf.stage2, ArgMax(inf.stage2));
      if inf.stage2[ArgMax(inf.stage2)].name == Flood && RunStages(inf).Some? {
        assert BestAt(inf.stage3, ArgMax(inf.stage3));
      }
    }
  }

  /** The answer of a 100-packet window is what the stages say of it, in every memory. */
  lemma LargeIsStaged(m: Memory, w: Window, position: nat, tier: Tier, inf: Inference)
    ensures Staged(inf, RegisterW100(m, w, position, tier, inf).1)
  {
    if inf.Scores? {
      StagesAnswer(inf);
    }
  }

  /** With the two classes of stage 3 and no other: DDoS or DoS exactly when that class
      leads by the margin, uncertain exactly when neither does, and the larger score. */
  lemma FloodByMargin(stage3: seq<Score>, r: Result)
    requires FloodStaged(stage3, r) && |stage3| == 2
    requires (stage3[0].name == DDoS && stage3[1].name == DoS) || (stage3[0].name == DoS && stage3[1].name == DDoS)
    ensures var ddos, dos := ScoreOf(stage3, DDoS), ScoreOf(stage3, DoS);
      && (r.name == DDoS <==> ddos - dos >= 0.20) && (r.name == DoS <==> dos - ddos >= 0.20)
      && (r.name == FloodUncertain <==> -0.20 < ddos - dos < 0.20)
      && r.confidence == if ddos >= dos then ddos else dos
  {
    assert PositionOf(stage3, DDoS).Some? && PositionOf(stage3, DoS).Some?;
    assert !Lacks(stage3, DDoS) && !Lacks(stage3, DoS);
  }

  /** A best-scored family that is alone at its score is the only answer: Flood goes to
      stage 3, and any other family is the answer with its score. */
  lemma StagedByFamily(inf: Inference, r: Result, k: nat)
    requires Staged(inf, r) && inf.Scores? && BestAt(inf.stage2, k)
    ensures if inf.stage2[k].name == Flood then FloodStaged(inf.stage3, r)
            else r == Result(inf.stage2[k].name, inf.stage2[k].p)
  {
    var m :| BestAt(inf.stage2, m)
          && if inf.stage2[m].name == Flood then FloodStaged(inf.stage3, r)
             else r == Result(inf.stage2[m].name, inf.stage2[m].p);
    assert !(m < k) && !(k < m);
  }
}
