/** `truth_results.py` and `results_engine.py`: the job index, the two joins and the
    accuracy counts. */
module Scoring {
  import opened Prelude

  /** One line of the truth log. */
  datatype Job = Job(flowId: Option<nat>, completed: bool, replayId: string, pcapPath: string, expected: string,
                     packetsRead: Option<nat>)

  /** One line of the item log; the fields the two joins look up differently may be missing. */
  datatype Prediction = Prediction(flowId: Option<nat>, mixedFlow: bool, packetIds: set<nat>, predicted: string,
                                   confidence: Option<real>, modelUsed: Option<string>, packetCount: Option<nat>,
                                   capturedTs: string, incidentId: Option<string>)

  type JobIndex = map<nat, Job>

  // ------------------------------------------------------------ the job index

  function Indexed(index: JobIndex, job: Job): (r: JobIndex)
  {
    match job.flowId
    case None => index
    case Some(f) => if f !in index || job.completed then index[f := job] else index
  }

  function IndexOf(jobs: seq<Job>): (r: JobIndex)
  {
    if jobs == [] then map[] else Indexed(IndexOf(jobs[..|jobs| - 1]), jobs[|jobs| - 1])
  }

  /** The same loop in both modules. */
  method BuildJobIndex(jobs: seq<Job>) returns (index: JobIndex)
    ensures index == IndexOf(jobs)
  {
    index := map[];
    for i := 0 to |jobs|
      invariant index == IndexOf(jobs[..i])
    {
      assert jobs[..i + 1][..i] == jobs[..i];
      if jobs[i].flowId.Some? {
        var f := jobs[i].flowId.value;
        if f !in index || jobs[i].completed {
          index := index[f := jobs[i]];
        }
      }
    }
    assert jobs[..|jobs|] == jobs;
  }

  predicate Of(job: Job, f: nat) { job.flowId == Some(f) }

  /** `job` is the flow's last completed job, or its first job if none completed. */
  ghost predicate Chosen(jobs: seq<Job>, f: nat, k: int)
  {
    && 0 <= k < |jobs| && Of(jobs[k], f)
    && (if jobs[k].completed then forall i | k < i < |jobs| :: !(Of(jobs[i], f) && jobs[i].completed)
        else (forall i | 0 <= i < |jobs| && Of(jobs[i], f) :: k <= i && !jobs[i].completed))
  }

  /** The index has exactly the flows of the truth log, each with its chosen job. */
  lemma {:induction false} IndexHoldsChosen(jobs: seq<Job>, f: nat) returns (k: int)
    ensures f in IndexOf(jobs) <==> exists i :: 0 <= i < |jobs| && Of(jobs[i], f)
    ensures f in IndexOf(jobs) ==> Chosen(jobs, f, k) && IndexOf(jobs)[f] == jobs[k]
    decreases |jobs|
  {
    k := -1;
    if jobs != [] {
      var n := |jobs| - 1;
      var init := jobs[..n];
      k := IndexHoldsChosen(init, f);
      assert forall i | 0 <= i < n :: init[i] == jobs[i];
      if Of(jobs[n], f) && (f !in IndexOf(init) || jobs[n].completed) {
        k := n;
      }
    }
  }

  // ------------------------------------------------------------ labels

  function LowerChar(c: char): (r: char)
  {
    if 'A' <= c <= 'Z' then (c as int + 32) as char else c
  }

  function Lower(s: string): (r: string)
    ensures |r| == |s|
  {
    seq(|s|, i requires 0 <= i < |s| => LowerChar(s[i]))
  }

  /** The labels the family merge replaces. */
  predicate Merged(name: string)
  {
    name == "DDoS" || name == "DoS" || name == "Flood_uncertain"
  }

  function Family(name: string): (r: string)
  {
    if Merged(name) then "Flood" else name
  }

  predicate StrictCorrect(expected: string, predicted: string)
  {
    Lower(expected) == Lower(predicted)
  }

  predicate FamilyCorrect(expected: string, predicted: string)
  {
    Lower(Family(expected)) == Lower(Family(predicted))
  }

  predicate BinaryCorrect(expected: string, predicted: string)
  {
    (Lower(expected) != "benign") == (Lower(predicted) != "benign")
  }

  lemma BenignIsItsFamily(x: string)
    ensures Lower(Family(x)) == "benign" <==> Lower(x) == "benign"
  {
    if Merged(x) {
      assert |Lower(Family(x))| == 5 && |"benign"| == 6;
      assert |x| == 4 || |x| == 3 || |x| == 15;
    }
  }

  /** DDoS, DoS, an uncertain flood and a flood are one family; any other label is a family
      of its own. */
  lemma FloodsAreOneFamily(expected: string, predicted: string)
    ensures var floods: set<string> := { "DDoS", "DoS", "Flood_uncertain", "Flood" };
      && (expected in floods && predicted in floods ==> FamilyCorrect(expected, predicted))
      && (expected !in floods && predicted !in floods ==>
            (FamilyCorrect(expected, predicted) <==> StrictCorrect(expected, predicted)))
  {
  }

  /** Whatever the labels, a row right about the family is right about attack or not. */
  lemma FamilyImpliesBinary(expected: string, predicted: string)
    requires FamilyCorrect(expected, predicted)
    ensures BinaryCorrect(expected, predicted)
  {
    BenignIsItsFamily(expected);
    BenignIsItsFamily(predicted);
  }

  lemma MergedLowerIsNotFlood(x: string)
    requires Merged(x)
    ensures Lower(x) != Lower("Flood")
  {
    assert |x| == 4 || |x| == 3 || |x| == 15;
    assert |"Flood"| == 5;
  }

  /** A strictly correct row is family-correct exactly when its two labels, equal but for
      case, are both merged or both left alone. */
  lemma StrictImpliesFamilyIff(expected: string, predicted: string)
    requires StrictCorrect(expected, predicted)
    ensures FamilyCorrect(expected, predicted) <==> (Merged(expected) <==> Merged(predicted))
  {
    if Merged(expected) {
      MergedLowerIsNotFlood(expected);
    }
    if Merged(predicted) {
      MergedLowerIsNotFlood(predicted);
    }
  }

  /** The merge table is case-sensitive while the comparison is not. */
  lemma MiscasedLabelBreaksOrder()
    ensures StrictCorrect("DoS", "dos") && !FamilyCorrect("DoS", "dos")
  {
    assert Lower("DoS") == "dos" && Lower("dos") == "dos";
    StrictImpliesFamilyIff("DoS", "dos");
  }

  // ------------------------------------------------------------ the joins

  /** A row of `join`. */
  datatype TruthRow = TruthRow(replayId: string, pcapPath: string, expected: string, predicted: string, correct: bool,
                               familyExpected: string, familyPredicted: string, familyCorrect: bool, confidence: real,
                               modelUsed: string, packetCount: nat, packetIds: set<nat>, mixedFlow: bool,
                               capturedTs: string)
  {
    function Common(): (s: Shared)
    {
      Shared(replayId, pcapPath, expected, predicted, correct, familyExpected, familyPredicted, familyCorrect,
             Some(confidence), modelUsed, Some(packetCount), mixedFlow, capturedTs)
    }
  }

  /** A row of `compute_joined_rows`. */
  datatype LiveRow = LiveRow(replayId: string, pcapPath: string, expected: string, predicted: string, correct: bool,
                             familyExpected: string, familyPredicted: string, familyCorrect: bool,
                             confidence: Option<real>, modelUsed: string, packetCount: Option<nat>, mixedFlow: bool,
                             capturedTs: string, incidentId: Option<string>, flowId: nat)
  {
    function Common(): (s: Shared)
    {
      Shared(replayId, pcapPath, expected, predicted, correct, familyExpected, familyPredicted, familyCorrect,
             confidence, modelUsed, packetCount, mixedFlow, capturedTs)
    }
  }

  /** The columns both joins write. */
  datatype Shared = Shared(replayId: string, pcapPath: string, expected: string, predicted: string, correct: bool,
                           familyExpected: string, familyPredicted: string, familyCorrect: bool,
                           confidence: Option<real>, modelUsed: string, packetCount: Option<nat>, mixedFlow: bool,
                           capturedTs: string)

  predicate Matched(index: JobIndex, p: Prediction)
  {
    p.flowId.Some? && p.flowId.value in index
  }

  /** The predictions whose flow has a job, in log order. */
  function Matches(index: JobIndex, preds: seq<Prediction>): (r: seq<Prediction>)
    ensures forall i | 0 <= i < |r| :: Matched(index, r[i])
  {
    if preds == [] then []
    else
      var p := preds[|preds| - 1];
      Matches(index, preds[..|preds| - 1]) + if Matched(index, p) then [p] else []
  }

  /** A prediction is joined as often as it is logged if its flow has a job, and never
      otherwise. */
  lemma {:induction false} MatchesCount(index: JobIndex, preds: seq<Prediction>, p: Prediction)
    ensures multiset(Matches(index, preds))[p] == if Matched(index, p) then multiset(preds)[p] else 0
    decreases |preds|
  {
    if preds != [] {
      var init, last := preds[..|preds| - 1], preds[|preds| - 1];
      MatchesCount(index, init, p);
      assert preds == init + [last];
      CountAppend(init, last, p);
      CountAppend(Matches(index, init), last, p);
    }
  }

  lemma CountAppend<T>(a: seq<T>, x: T, y: T)
    ensures multiset(a + [x])[y] == multiset(a)[y] + if x == y then 1 else 0
  {
  }

  /** The fields `join` looks up without a default. */
  predicate Full(p: Prediction)
  {
    p.confidence.Some? && p.modelUsed.Some? && p.packetCount.Some?
  }

  function TruthRowOf(index: JobIndex, p: Prediction): (row: TruthRow)
    requires Matched(index, p) && Full(p)
  {
    var job := index[p.flowId.value];
    var familyExpected, familyPredicted := Family(job.expected), Family(p.predicted);
    TruthRow(job.replayId, job.pcapPath, job.expected, p.predicted, Lower(job.expected) == Lower(p.predicted),
             familyExpected, familyPredicted, Lower(familyExpected) == Lower(familyPredicted), p.confidence.value,
             p.modelUsed.value, p.packetCount.value, p.packetIds, p.mixedFlow, p.capturedTs)
  }

  function LiveRowOf(index: JobIndex, p: Prediction): (row: LiveRow)
    requires Matched(index, p)
  {
    var job := index[p.flowId.value];
    LiveRow(job.replayId, job.pcapPath, job.expected, p.predicted, StrictCorrect(job.expected, p.predicted),
            Family(job.expected), Family(p.predicted), FamilyCorrect(job.expected, p.predicted), p.confidence,
            if p.modelUsed.Some? then p.modelUsed.value else "", p.packetCount, p.mixedFlow, p.capturedTs,
            p.incidentId, p.flowId.value)
  }

  /** The rows of `join`; none if it raises on a missing field. */
  function TruthRows(index: JobIndex, preds: seq<Prediction>): (r: Option<seq<TruthRow>>)
  {
    if preds == [] then Some([])
    else
      var p := preds[|preds| - 1];
      match TruthRows(index, preds[..|preds| - 1])
      case None => None
      case Some(before) =>
        if !Matched(index, p) then Some(before)
        else if Full(p) then Some(before + [TruthRowOf(index, p)])
        else None
  }

  /** The rows of `compute_joined_rows`. */
  function LiveRows(index: JobIndex, preds: seq<Prediction>): (r: seq<LiveRow>)
  {
    if preds == [] then []
    else
      var p := preds[|preds| - 1];
      LiveRows(index, preds[..|preds| - 1]) + if Matched(index, p) then [LiveRowOf(index, p)] else []
  }

  function TruthCommons(rows: seq<TruthRow>): (r: seq<Shared>)
    ensures |r| == |rows|
  {
    seq(|rows|, i requires 0 <= i < |rows| => rows[i].Common())
  }

  function LiveCommons(rows: seq<LiveRow>): (r: seq<Shared>)
    ensures |r| == |rows|
  {
    seq(|rows|, i requires 0 <= i < |rows| => rows[i].Common())
  }

  /** The common columns of the joined rows, as the scores read them. */
  function SharedRows(index: JobIndex, preds: seq<Prediction>): (r: seq<Shared>)
  {
    LiveCommons(LiveRows(index, preds))
  }

  lemma CommonsAppend(truth: seq<TruthRow>, t: TruthRow, live: seq<LiveRow>, l: LiveRow)
    ensures TruthCommons(truth + [t]) == TruthCommons(truth) + [t.Common()]
    ensures LiveCommons(live + [l]) == LiveCommons(live) + [l.Common()]
  {
  }

  /** Two implementations, one result: `join` raises exactly if a matched prediction lacks
      a field it looks up, and otherwise its rows are those of `compute_joined_rows`, in
      every column both write. */
  lemma {:induction false} JoinsAgree(index: JobIndex, preds: seq<Prediction>)
    ensures TruthRows(index, preds).None?
       <==> exists i :: 0 <= i < |preds| && Matched(index, preds[i]) && !Full(preds[i])
    ensures TruthRows(index, preds).Some? ==>
      TruthCommons(TruthRows(index, preds).value) == SharedRows(index, preds)
    decreases |preds|
  {
    if preds != [] {
      var init, p := preds[..|preds| - 1], preds[|preds| - 1];
      JoinsAgree(index, init);
      assert forall i | 0 <= i < |init| :: init[i] == preds[i];
      if Matched(index, p) && Full(p) && TruthRows(index, init).Some? {
        CommonsAppend(TruthRows(index, init).value, TruthRowOf(index, p), LiveRows(index, init), LiveRowOf(index, p));
      }
    }
  }

  /** A row puts a prediction beside the job of its flow, column by column. */
  ghost predicate Joins(row: Shared, job: Job, p: Prediction)
  {
    && row.replayId == job.replayId && row.pcapPath == job.pcapPath && row.expected == job.expected
    && row.predicted == p.predicted && row.confidence == p.confidence && row.packetCount == p.packetCount
    && row.modelUsed == (if p.modelUsed.Some? then p.modelUsed.value else "")
    && row.mixedFlow == p.mixedFlow && row.capturedTs == p.capturedTs
    && row.familyExpected == Family(job.expected) && row.familyPredicted == Family(p.predicted)
    && (row.correct <==> Lower(job.expected) == Lower(p.predicted))
    && (row.familyCorrect <==> Lower(Family(job.expected)) == Lower(Family(p.predicted)))
  }

  /** Every row is of one match, in log order: a prediction, the job of its own flow, its
      own packet ids and its own incident. */
  lemma {:induction false} RowsAreMatches(index: JobIndex, preds: seq<Prediction>)
    ensures var m, live, truth := Matches(index, preds), LiveRows(index, preds), TruthRows(index, preds);
      && |live| == |m| && (truth.Some? ==> |truth.value| == |m|)
      && forall i | 0 <= i < |m| ::
           && live[i].flowId == m[i].flowId.value && live[i].incidentId == m[i].incidentId
           && Joins(live[i].Common(), index[m[i].flowId.value], m[i])
           && (truth.Some? ==> truth.value[i].packetIds == m[i].packetIds)
    decreases |preds|
  {
    if preds != [] {
      RowsAreMatches(index, preds[..|preds| - 1]);
    }
  }

  lemma NextRow(index: JobIndex, preds: seq<Prediction>, i: nat)
    requires i < |preds|
    ensures var p, was, now := preds[i], preds[..i], preds[..i + 1];
      && LiveRows(index, now) == LiveRows(index, was) + (if Matched(index, p) then [LiveRowOf(index, p)] else [])
      && (TruthRows(index, was).Some? ==>
            if !Matched(index, p) then TruthRows(index, now) == TruthRows(index, was)
            else if Full(p) then TruthRows(index, now) == Some(TruthRows(index, was).value + [TruthRowOf(index, p)])
            else TruthRows(index, now).None?)
  {
    assert preds[..i + 1][..i] == preds[..i];
  }

  lemma {:induction false} RaisedStays(index: JobIndex, preds: seq<Prediction>, n: nat)
    requires n <= |preds| && TruthRows(index, preds[..n]).None?
    ensures TruthRows(index, preds).None?
    decreases |preds|
  {
    if n < |preds| {
      assert preds[..|preds| - 1][..n] == preds[..n];
      RaisedStays(index, preds[..|preds| - 1], n);
    } else {
      assert preds[..n] == preds;
    }
  }

  /** The packet ids joined to a flow. */
  function Seen(index: JobIndex, preds: seq<Prediction>, f: nat): (s: set<nat>)
  {
    if preds == [] then {}
    else
      var p := preds[|preds| - 1];
      Seen(index, preds[..|preds| - 1], f) + if Matched(index, p) && p.flowId.value == f then p.packetIds else {}
  }

  function SeenAt(seen: map<nat, set<nat>>, f: nat): (s: set<nat>)
  {
    if f in seen then seen[f] else {}
  }

  function CountMixed(preds: seq<Prediction>): (n: nat)
  {
    if preds == [] then 0
    else CountMixed(preds[..|preds| - 1]) + if preds[|preds| - 1].mixedFlow then 1 else 0
  }

  function Pct(part: nat, whole: nat): (r: real)
    requires whole > 0
  {
    100.0 * part as real / whole as real
  }

  /** A percentage as it is reported, rounded at the given scale. */
  function RoundedPct(part: nat, whole: nat, scale: real): (r: real)
    requires whole > 0 && scale > 0.0
  {
    RoundAt(Pct(part, whole), scale)
  }

  /** A flow's packet recall in percent, to two decimals; none without a positive number of packets read. */
  function RecallPct(received: nat, packetsRead: Option<nat>): (r: Option<real>)
  {
    match packetsRead
    case None => None
    case Some(total) => if total == 0 then None else Some(RoundedPct(received, total, 100.0))
  }

  /** The recall summary: one line for each flow of the truth log. */
  function RecallOf(jobs: seq<Job>, preds: seq<Prediction>): (r: map<nat, Option<real>>)
  {
    var index := IndexOf(jobs);
    map f | f in index :: RecallPct(|Seen(index, preds, f)|, index[f].packetsRead)
  }

  /** The recall loop of `join`. */
  method RecallSummary(index: JobIndex, seen: map<nat, set<nat>>) returns (recall: map<nat, Option<real>>)
    ensures recall == map f | f in index :: RecallPct(|SeenAt(seen, f)|, index[f].packetsRead)
  {
    recall := map[];
    var left := index.Keys;
    while left != {}
      invariant left <= index.Keys
      invariant recall == map f | f in index && f !in left :: RecallPct(|SeenAt(seen, f)|, index[f].packetsRead)
    {
      var f :| f in left;
      left := left - {f};
      recall := recall[f := RecallPct(|SeenAt(seen, f)|, index[f].packetsRead)];
    }
  }

  lemma NextMixed(preds: seq<Prediction>, i: nat)
    requires i < |preds|
    ensures CountMixed(preds[..i + 1]) == CountMixed(preds[..i]) + if preds[i].mixedFlow then 1 else 0
  {
    assert preds[..i + 1][..i] == preds[..i];
  }

  /** The dictionary holds what was seen of each flow. */
  ghost predicate Tracks(seen: map<nat, set<nat>>, index: JobIndex, preds: seq<Prediction>)
  {
    forall f: nat :: SeenAt(seen, f) == Seen(index, preds, f)
  }

  lemma NextSeen(seen: map<nat, set<nat>>, index: JobIndex, preds: seq<Prediction>, i: nat)
    requires i < |preds| && Tracks(seen, index, preds[..i])
    ensures var p := preds[i];
      Tracks(if Matched(index, p) then seen[p.flowId.value := SeenAt(seen, p.flowId.value) + p.packetIds] else seen,
             index, preds[..i + 1])
  {
    var p, now := preds[i], preds[..i + 1];
    assert now[..i] == preds[..i];
    var seen' := if Matched(index, p) then seen[p.flowId.value := SeenAt(seen, p.flowId.value) + p.packetIds] else seen;
    forall f: nat ensures SeenAt(seen', f) == Seen(index, now, f) {
      assert SeenAt(seen, f) == Seen(index, now[..i], f);
      assert SeenAt(seen', f) == SeenAt(seen, f) + if Matched(index, p) && p.flowId.value == f then p.packetIds else {};
    }
  }

  /** What the row loop of `join` leaves. `KeyErrorRaised`: a matched prediction lacks a
      field. */
  datatype Joined = KeyErrorRaised
                  | Joined(rows: seq<TruthRow>, unmatched: nat, mixed: nat, seen: map<nat, set<nat>>)

  /** The row loop of `join`. */
  method JoinRows(index: JobIndex, preds: seq<Prediction>) returns (r: Joined)
    ensures r.KeyErrorRaised? <==> TruthRows(index, preds).None?
    ensures r.Joined? ==>
      && TruthRows(index, preds) == Some(r.rows)
      && r.unmatched + |r.rows| == |preds| && r.mixed == CountMixed(preds)
      && Tracks(r.seen, index, preds)
  {
    var rows: seq<TruthRow>, unmatched: nat, mixed: nat, seen: map<nat, set<nat>> := [], 0, 0, map[];
    for i := 0 to |preds|
      invariant TruthRows(index, preds[..i]) == Some(rows)
      invariant unmatched + |rows| == i && mixed == CountMixed(preds[..i])
      invariant Tracks(seen, index, preds[..i])
    {
      NextRow(index, preds, i);
      NextMixed(preds, i);
      NextSeen(seen, index, preds, i);
      var p := preds[i];
      if p.mixedFlow {
        mixed := mixed + 1;
      }
      if !Matched(index, p) {
        unmatched := unmatched + 1;
      } else {
        var f := p.flowId.value;
        seen := seen[f := SeenAt(seen, f) + p.packetIds];
        if !Full(p) {
          RaisedStays(index, preds, i + 1);
          return KeyErrorRaised;
        }
        rows := rows + [TruthRowOf(index, p)];
      }
    }
    assert preds[..|preds|] == preds;
    return Joined(rows, unmatched, mixed, seen);
  }

  /** `join` of `truth_results.py`, up to the files it writes. */
  method Join(preds: seq<Prediction>, jobs: seq<Job>)
    returns (r: Joined, recall: map<nat, Option<real>>)
    ensures r.KeyErrorRaised? <==> TruthRows(IndexOf(jobs), preds).None?
    ensures r.Joined? ==>
      && TruthRows(IndexOf(jobs), preds) == Some(r.rows)
      && r.unmatched + |r.rows| == |preds| && r.mixed == CountMixed(preds)
      && recall == RecallOf(jobs, preds)
  {
    var index := BuildJobIndex(jobs);
    recall := map[];
    r := JoinRows(index, preds);
    if r.Joined? {
      recall := RecallSummary(index, r.seen);
    }
  }

  /** `compute_joined_rows` of `results_engine.py`. */
  method ComputeJoinedRows(preds: seq<Prediction>, jobs: seq<Job>) returns (rows: seq<LiveRow>)
    ensures rows == LiveRows(IndexOf(jobs), preds)
  {
    var index := BuildJobIndex(jobs);
    rows := [];
    for i := 0 to |preds|
      invariant rows == LiveRows(index, preds[..i])
    {
      NextRow(index, preds, i);
      var p := preds[i];
      if Matched(index, p) {
        rows := rows + [LiveRowOf(index, p)];
      }
    }
    assert preds[..|preds|] == preds;
  }

  /** A packet id is seen for a flow exactly if some matched prediction of the flow
      lists it. */
  lemma {:induction false} SeenIff(index: JobIndex, preds: seq<Prediction>, f: nat, pid: nat)
    ensures pid in Seen(index, preds, f) <==>
      f in index && exists i :: 0 <= i < |preds| && preds[i].flowId == Some(f) && pid in preds[i].packetIds
    decreases |preds|
  {
    if preds != [] {
      var init := preds[..|preds| - 1];
      SeenIff(index, init, f, pid);
      assert forall i | 0 <= i < |init| :: init[i] == preds[i];
    }
  }

  // ------------------------------------------------------------ the scores

  predicate MixedAt(preds: seq<Prediction>, i: int) { 0 <= i < |preds| && preds[i].mixedFlow }

  lemma {:induction false} MixedAre(preds: seq<Prediction>)
    ensures CountMixed(preds) == |set i | 0 <= i < |preds| && MixedAt(preds, i)|
    decreases |preds|
  {
    var now := set i | 0 <= i < |preds| && MixedAt(preds, i);
    if preds == [] {
      assert now == {};
    } else {
      var init, last := preds[..|preds| - 1], |preds| - 1;
      var before := set i | 0 <= i < |init| && MixedAt(init, i);
      MixedAre(init);
      assert forall i | 0 <= i < last :: MixedAt(init, i) == MixedAt(preds, i);
      assert now == before + if preds[last].mixedFlow then {last} else {};
    }
  }

  function CountStrict(rows: seq<Shared>): (n: nat)
  {
    if rows == [] then 0
    else CountStrict(rows[..|rows| - 1]) + if rows[|rows| - 1].correct then 1 else 0
  }

  function CountFamily(rows: seq<Shared>): (n: nat)
  {
    if rows == [] then 0
    else CountFamily(rows[..|rows| - 1]) + if rows[|rows| - 1].familyCorrect then 1 else 0
  }

  function CountBinary(rows: seq<Shared>): (n: nat)
  {
    if rows == [] then 0
    else
      var last := rows[|rows| - 1];
      CountBinary(rows[..|rows| - 1]) + if BinaryCorrect(last.expected, last.predicted) then 1 else 0
  }

  /** The rows whose flow was a DDoS or DoS replay, and how many of them are correct. */
  function FloodRows(rows: seq<Shared>): (n: (nat, nat))
    ensures n.1 <= n.0 <= |rows|
  {
    if rows == [] then (0, 0)
    else
      var (all, correct) := FloodRows(rows[..|rows| - 1]);
      var last := rows[|rows| - 1];
      if Lower(last.expected) != "ddos" && Lower(last.expected) != "dos" then (all, correct)
      else (all + 1, correct + if last.correct then 1 else 0)
  }

  /** The four percentages; all but the last are rounded to one decimal. */
  datatype Breakdown = Breakdown(strict: real, binary: real, family: real, flood: Option<real>)

  /** `accuracy_breakdown` of `results_engine.py`; none for no rows. */
  function AccuracyBreakdown(rows: seq<Shared>): (r: Option<Breakdown>)
  {
    if rows == [] then None
    else
      var n, (flood, floodCorrect) := |rows|, FloodRows(rows);
      Some(Breakdown(RoundedPct(CountStrict(rows), n, 10.0), RoundedPct(CountBinary(rows), n, 10.0),
                     RoundedPct(CountFamily(rows), n, 10.0),
                     if flood == 0 then None else Some(Pct(floodCorrect, flood))))
  }

  /** No prediction spells its job's label with other capitals around the merge table. */
  ghost predicate Canonical(index: JobIndex, preds: seq<Prediction>)
  {
    forall i | 0 <= i < |preds| && Matched(index, preds[i]) ::
      var e, p := index[preds[i].flowId.value].expected, preds[i].predicted;
      StrictCorrect(e, p) ==> (Merged(e) <==> Merged(p))
  }

  lemma LastMatch(index: JobIndex, preds: seq<Prediction>)
    requires preds != []
    ensures var p, before := preds[|preds| - 1], SharedRows(index, preds[..|preds| - 1]);
      SharedRows(index, preds) == before + if Matched(index, p) then [LiveRowOf(index, p).Common()] else []
  {
  }

  /** Family accuracy never exceeds attack-versus-benign accuracy, and strict accuracy
      never exceeds family accuracy when labels are spelt alike. */
  lemma {:induction false} ScoresAreOrdered(index: JobIndex, preds: seq<Prediction>)
    ensures CountFamily(SharedRows(index, preds)) <= CountBinary(SharedRows(index, preds)) <= |SharedRows(index, preds)|
    ensures Canonical(index, preds) ==> CountStrict(SharedRows(index, preds)) <= CountFamily(SharedRows(index, preds))
    decreases |preds|
  {
    if preds != [] {
      var init, p := preds[..|preds| - 1], preds[|preds| - 1];
      ScoresAreOrdered(index, init);
      assert Canonical(index, preds) ==> Canonical(index, init);
      LastMatch(index, preds);
      if Matched(index, p) {
        var job := index[p.flowId.value];
        assert SharedRows(index, preds)[..|SharedRows(index, init)|] == SharedRows(index, init);
        if FamilyCorrect(job.expected, p.predicted) {
          FamilyImpliesBinary(job.expected, p.predicted);
        }
        if Canonical(index, preds) && StrictCorrect(job.expected, p.predicted) {
          assert Matched(index, preds[|preds| - 1]);
          StrictImpliesFamilyIff(job.expected, p.predicted);
        }
      } else {
        assert SharedRows(index, preds) == SharedRows(index, init);
      }
    }
  }

  lemma AllOf(n: real)
    requires n > 0.0
    ensures 100.0 * n / n == 100.0
  {
  }

  lemma PctMonotone(a: nat, b: nat, whole: nat)
    requires a <= b <= whole && whole > 0
    ensures 0.0 <= Pct(a, whole) <= Pct(b, whole) <= 100.0
  {
    var x, y, n := 100.0 * a as real, 100.0 * b as real, whole as real;
    QuotientGap(0.0, x, n);
    QuotientGap(x, y, n);
    QuotientGap(y, 100.0 * n, n);
    AllOf(n);
  }

  lemma RoundUnitOrder(x: real, y: real, top: int)
    requires 0.0 <= x <= y <= top as real
    ensures 0 <= RoundUnit(x) <= RoundUnit(y) <= top
  {
    RoundUnitLaws(0.0, x);
    RoundUnitLaws(x, y);
    RoundUnitLaws(y, top as real);
    RoundUnitLaws(top as real, top as real);
  }

  /** Rounding keeps the order, and keeps 0 and 100. */
  lemma RoundAtOrder(x: real, y: real, scale: real)
    requires 0.0 <= x <= y <= 100.0 && (scale == 10.0 || scale == 100.0)
    ensures 0.0 <= RoundAt(x, scale) <= RoundAt(y, scale) <= 100.0
  {
    if scale == 10.0 {
      RoundUnitOrder(x * 10.0, y * 10.0, 1000);
    } else {
      RoundUnitOrder(x * 100.0, y * 100.0, 10000);
    }
  }

  lemma RoundedPctMonotone(a: nat, b: nat, whole: nat, scale: real)
    requires a <= b <= whole && whole > 0 && (scale == 10.0 || scale == 100.0)
    ensures 0.0 <= RoundedPct(a, whole, scale) <= RoundedPct(b, whole, scale) <= 100.0
  {
    PctMonotone(a, b, whole);
    RoundAtOrder(Pct(a, whole), Pct(b, whole), scale);
  }

  /** To two decimals, all but half of a hundredth is all: a recall is reported as 100
      percent exactly when at most one packet in 20000 is missing. */
  lemma FullRecallIff(received: nat, total: nat)
    requires received <= total && total > 0
    ensures RecallPct(received, Some(total)) == Some(100.0) <==> 20000 * (total - received) <= total
  {
    var x := Pct(received, total) * 100.0;
    Hundredfold(received as real, total as real);
    PctMonotone(received, total, total);
    assert RoundUnit(x) == 10000 <==> x >= 9999.5;
    NearlyAll(received as real, total as real);
  }

  lemma Hundredfold(part: real, n: real)
    requires n > 0.0
    ensures 100.0 * part / n * 100.0 == 10000.0 * part / n
  {
    var q := 100.0 * part / n;
    assert q * n == 100.0 * part;
    assert (q * 100.0) * n == 10000.0 * part;
  }

  lemma NearlyAll(received: real, total: real)
    requires total > 0.0
    ensures 10000.0 * received / total >= 9999.5 <==> 20000.0 * (total - received) <= total
  {
    assert 9999.5 * total / total == 9999.5;
    if 10000.0 * received >= 9999.5 * total {
      QuotientGap(9999.5 * total, 10000.0 * received, total);
    } else {
      QuotientBelow(10000.0 * received, 9999.5 * total, total);
    }
  }

  lemma QuotientBelow(x: real, y: real, n: real)
    requires n > 0.0 && x < y
    ensures x / n < y / n
  {
    QuotientGap(x, y, n);
    assert (y - x) / n != 0.0;
  }

  /** The four percentages of any joined log lie between 0 and 100, in the order strict,
      family, binary when labels are spelt alike. */
  lemma BreakdownIsOrdered(jobs: seq<Job>, preds: seq<Prediction>)
    ensures var index, r := IndexOf(jobs), AccuracyBreakdown(SharedRows(IndexOf(jobs), preds));
      r.Some? ==>
        && 0.0 <= r.value.family <= r.value.binary <= 100.0
        && (Canonical(index, preds) ==> 0.0 <= r.value.strict <= r.value.family)
        && (r.value.flood.Some? ==> 0.0 <= r.value.flood.value <= 100.0)
  {
    var index := IndexOf(jobs);
    var rows := SharedRows(index, preds);
    ScoresAreOrdered(index, preds);
    if rows != [] {
      RoundedPctMonotone(CountFamily(rows), CountBinary(rows), |rows|, 10.0);
      if Canonical(index, preds) {
        RoundedPctMonotone(CountStrict(rows), CountFamily(rows), |rows|, 10.0);
      }
      var (flood, correct) := FloodRows(rows);
      if flood > 0 {
        PctMonotone(correct, flood, flood);
      }
    }
  }

  // ------------------------------------------------------------ what the scores say

  /** The rows of a kind. */
  ghost function RowsWith(rows: seq<Shared>, kind: Shared -> bool): (s: set<int>)
  {
    set i | 0 <= i < |rows| && kind(rows[i])
  }

  lemma RowsWithMore(rows: seq<Shared>, kind: Shared -> bool)
    requires rows != []
    ensures |RowsWith(rows, kind)|
         == |RowsWith(rows[..|rows| - 1], kind)| + if kind(rows[|rows| - 1]) then 1 else 0
  {
    var init, last := rows[..|rows| - 1], |rows| - 1;
    assert forall i | 0 <= i < last :: init[i] == rows[i];
    assert RowsWith(rows, kind) == RowsWith(init, kind) + if kind(rows[last]) then {last} else {};
  }

  function IsStrict(): (kind: Shared -> bool) { (r: Shared) => r.correct }

  function IsFamily(): (kind: Shared -> bool) { (r: Shared) => r.familyCorrect }

  function IsBinary(): (kind: Shared -> bool)
  {
    (r: Shared) => (Lower(r.expected) != "benign") == (Lower(r.predicted) != "benign")
  }

  function IsFlood(): (kind: Shared -> bool)
  {
    (r: Shared) => Lower(r.expected) == "ddos" || Lower(r.expected) == "dos"
  }

  function IsCorrectFlood(): (kind: Shared -> bool)
  {
    (r: Shared) => (Lower(r.expected) == "ddos" || Lower(r.expected) == "dos") && r.correct
  }

  /** The counts are the numbers of rows of their kinds. */
  lemma {:induction false} CountsAre(rows: seq<Shared>)
    ensures CountStrict(rows) == |RowsWith(rows, IsStrict())| && CountFamily(rows) == |RowsWith(rows, IsFamily())|
    ensures CountBinary(rows) == |RowsWith(rows, IsBinary())|
    ensures FloodRows(rows) == (|RowsWith(rows, IsFlood())|, |RowsWith(rows, IsCorrectFlood())|)
    decreases |rows|
  {
    if rows == [] {
      assert forall kind: Shared -> bool :: RowsWith(rows, kind) == {};
    } else {
      CountsAre(rows[..|rows| - 1]);
      RowsWithMore(rows, IsStrict());
      RowsWithMore(rows, IsFamily());
      RowsWithMore(rows, IsBinary());
      RowsWithMore(rows, IsFlood());
      RowsWithMore(rows, IsCorrectFlood());
    }
  }

  /** `digits` is a nearest integer, and of two as near the even one. */
  ghost predicate Nearest(digits: real, exact: real)
  {
    && digits == digits.Floor as real && -1.0 <= 2.0 * (exact - digits) <= 1.0
    && (2.0 * (exact - digits) == 1.0 || 2.0 * (exact - digits) == -1.0 ==> digits.Floor % 2 == 0)
  }

  /** A percentage as reported: the nearest with one decimal (`scale` 10) or two (100). */
  ghost predicate Reports(reported: real, exact: real, scale: real)
  {
    Nearest(reported * scale, exact * scale)
  }

  lemma NearestUnit(x: real)
    ensures Nearest(RoundUnit(x) as real, x)
  {
    assert (RoundUnit(x) as real).Floor == RoundUnit(x);
  }

  lemma SameNearest(d: real, e: real, x: real)
    requires Nearest(d, x) && d == e
    ensures Nearest(e, x)
  {
  }

  lemma TenthsReport(p: real)
    ensures Reports(RoundAt(p, 10.0), p, 10.0)
  {
    NearestUnit(p * 10.0);
    SameNearest(RoundUnit(p * 10.0) as real, RoundAt(p, 10.0) * 10.0, p * 10.0);
  }

  lemma HundredthsReport(p: real)
    ensures Reports(RoundAt(p, 100.0), p, 100.0)
  {
    NearestUnit(p * 100.0);
    SameNearest(RoundUnit(p * 100.0) as real, RoundAt(p, 100.0) * 100.0, p * 100.0);
  }

  /** A percentage times the whole is a hundred times the part. */
  lemma PctTimes(part: nat, whole: nat)
    requires whole > 0
    ensures Pct(part, whole) * whole as real == 100.0 * part as real
  {
    Rescaled(100.0 * part as real, whole as real);
  }

  lemma Rescaled(d: real, scale: real)
    requires scale > 0.0
    ensures d / scale * scale == d
  {
  }

  /** The four percentages are those of the rows right about the label, about attack or
      benign and about the family, among all rows, and of the rows right about the label
      among those expected to be DDoS or DoS; none for no rows. */
  lemma BreakdownMeans(rows: seq<Shared>)
    ensures AccuracyBreakdown(rows).None? <==> rows == []
    ensures rows != [] ==>
      var b, n := AccuracyBreakdown(rows).value, |rows|;
      var flood := |RowsWith(rows, IsFlood())|;
      && Reports(b.strict, Pct(|RowsWith(rows, IsStrict())|, n), 10.0)
      && Reports(b.binary, Pct(|RowsWith(rows, IsBinary())|, n), 10.0)
      && Reports(b.family, Pct(|RowsWith(rows, IsFamily())|, n), 10.0)
      && (b.flood.None? <==> flood == 0)
      && (b.flood.Some? ==> b.flood.value == Pct(|RowsWith(rows, IsCorrectFlood())|, flood))
  {
    CountsAre(rows);
    if rows != [] {
      TenthsReport(Pct(CountStrict(rows), |rows|));
      TenthsReport(Pct(CountBinary(rows), |rows|));
      TenthsReport(Pct(CountFamily(rows), |rows|));
    }
  }

  /** The recall of a flow is the percentage of its packets that were seen, to two decimals;
      none if the number read is unknown or zero. */
  lemma RecallMeans(received: nat, packetsRead: Option<nat>)
    ensures RecallPct(received, packetsRead).None? <==> packetsRead.None? || packetsRead.value == 0
    ensures RecallPct(received, packetsRead).Some? ==>
      && packetsRead.value > 0
      && Reports(RecallPct(received, packetsRead).value, Pct(received, packetsRead.value), 100.0)
  {
    if packetsRead.Some? && packetsRead.value > 0 {
      HundredthsReport(Pct(received, packetsRead.value));
    }
  }
}
