/** `_group_into_bursts` of `experiment_s.py`, and its agreement with the trigger. */
module Bursts {
  import opened Prelude
  import opened ModelEngine
  import opened Trigger

  /** A joined row: its label and capture time, and which trigger event it came from. */
  datatype Detection = Detection(at: nat, name: Label, ts: real)

  function OfType(rows: seq<Detection>, name: Label): (r: seq<Detection>)
  {
    if rows == [] then []
    else
      var last := rows[|rows| - 1];
      OfType(rows[..|rows| - 1], name) + if last.name == name then [last] else []
  }

  ghost predicate InOrder(rows: seq<Detection>)
  {
    forall i, j | 0 <= i < j < |rows| :: rows[i].ts <= rows[j].ts
  }

  /** Stable insertion from the right, and the stable sort by capture time. */
  function Insert(rows: seq<Detection>, d: Detection): (r: seq<Detection>)
  {
    if rows == [] || rows[|rows| - 1].ts <= d.ts then rows + [d]
    else Insert(rows[..|rows| - 1], d) + [rows[|rows| - 1]]
  }

  function SortByTime(rows: seq<Detection>): (r: seq<Detection>)
  {
    if rows == [] then [] else Insert(SortByTime(rows[..|rows| - 1]), rows[|rows| - 1])
  }

  lemma {:induction false} InsertOrders(rows: seq<Detection>, d: Detection)
    requires InOrder(rows)
    ensures InOrder(Insert(rows, d)) && |Insert(rows, d)| == |rows| + 1
    ensures var top := Insert(rows, d)[|rows|];
      top == d || (rows != [] && top == rows[|rows| - 1] && d.ts < top.ts)
    decreases |rows|
  {
    if rows != [] && rows[|rows| - 1].ts > d.ts {
      InsertOrders(rows[..|rows| - 1], d);
    }
  }

  lemma {:induction false} InsertPermutes(rows: seq<Detection>, d: Detection)
    ensures multiset(Insert(rows, d)) == multiset(rows) + multiset{d}
    decreases |rows|
  {
    if rows != [] {
      InsertPermutes(rows[..|rows| - 1], d);
      assert rows == rows[..|rows| - 1] + [rows[|rows| - 1]];
    }
  }

  lemma {:induction false} SortSorts(rows: seq<Detection>)
    ensures InOrder(SortByTime(rows)) && multiset(SortByTime(rows)) == multiset(rows)
    ensures InOrder(rows) ==> SortByTime(rows) == rows
    decreases |rows|
  {
    if rows != [] {
      var init, last := rows[..|rows| - 1], rows[|rows| - 1];
      assert rows == init + [last];
      SortSorts(init);
      InsertOrders(SortByTime(init), last);
      InsertPermutes(SortByTime(init), last);
    }
  }

  lemma SortedStays(rows: seq<Detection>)
    requires InOrder(rows)
    ensures SortByTime(rows) == rows
  {
    SortSorts(rows);
  }

  /** Cuts one type's ordered rows wherever more than `cooldown` seconds pass. */
  function Cut(rows: seq<Detection>, cooldown: real): (r: seq<seq<Detection>>)
    ensures rows != [] ==> r != []
  {
    if rows == [] then []
    else
      var n := |rows| - 1;
      var before := Cut(rows[..n], cooldown);
      if n == 0 || rows[n].ts - rows[n - 1].ts > cooldown then before + [[rows[n]]]
      else before[..|before| - 1] + [before[|before| - 1] + [rows[n]]]
  }

  /** The attack types in order of first appearance, as a dictionary keeps its keys. */
  function Types(rows: seq<Detection>): (r: seq<Label>)
  {
    if rows == [] then []
    else
      var names, last := Types(rows[..|rows| - 1]), rows[|rows| - 1].name;
      if last in names then names else names + [last]
  }

  function BurstsOf(rows: seq<Detection>, names: seq<Label>, cooldown: real): (r: seq<seq<Detection>>)
  {
    if names == [] then []
    else
      var last := names[|names| - 1];
      BurstsOf(rows, names[..|names| - 1], cooldown) + Cut(SortByTime(OfType(rows, last)), cooldown)
  }

  lemma CutStep(rows: seq<Detection>, i: nat, cooldown: real)
    requires i < |rows|
    ensures var was := Cut(rows[..i], cooldown);
      Cut(rows[..i + 1], cooldown)
      == if i == 0 || rows[i].ts - rows[i - 1].ts > cooldown then was + [[rows[i]]]
         else was[..|was| - 1] + [was[|was| - 1] + [rows[i]]]
  {
    assert rows[..i + 1][..i] == rows[..i];
  }

  lemma OfTypeStep(rows: seq<Detection>, i: nat, name: Label)
    requires i < |rows|
    ensures OfType(rows[..i + 1], name) == OfType(rows[..i], name) + if rows[i].name == name then [rows[i]] else []
  {
    assert rows[..i + 1][..i] == rows[..i];
  }

  lemma TypesStep(rows: seq<Detection>, i: nat)
    requires i < |rows|
    ensures var names := Types(rows[..i]);
      Types(rows[..i + 1]) == if rows[i].name in names then names else names + [rows[i].name]
  {
    assert rows[..i + 1][..i] == rows[..i];
  }

  lemma BurstsStep(rows: seq<Detection>, names: seq<Label>, k: nat, cooldown: real)
    requires k < |names|
    ensures BurstsOf(rows, names[..k + 1], cooldown)
         == BurstsOf(rows, names[..k], cooldown) + Cut(SortByTime(OfType(rows, names[k])), cooldown)
  {
    assert names[..k + 1][..k] == names[..k];
  }

  method CutBursts(rows: seq<Detection>, cooldown: real) returns (bursts: seq<seq<Detection>>)
    ensures bursts == Cut(rows, cooldown)
  {
    bursts := [];
    var current: seq<Detection> := [];
    for i := 0 to |rows|
      invariant current == [] <==> i == 0
      invariant i == 0 ==> bursts == []
      invariant i > 0 ==> bursts + [current] == Cut(rows[..i], cooldown)
    {
      CutStep(rows, i, cooldown);
      ghost var was := Cut(rows[..i], cooldown);
      assert i > 0 ==> was[..|was| - 1] == bursts && was[|was| - 1] == current;
      if i > 0 && rows[i].ts - rows[i - 1].ts > cooldown {
        bursts := bursts + [current];
        current := [];
      }
      assert current == [] ==> current + [rows[i]] == [rows[i]];
      current := current + [rows[i]];
    }
    assert rows[..|rows|] == rows;
    if current != [] {
      bursts := bursts + [current];
    }
  }

  function GroupOf(byType: map<Label, seq<Detection>>, name: Label): (r: seq<Detection>)
  {
    if name in byType then byType[name] else []
  }

  /** The dictionary has the types met so far, each with its rows. */
  ghost predicate Grouped(names: seq<Label>, byType: map<Label, seq<Detection>>, rows: seq<Detection>)
  {
    && names == Types(rows) && (forall n: Label :: n in byType <==> n in names)
    && forall n: Label :: GroupOf(byType, n) == OfType(rows, n)
  }

  lemma GroupedStep(names: seq<Label>, byType: map<Label, seq<Detection>>, rows: seq<Detection>, i: nat)
    requires i < |rows| && Grouped(names, byType, rows[..i])
    ensures var d := rows[i];
      Grouped(if d.name in byType then names else names + [d.name],
              byType[d.name := GroupOf(byType, d.name) + [d]], rows[..i + 1])
  {
    var d := rows[i];
    var after := byType[d.name := GroupOf(byType, d.name) + [d]];
    TypesStep(rows, i);
    forall n: Label ensures GroupOf(after, n) == OfType(rows[..i + 1], n) {
      OfTypeStep(rows, i, n);
      assert GroupOf(byType, n) == OfType(rows[..i], n);
    }
  }

  method GroupByType(rows: seq<Detection>) returns (names: seq<Label>, byType: map<Label, seq<Detection>>)
    ensures Grouped(names, byType, rows)
  {
    names, byType := [], map[];
    for i := 0 to |rows|
      invariant Grouped(names, byType, rows[..i])
    {
      GroupedStep(names, byType, rows, i);
      ghost var was := byType;
      var n := rows[i].name;
      if n !in byType {
        names, byType := names + [n], byType[n := []];
      }
      byType := byType[n := byType[n] + [rows[i]]];
      assert byType == was[n := GroupOf(was, n) + [rows[i]]];
    }
    assert rows[..|rows|] == rows;
  }

  method GroupIntoBursts(rows: seq<Detection>, cooldown: real) returns (bursts: seq<seq<Detection>>)
    ensures bursts == BurstsOf(rows, Types(rows), cooldown)
  {
    var names, byType := GroupByType(rows);
    bursts := [];
    for k := 0 to |names|
      invariant bursts == BurstsOf(rows, names[..k], cooldown)
    {
      BurstsStep(rows, names, k, cooldown);
      var more := CutBursts(SortByTime(byType[names[k]]), cooldown);
      bursts := bursts + more;
    }
    assert names[..|names|] == names;
  }

  // ----------------------------------------------------- no detection is lost

  lemma FlattenGrowLast(ss: seq<seq<Detection>>, d: Detection)
    requires ss != []
    ensures Flatten(ss[..|ss| - 1] + [ss[|ss| - 1] + [d]]) == Flatten(ss) + [d]
  {
    FlattenAppend(ss[..|ss| - 1], ss[|ss| - 1] + [d]);
  }

  lemma CutStepKeeps(before: seq<seq<Detection>>, d: Detection, apart: bool)
    requires apart || before != []
    ensures Flatten(if apart then before + [[d]] else before[..|before| - 1] + [before[|before| - 1] + [d]])
         == Flatten(before) + [d]
  {
    if apart {
      FlattenAppend(before, [d]);
    } else {
      FlattenGrowLast(before, d);
    }
  }

  lemma {:induction false} CutKeeps(rows: seq<Detection>, cooldown: real)
    ensures Flatten(Cut(rows, cooldown)) == rows
    decreases |rows|
  {
    if rows != [] {
      var n := |rows| - 1;
      CutKeeps(rows[..n], cooldown);
      CutStepKeeps(Cut(rows[..n], cooldown), rows[n], n == 0 || rows[n].ts - rows[n - 1].ts > cooldown);
      assert rows == rows[..n] + [rows[n]];
    }
  }

  lemma CutEnds(rows: seq<Detection>, cooldown: real)
    requires rows != []
    ensures var r := Cut(rows, cooldown);
      r != [] && r[|r| - 1] != [] && r[|r| - 1][|r[|r| - 1]| - 1] == rows[|rows| - 1]
  {
  }

  /** Inside a burst no two neighbours are further apart than the cooldown. */
  lemma {:induction false} NoGapInside(rows: seq<Detection>, cooldown: real, k: nat, i: nat)
    requires k < |Cut(rows, cooldown)| && 0 < i < |Cut(rows, cooldown)[k]|
    ensures Cut(rows, cooldown)[k][i].ts - Cut(rows, cooldown)[k][i - 1].ts <= cooldown
    decreases |rows|
  {
    var n := |rows| - 1;
    var before := Cut(rows[..n], cooldown);
    if k < |before| && i < |before[k]| {
      NoGapInside(rows[..n], cooldown, k, i);
    } else {
      CutEnds(rows[..n], cooldown);
    }
  }

  lemma {:induction false} OfTypeCount(rows: seq<Detection>, name: Label, d: Detection)
    ensures multiset(OfType(rows, name))[d] == if d.name == name then multiset(rows)[d] else 0
    decreases |rows|
  {
    if rows != [] {
      OfTypeCount(rows[..|rows| - 1], name, d);
      assert rows == rows[..|rows| - 1] + [rows[|rows| - 1]];
    }
  }

  lemma CutCount(rows: seq<Detection>, name: Label, cooldown: real, d: Detection)
    ensures multiset(Flatten(Cut(SortByTime(OfType(rows, name)), cooldown)))[d]
         == if d.name == name then multiset(rows)[d] else 0
  {
    CutKeeps(SortByTime(OfType(rows, name)), cooldown);
    SortSorts(OfType(rows, name));
    OfTypeCount(rows, name, d);
  }

  ghost predicate Distinct(names: seq<Label>)
  {
    forall i, j | 0 <= i < j < |names| :: names[i] != names[j]
  }

  lemma {:induction false} TypesDistinct(rows: seq<Detection>)
    ensures Distinct(Types(rows)) && forall i | 0 <= i < |rows| :: rows[i].name in Types(rows)
    decreases |rows|
  {
    if rows != [] {
      var init := rows[..|rows| - 1];
      TypesDistinct(init);
      assert forall i | 0 <= i < |init| :: rows[i] == init[i];
    }
  }

  lemma {:induction false} BurstsCount(rows: seq<Detection>, names: seq<Label>, cooldown: real, d: Detection)
    requires Distinct(names)
    ensures multiset(Flatten(BurstsOf(rows, names, cooldown)))[d] == if d.name in names then multiset(rows)[d] else 0
    decreases |names|
  {
    if names != [] {
      var init, last := names[..|names| - 1], names[|names| - 1];
      BurstsCount(rows, init, cooldown, d);
      CutCount(rows, last, cooldown, d);
      FlattenConcat(BurstsOf(rows, init, cooldown), Cut(SortByTime(OfType(rows, last)), cooldown));
      assert d.name in names <==> d.name in init || d.name == last;
    }
  }

  /** The bursts together hold every detection exactly as often as the input does. */
  lemma BurstsConserve(rows: seq<Detection>, cooldown: real)
    ensures multiset(Flatten(BurstsOf(rows, Types(rows), cooldown))) == multiset(rows)
  {
    TypesDistinct(rows);
    forall d ensures multiset(Flatten(BurstsOf(rows, Types(rows), cooldown)))[d] == multiset(rows)[d] {
      BurstsCount(rows, Types(rows), cooldown, d);
      if d in multiset(rows) {
        assert d in rows;
      }
    }
  }

  // ----------------------------------------------------- every burst has evidence

  /** The eligible events of a run, as the rows the grouping sees. */
  function Detections(evs: seq<Event>): (r: seq<Detection>)
  {
    if evs == [] then []
    else
      var t := |evs| - 1;
      Detections(evs[..t]) + if Eligible(evs[t]) then [Detection(t, evs[t].name, evs[t].now)] else []
  }

  /** Each row is an eligible event of the type, in the order of the events. */
  ghost predicate Points(rows: seq<Detection>, evs: seq<Event>, name: Label)
  {
    && (forall i | 0 <= i < |rows| ::
          var d := rows[i]; d.at < |evs| && d == Detection(d.at, name, evs[d.at].now) && evs[d.at].name == name
                            && Eligible(evs[d.at]))
    && forall i, j | 0 <= i < j < |rows| :: rows[i].at < rows[j].at
  }

  /** No eligible event of the type is missing. */
  ghost predicate Covers(rows: seq<Detection>, evs: seq<Event>, name: Label)
  {
    forall s | 0 <= s < |evs| && Eligible(evs[s]) && evs[s].name == name ::
      exists i :: 0 <= i < |rows| && rows[i].at == s
  }

  lemma DetectionsAppend(evs: seq<Event>, name: Label)
    requires evs != []
    ensures var t := |evs| - 1;
      OfType(Detections(evs), name) == OfType(Detections(evs[..t]), name)
        + if Eligible(evs[t]) && evs[t].name == name then [Detection(t, name, evs[t].now)] else []
  {
    var t := |evs| - 1;
    var init := Detections(evs[..t]);
    if Eligible(evs[t]) {
      assert Detections(evs)[..|init|] == init && Detections(evs)[..|init| + 1] == Detections(evs);
      OfTypeStep(Detections(evs), |init|, name);
    } else {
      assert Detections(evs) == init;
    }
  }

  lemma PointsAppend(rows: seq<Detection>, evs: seq<Event>, name: Label)
    requires evs != [] && Points(rows, evs[..|evs| - 1], name)
    ensures Points(rows, evs, name)
    ensures var t := |evs| - 1;
      Eligible(evs[t]) && evs[t].name == name ==> Points(rows + [Detection(t, name, evs[t].now)], evs, name)
  {
  }

  lemma CoversAppend(rows: seq<Detection>, more: seq<Detection>, evs: seq<Event>, name: Label)
    requires evs != [] && Covers(rows, evs[..|evs| - 1], name)
    requires var e := evs[|evs| - 1]; Eligible(e) && e.name == name ==> more != [] && more[0].at == |evs| - 1
    ensures Covers(rows + more, evs, name)
  {
    var init := evs[..|evs| - 1];
    forall s | 0 <= s < |evs| && Eligible(evs[s]) && evs[s].name == name
      ensures exists i :: 0 <= i < |rows + more| && (rows + more)[i].at == s
    {
      if s < |init| {
        assert init[s] == evs[s];
        var i :| 0 <= i < |rows| && rows[i].at == s;
        assert (rows + more)[i].at == s;
      } else {
        assert (rows + more)[|rows|].at == s;
      }
    }
  }

  lemma {:induction false} OfTypeTraces(evs: seq<Event>, name: Label)
    ensures Points(OfType(Detections(evs), name), evs, name)
    ensures Covers(OfType(Detections(evs), name), evs, name)
    decreases |evs|
  {
    if evs != [] {
      var t := |evs| - 1;
      var before := OfType(Detections(evs[..t]), name);
      OfTypeTraces(evs[..t], name);
      DetectionsAppend(evs, name);
      PointsAppend(before, evs, name);
      var more := if Eligible(evs[t]) && evs[t].name == name then [Detection(t, name, evs[t].now)] else [];
      CoversAppend(before, more, evs, name);
    }
  }

  /** Every burst starts at the first row or after a gap longer than the cooldown. */
  lemma {:induction false} BurstStarts(rows: seq<Detection>, cooldown: real, k: nat) returns (j: nat)
    requires k < |Cut(rows, cooldown)|
    ensures j < |rows| && Cut(rows, cooldown)[k] != [] && Cut(rows, cooldown)[k][0] == rows[j]
    ensures j == 0 || rows[j].ts - rows[j - 1].ts > cooldown
    decreases |rows|
  {
    var n := |rows| - 1;
    var before := Cut(rows[..n], cooldown);
    if k < |before| {
      j := BurstStarts(rows[..n], cooldown, k);
    } else {
      j := n;
    }
  }

  /** Before a row that follows a gap, every eligible event of the type is at least the
      gap older. */
  lemma EarlierIsOlder(rows: seq<Detection>, evs: seq<Event>, name: Label, gap: real, j: nat, s: nat)
    requires Points(rows, evs, name) && Covers(rows, evs, name) && Forward(evs) && j < |rows|
    requires j == 0 || rows[j].ts - rows[j - 1].ts > gap
    requires s < rows[j].at && Eligible(evs[s]) && evs[s].name == name
    ensures evs[rows[j].at].now - evs[s].now > gap
  {
    var i :| 0 <= i < |rows| && rows[i].at == s;
    assert i < j;
    assert rows[i].at <= rows[j - 1].at;
    assert rows[j - 1].ts == evs[rows[j - 1].at].now && rows[j].ts == evs[rows[j].at].now;
    assert evs[s].now <= evs[rows[j - 1].at].now;
  }

  lemma FirstAfterGapFires(evs: seq<Event>, name: Label, cooldown: real, j: nat)
    requires Forward(evs) && cooldown >= COOLDOWN_SECONDS
    requires forall t | 0 <= t < |evs| :: evs[t].now >= COOLDOWN_SECONDS
    requires var rows := OfType(Detections(evs), name);
      j < |rows| && (j == 0 || rows[j].ts - rows[j - 1].ts > cooldown)
    ensures var d := OfType(Detections(evs), name)[j]; d.at < |evs| && Fires(evs, d.at)
  {
    OfTypeTraces(evs, name);
    var rows := OfType(Detections(evs), name);
    var t := rows[j].at;
    FiresIff(evs, t);
    forall s | 0 <= s < t && FiringOf(evs, s, name)
      ensures evs[t].now - evs[s].now >= COOLDOWN_SECONDS
    {
      FiresIff(evs, s);
      EarlierIsOlder(rows, evs, name, cooldown, j, s);
    }
  }

  lemma {:induction false} BurstComesFromType(rows: seq<Detection>, names: seq<Label>, cooldown: real, k: nat)
    returns (m: nat, b: nat)
    requires k < |BurstsOf(rows, names, cooldown)|
    ensures m < |names| && b < |Cut(SortByTime(OfType(rows, names[m])), cooldown)|
    ensures BurstsOf(rows, names, cooldown)[k] == Cut(SortByTime(OfType(rows, names[m])), cooldown)[b]
    decreases |names|
  {
    var last := |names| - 1;
    var before := BurstsOf(rows, names[..last], cooldown);
    if k < |before| {
      m, b := BurstComesFromType(rows, names[..last], cooldown, k);
    } else {
      m, b := last, k - |before|;
    }
  }

  /** With the trigger's cooldown (or a longer one), the first detection of every burst
      of the trigger's own eligible events set off an acquisition. */
  lemma EveryBurstFires(evs: seq<Event>, cooldown: real)
    requires Forward(evs) && cooldown >= COOLDOWN_SECONDS
    requires forall t | 0 <= t < |evs| :: evs[t].now >= COOLDOWN_SECONDS
    ensures var bursts := BurstsOf(Detections(evs), Types(Detections(evs)), cooldown);
      forall k | 0 <= k < |bursts| :: bursts[k] != [] && bursts[k][0].at < |evs| && Fires(evs, bursts[k][0].at)
  {
    var rows := Detections(evs);
    var bursts: seq<seq<Detection>> := BurstsOf(rows, Types(rows), cooldown);
    forall k | 0 <= k < |bursts|
      ensures bursts[k] != [] && bursts[k][0].at < |evs| && Fires(evs, bursts[k][0].at)
    {
      var m, b := BurstComesFromType(rows, Types(rows), cooldown, k);
      var name := Types(rows)[m];
      var mine := OfType(rows, name);
      OfTypeTraces(evs, name);
      assert InOrder(mine);
      SortSorts(mine);
      var j := BurstStarts(mine, cooldown, b);
      FirstAfterGapFires(evs, name, cooldown, j);
    }
  }

  // ----------------------------------------------------- rows of any confidence

  /** Every question to the trigger as a row, whatever its confidence. */
  function Asked(evs: seq<Event>): (r: seq<Detection>)
    ensures |r| == |evs|
  {
    seq(|evs|, t requires 0 <= t < |evs| => Detection(t, evs[t].name, evs[t].now))
  }

  ghost predicate Rising(rows: seq<Detection>)
  {
    forall i, j | 0 <= i < j < |rows| :: rows[i].at < rows[j].at
  }

  /** The rows of a type are a selection of the rows, complete and in the same order. */
  lemma {:induction false} OfTypeSelects(rows: seq<Detection>, name: Label)
    requires Rising(rows)
    ensures Rising(OfType(rows, name))
    ensures forall d | d in OfType(rows, name) :: d in rows && d.name == name
    ensures forall d | d in rows && d.name == name :: d in OfType(rows, name)
    decreases |rows|
  {
    if rows != [] {
      var init, last := rows[..|rows| - 1], rows[|rows| - 1];
      OfTypeSelects(init, name);
      assert rows == init + [last];
      forall d | d in init ensures d.at < last.at {
        var i :| 0 <= i < |init| && init[i] == d;
        assert rows[i].at < rows[|rows| - 1].at;
      }
    }
  }

  /** The burst is the rows from `lo` on, the first row or one after a gap. */
  ghost predicate Stretch(rows: seq<Detection>, cooldown: real, burst: seq<Detection>, lo: nat)
  {
    && burst != [] && lo + |burst| <= |rows| && burst == rows[lo..lo + |burst|]
    && (lo == 0 || rows[lo].ts - rows[lo - 1].ts > cooldown)
  }

  lemma StretchStays(rows: seq<Detection>, n: nat, cooldown: real, burst: seq<Detection>, lo: nat)
    requires n < |rows| && Stretch(rows[..n], cooldown, burst, lo)
    ensures Stretch(rows, cooldown, burst, lo)
    ensures lo + |burst| == n ==> Stretch(rows, cooldown, burst + [rows[n]], lo)
  {
    assert rows[..n][lo..lo + |burst|] == rows[lo..lo + |burst|];
    if lo + |burst| == n {
      assert rows[lo..n] + [rows[n]] == rows[lo..n + 1];
    }
  }

  /** A burst is a stretch of the rows that starts at the first row or after a gap; the
      last burst reaches to the end. */
  lemma {:induction false} BurstIsStretch(rows: seq<Detection>, cooldown: real, k: nat) returns (lo: nat)
    requires k < |Cut(rows, cooldown)|
    ensures Stretch(rows, cooldown, Cut(rows, cooldown)[k], lo)
    ensures k == |Cut(rows, cooldown)| - 1 ==> lo + |Cut(rows, cooldown)[k]| == |rows|
    decreases |rows|
  {
    var n := |rows| - 1;
    var before := Cut(rows[..n], cooldown);
    if k < |before| {
      lo := BurstIsStretch(rows[..n], cooldown, k);
      StretchStays(rows, n, cooldown, before[k], lo);
    } else {
      lo := n;
    }
  }

  lemma RowOf(evs: seq<Event>, mine: seq<Detection>, name: Label, i: nat)
    requires mine == OfType(Asked(evs), name) && i < |mine|
    ensures var d := mine[i]; d.at < |evs| && d == Asked(evs)[d.at] && d.name == name
  {
    OfTypeSelects(Asked(evs), name);
    assert mine[i] in Asked(evs);
  }

  /** Questions of a type before the stretch that starts at `lo` are at least the gap older
      than those in it. */
  lemma BeforeIsOlder(evs: seq<Event>, mine: seq<Detection>, name: Label, gap: real, lo: nat, e: nat, i: nat)
    requires Forward(evs) && mine == OfType(Asked(evs), name) && i < lo <= e < |mine|
    requires mine[lo].ts - mine[lo - 1].ts > gap
    ensures mine[e].at < |evs| && mine[i].at < |evs| && evs[mine[e].at].now - evs[mine[i].at].now > gap
  {
    RowOf(evs, mine, name, i);
    RowOf(evs, mine, name, lo - 1);
    RowOf(evs, mine, name, lo);
    RowOf(evs, mine, name, e);
    AskedInOrder(evs, name);
  }

  /** A question of the type has a row. */
  lemma PlaceAmong(evs: seq<Event>, mine: seq<Detection>, name: Label, s: nat) returns (i: nat)
    requires mine == OfType(Asked(evs), name) && s < |evs| && evs[s].name == name
    ensures i < |mine| && mine[i].at == s
  {
    OfTypeSelects(Asked(evs), name);
    assert Asked(evs)[s] in Asked(evs);
    i :| 0 <= i < |mine| && mine[i] == Asked(evs)[s];
  }

  lemma RisesWith(evs: seq<Event>, mine: seq<Detection>, name: Label, i: nat, e: nat)
    requires mine == OfType(Asked(evs), name) && i < |mine| && e < |mine| && mine[i].at < mine[e].at
    ensures i < e
  {
    OfTypeSelects(Asked(evs), name);
  }

  /** The first eligible row of a burst fires: what fired of its type before it lies in
      earlier bursts, a gap away. */
  lemma FirstEligibleFires(evs: seq<Event>, mine: seq<Detection>, name: Label, gap: real, lo: nat, e: nat)
    requires Forward(evs) && gap >= COOLDOWN_SECONDS && forall t | 0 <= t < |evs| :: evs[t].now >= COOLDOWN_SECONDS
    requires mine == OfType(Asked(evs), name) && lo <= e < |mine|
    requires lo == 0 || mine[lo].ts - mine[lo - 1].ts > gap
    requires mine[e].at < |evs| && Eligible(evs[mine[e].at])
    requires forall i | lo <= i < e :: mine[i].at < |evs| && !Eligible(evs[mine[i].at])
    ensures Fires(evs, mine[e].at)
  {
    var t := mine[e].at;
    RowOf(evs, mine, name, e);
    FiresIff(evs, t);
    forall s | 0 <= s < t && FiringOf(evs, s, name) ensures evs[t].now - evs[s].now >= COOLDOWN_SECONDS {
      FiresIff(evs, s);
      var i := PlaceAmong(evs, mine, name, s);
      RisesWith(evs, mine, name, i, e);
      assert i < lo;
      BeforeIsOlder(evs, mine, name, gap, lo, e, i);
    }
  }

  /** The first row of a burst, from `from` on, that is eligible. */
  lemma {:induction false} FirstEligible(evs: seq<Event>, burst: seq<Detection>, from: nat) returns (e: nat)
    requires from <= |burst| && forall i | 0 <= i < |burst| :: burst[i].at < |evs|
    requires exists i :: from <= i < |burst| && Eligible(evs[burst[i].at])
    ensures from <= e < |burst| && Eligible(evs[burst[e].at])
    ensures forall i | from <= i < e :: !Eligible(evs[burst[i].at])
    decreases |burst| - from
  {
    if Eligible(evs[burst[from].at]) {
      e := from;
    } else {
      e := FirstEligible(evs, burst, from + 1);
    }
  }

  /** The rows are questions, and one of them fired exactly if one of them was eligible. */
  ghost predicate FiresIfEligible(evs: seq<Event>, burst: seq<Detection>)
  {
    && (forall i | 0 <= i < |burst| :: burst[i].at < |evs|)
    && ((exists i :: 0 <= i < |burst| && Fires(evs, burst[i].at))
        <==> (exists i :: 0 <= i < |burst| && Eligible(evs[burst[i].at])))
  }

  /** Grouping all the questions to the trigger, of any confidence, with the trigger's
      cooldown or a longer one: a burst set off an acquisition exactly if some row in it
      was eligible. */
  lemma BurstFiresIff(evs: seq<Event>, cooldown: real, k: nat)
    requires Forward(evs) && cooldown >= COOLDOWN_SECONDS
    requires forall t | 0 <= t < |evs| :: evs[t].now >= COOLDOWN_SECONDS
    requires k < |BurstsOf(Asked(evs), Types(Asked(evs)), cooldown)|
    ensures FiresIfEligible(evs, BurstsOf(Asked(evs), Types(Asked(evs)), cooldown)[k])
  {
    var rows := Asked(evs);
    var m, b := BurstComesFromType(rows, Types(rows), cooldown, k);
    AskedInOrder(evs, Types(rows)[m]);
    SortedStays(OfType(rows, Types(rows)[m]));
    TypeBurstFiresIff(evs, Types(rows)[m], cooldown, b);
  }

  lemma TypeBurstFiresIff(evs: seq<Event>, name: Label, cooldown: real, b: nat)
    requires Forward(evs) && cooldown >= COOLDOWN_SECONDS
    requires forall t | 0 <= t < |evs| :: evs[t].now >= COOLDOWN_SECONDS
    requires b < |Cut(OfType(Asked(evs), name), cooldown)|
    ensures FiresIfEligible(evs, Cut(OfType(Asked(evs), name), cooldown)[b])
  {
    var mine := OfType(Asked(evs), name);
    var lo := BurstIsStretch(mine, cooldown, b);
    StretchFiresIff(evs, mine, name, cooldown, lo, Cut(mine, cooldown)[b]);
  }

  lemma StretchFiresIff(evs: seq<Event>, mine: seq<Detection>, name: Label, gap: real, lo: nat, burst: seq<Detection>)
    requires Forward(evs) && gap >= COOLDOWN_SECONDS && forall t | 0 <= t < |evs| :: evs[t].now >= COOLDOWN_SECONDS
    requires mine == OfType(Asked(evs), name) && burst != [] && lo + |burst| <= |mine|
    requires burst == mine[lo..lo + |burst|] && (lo == 0 || mine[lo].ts - mine[lo - 1].ts > gap)
    ensures FiresIfEligible(evs, burst)
  {
    forall i | 0 <= i < |burst| ensures burst[i].at < |evs| && burst[i] == mine[lo + i] {
      RowOf(evs, mine, name, lo + i);
    }
    if i :| 0 <= i < |burst| && Eligible(evs[burst[i].at]) {
      var e := FirstEligible(evs, burst, 0);
      forall i | lo <= i < lo + e ensures mine[i].at < |evs| && !Eligible(evs[mine[i].at]) {
        assert mine[i] == burst[i - lo];
      }
      FirstEligibleFires(evs, mine, name, gap, lo, lo + e);
    } else if i :| 0 <= i < |burst| && Fires(evs, burst[i].at) {
      FiresIff(evs, burst[i].at);
    }
  }

  lemma AskedInOrder(evs: seq<Event>, name: Label)
    requires Forward(evs)
    ensures InOrder(OfType(Asked(evs), name))
  {
    var mine := OfType(Asked(evs), name);
    OfTypeSelects(Asked(evs), name);
    forall i, j | 0 <= i < j < |mine| ensures mine[i].ts <= mine[j].ts {
      RowOf(evs, mine, name, i);
      RowOf(evs, mine, name, j);
    }
  }

  // ----------------------------------------------------- cooldowns that differ

  lemma TwoRecon(first: Event, second: Event)
    requires Eligible(first) && Eligible(second) && first.name == second.name == Recon
    ensures var rows := [Detection(0, Recon, first.now), Detection(1, Recon, second.now)];
      Detections([first, second]) == rows && Types(rows) == [Recon] && OfType(rows, Recon) == rows
  {
    var rows := [Detection(0, Recon, first.now), Detection(1, Recon, second.now)];
    assert [first, second][..1] == [first] && [first][..0] == [];
    assert Detections([first]) == rows[..1] by { assert Detections([first][..0]) == []; }
    TypesStep(rows, 0);
    TypesStep(rows, 1);
    OfTypeStep(rows, 0, Recon);
    OfTypeStep(rows, 1, Recon);
    assert rows[..2] == rows && rows[..0] == [];
  }

  lemma CutTwo(rows: seq<Detection>, cooldown: real)
    requires |rows| == 2 && cooldown < rows[1].ts - rows[0].ts
    ensures Cut(rows, cooldown) == [[rows[0]], [rows[1]]]
  {
    CutStep(rows, 0, cooldown);
    CutStep(rows, 1, cooldown);
    assert rows[..2] == rows && rows[..0] == [];
  }

  lemma OneType(rows: seq<Detection>, name: Label, cooldown: real)
    ensures BurstsOf(rows, [name], cooldown) == Cut(SortByTime(OfType(rows, name)), cooldown)
  {
    assert BurstsOf(rows, [name][..0], cooldown) == [];
  }

  lemma TwoBursts(rows: seq<Detection>, name: Label, cooldown: real)
    requires var mine := OfType(rows, name);
      |mine| == 2 && mine[0].ts <= mine[1].ts && cooldown < mine[1].ts - mine[0].ts
    ensures BurstsOf(rows, [name], cooldown) == [[OfType(rows, name)[0]], [OfType(rows, name)[1]]]
  {
    OneType(rows, name, cooldown);
    SortedStays(OfType(rows, name));
    CutTwo(OfType(rows, name), cooldown);
  }

  lemma SecondIsRefused(first: Event, second: Event)
    requires Eligible(first) && first.name == second.name && first.now >= COOLDOWN_SECONDS
    requires first.now <= second.now < first.now + COOLDOWN_SECONDS
    ensures !Fires([first, second], 1)
  {
    assert [first, second][..1] == [first] && [first][..0] == [];
    assert Run([first][..0]) == map[];
    assert Run([first]) == map[first.name := first.now];
  }

  /** The agreement needs the cooldowns to match: any shorter grouping cooldown makes,
      on some run, a burst in which nothing fired. */
  lemma ShorterCooldownMisses(cooldown: real) returns (evs: seq<Event>)
    requires cooldown < COOLDOWN_SECONDS
    ensures |evs| == 2 && Forward(evs) && forall t | 0 <= t < |evs| :: evs[t].now >= COOLDOWN_SECONDS
    ensures var bursts := BurstsOf(Detections(evs), Types(Detections(evs)), cooldown);
      bursts == [[Detection(0, Recon, evs[0].now)], [Detection(1, Recon, evs[1].now)]] && !Fires(evs, 1)
  {
    var gap := if cooldown < 0.0 then 0.0 else (cooldown + COOLDOWN_SECONDS) / 2.0;
    var first, second := Event(Recon, 0.9, 30.0), Event(Recon, 0.9, 30.0 + gap);
    evs := [first, second];
    TwoRecon(first, second);
    SecondIsRefused(first, second);
    TwoBursts([Detection(0, Recon, 30.0), Detection(1, Recon, 30.0 + gap)], Recon, cooldown);
  }

  /** The rows the experiment keeps, by a choice made row by row. */
  function Kept(rows: seq<Detection>, keep: nat -> bool): (r: seq<Detection>)
  {
    if rows == [] then []
    else Kept(rows[..|rows| - 1], keep) + if keep(rows[|rows| - 1].at) then [rows[|rows| - 1]] else []
  }

  lemma SecondKept(a: Detection, b: Detection, keep: nat -> bool)
    requires !keep(a.at) && keep(b.at)
    ensures Kept([a, b], keep) == [b]
  {
    assert [a, b][..1] == [a] && [a][..0] == [];
    assert Kept([a], keep) == [];
  }

  lemma OneBurst(d: Detection, cooldown: real)
    ensures Types([d]) == [d.name] && BurstsOf([d], Types([d]), cooldown) == [[d]]
  {
    assert [d][..0] == [];
    assert OfType([d], d.name) == [d];
    OneType([d], d.name, cooldown);
    SortedStays([d]);
    assert Cut([d], cooldown) == [[d]] by {
      assert Cut([d][..0], cooldown) == [];
    }
  }

  lemma FirstFires(first: Event, second: Event)
    requires Eligible(first) && first.now >= COOLDOWN_SECONDS
    ensures Fires([first, second], 0)
  {
    assert [first, second][..0] == [];
    assert Run([first, second][..0]) == map[];
  }

  lemma SecondRowLeft(first: Event, second: Event, keep: nat -> bool)
    requires !keep(0) && keep(1)
    ensures Kept(Asked([first, second]), keep) == [Detection(1, second.name, second.now)]
  {
    var a, b := Detection(0, first.name, first.now), Detection(1, second.name, second.now);
    assert Asked([first, second]) == [a, b];
    SecondKept(a, b, keep);
  }

  /** Dropping rows before they are grouped, as the experiment does with rows of wrong
      family, can leave a burst in which nothing fired although its row was eligible: two
      eligible questions of one type within the cooldown, and the row that fired dropped. */
  lemma FilteredBurstMisses(first: Event, second: Event, keep: nat -> bool, cooldown: real)
    requires Eligible(first) && Eligible(second) && first.name == second.name && first.now >= COOLDOWN_SECONDS
    requires first.now <= second.now < first.now + COOLDOWN_SECONDS && !keep(0) && keep(1)
    ensures var evs := [first, second]; var rows := Kept(Asked(evs), keep);
      && BurstsOf(rows, Types(rows), cooldown) == [[Detection(1, second.name, second.now)]]
      && Fires(evs, 0) && !Fires(evs, 1)
  {
    FirstFires(first, second);
    SecondIsRefused(first, second);
    SecondRowLeft(first, second, keep);
    OneBurst(Detection(1, second.name, second.now), cooldown);
  }

  // ----------------------------------------------------- ties and first appearances

  /** The rows of one time. */
  function OfTime(rows: seq<Detection>, ts: real): (r: seq<Detection>)
  {
    if rows == [] then []
    else OfTime(rows[..|rows| - 1], ts) + if rows[|rows| - 1].ts == ts then [rows[|rows| - 1]] else []
  }

  lemma OfTimeAppend(rows: seq<Detection>, d: Detection, ts: real)
    ensures OfTime(rows + [d], ts) == OfTime(rows, ts) + if d.ts == ts then [d] else []
  {
    assert (rows + [d])[..|rows|] == rows;
  }

  lemma {:induction false} InsertIsStable(rows: seq<Detection>, d: Detection, ts: real)
    ensures OfTime(Insert(rows, d), ts) == OfTime(rows, ts) + if d.ts == ts then [d] else []
    decreases |rows|
  {
    if rows == [] || rows[|rows| - 1].ts <= d.ts {
      OfTimeAppend(rows, d, ts);
    } else {
      var init, last := rows[..|rows| - 1], rows[|rows| - 1];
      InsertIsStable(init, d, ts);
      OfTimeAppend(Insert(init, d), last, ts);
      if d.ts != ts {
        assert OfTime(init, ts) + [] == OfTime(init, ts);
      }
    }
  }

  /** Rows of one time keep their order. With order and permutation this fixes the result. */
  lemma {:induction false} SortIsStable(rows: seq<Detection>, ts: real)
    ensures OfTime(SortByTime(rows), ts) == OfTime(rows, ts)
    decreases |rows|
  {
    if rows != [] {
      var init, last := rows[..|rows| - 1], rows[|rows| - 1];
      SortIsStable(init, ts);
      InsertIsStable(SortByTime(init), last, ts);
    }
  }

  /** Before any row of type `later` there is one of type `earlier`. */
  ghost predicate Appears(rows: seq<Detection>, earlier: Label, later: Label)
  {
    exists k :: 0 <= k < |rows| && rows[k].name == earlier && forall m | 0 <= m <= k :: rows[m].name != later
  }

  lemma AppearsStill(rows: seq<Detection>, earlier: Label, later: Label)
    requires rows != [] && Appears(rows[..|rows| - 1], earlier, later)
    ensures Appears(rows, earlier, later)
  {
    var init := rows[..|rows| - 1];
    var k :| 0 <= k < |init| && init[k].name == earlier && forall m | 0 <= m <= k :: init[m].name != later;
    assert rows[k] == init[k] && forall m | 0 <= m <= k :: rows[m] == init[m];
  }

  lemma AppearsAtLast(rows: seq<Detection>, earlier: Label)
    requires rows != [] && earlier in Types(rows[..|rows| - 1])
    requires rows[|rows| - 1].name !in Types(rows[..|rows| - 1])
    ensures Appears(rows, earlier, rows[|rows| - 1].name)
  {
    var init := rows[..|rows| - 1];
    TypesDistinct(init);
    var k := TypeHasRow(init, earlier);
    assert rows[k] == init[k] && forall m | 0 <= m <= k :: rows[m] == init[m];
  }

  lemma {:induction false} TypeHasRow(rows: seq<Detection>, name: Label) returns (k: nat)
    requires name in Types(rows)
    ensures k < |rows| && rows[k].name == name
    decreases |rows|
  {
    var last := |rows| - 1;
    if rows[last].name == name {
      k := last;
    } else {
      k := TypeHasRow(rows[..last], name);
    }
  }

  /** The types stand in the order they first appear in. */
  lemma {:induction false} TypesInOrder(rows: seq<Detection>, i: nat, j: nat)
    requires i < j < |Types(rows)|
    ensures Appears(rows, Types(rows)[i], Types(rows)[j])
    decreases |rows|
  {
    var init := rows[..|rows| - 1];
    if j < |Types(init)| {
      TypesInOrder(init, i, j);
      AppearsStill(rows, Types(rows)[i], Types(rows)[j]);
    } else {
      AppearsAtLast(rows, Types(rows)[i]);
    }
  }

  // ----------------------------------------------------- bursts of unordered rows

  ghost predicate Among(burst: seq<Detection>, rows: seq<Detection>)
  {
    forall d: Detection | d in burst :: d in rows
  }

  ghost predicate OnlyOf(burst: seq<Detection>, name: Label)
  {
    forall d: Detection | d in burst :: d.name == name
  }

  lemma {:induction false} InFlatten(ss: seq<seq<Detection>>, k: nat, d: Detection)
    requires k < |ss| && d in ss[k]
    ensures d in Flatten(ss)
    decreases |ss|
  {
    if k < |ss| - 1 {
      InFlatten(ss[..|ss| - 1], k, d);
    }
  }

  lemma CutAmong(rows: seq<Detection>, cooldown: real, k: nat)
    requires k < |Cut(rows, cooldown)|
    ensures Among(Cut(rows, cooldown)[k], rows)
  {
    CutKeeps(rows, cooldown);
    forall d: Detection | d in Cut(rows, cooldown)[k] ensures d in rows {
      InFlatten(Cut(rows, cooldown), k, d);
    }
  }

  lemma OrderedPrefix(rows: seq<Detection>, n: nat)
    requires InOrder(rows) && n <= |rows|
    ensures InOrder(rows[..n])
  {
  }

  lemma {:induction false} CutApart(rows: seq<Detection>, cooldown: real)
    requires InOrder(rows)
    ensures CutWell(Cut(rows, cooldown), cooldown)
    decreases |rows|
  {
    if rows != [] {
      var n := |rows| - 1;
      OrderedPrefix(rows, n);
      CutApart(rows[..n], cooldown);
      CutNext(rows, n, cooldown);
    }
  }

  /** What one more row does to the bursts so far. */
  function Next(before: seq<seq<Detection>>, d: Detection, apart: bool): (r: seq<seq<Detection>>)
    requires apart || before != []
  {
    if apart then before + [[d]] else before[..|before| - 1] + [before[|before| - 1] + [d]]
  }

  lemma CutIsNext(rows: seq<Detection>, n: nat, cooldown: real)
    requires n == |rows| - 1
    ensures var apart := n == 0 || rows[n].ts - rows[n - 1].ts > cooldown;
      (apart || Cut(rows[..n], cooldown) != []) && Cut(rows, cooldown) == Next(Cut(rows[..n], cooldown), rows[n], apart)
  {
  }

  lemma CutNext(rows: seq<Detection>, n: nat, cooldown: real)
    requires n == |rows| - 1 && InOrder(rows) && CutWell(Cut(rows[..n], cooldown), cooldown)
    ensures CutWell(Cut(rows, cooldown), cooldown)
  {
    CutIsNext(rows, n, cooldown);
    if n == 0 || rows[n].ts - rows[n - 1].ts > cooldown {
      forall k | 0 <= k < |Cut(rows[..n], cooldown)| ensures Among(Cut(rows[..n], cooldown)[k], rows[..n]) {
        CutAmong(rows[..n], cooldown, k);
      }
      NewBurst(Cut(rows[..n], cooldown), rows, n, cooldown);
    } else {
      CutEnds(rows[..n], cooldown);
      GrownBurst(Cut(rows[..n], cooldown), rows, n, cooldown);
    }
  }

  ghost predicate Tidy(burst: seq<Detection>)
  {
    burst != [] && InOrder(burst)
  }

  /** The row comes more than the cooldown after the burst ended. */
  predicate Clear(burst: seq<Detection>, d: Detection, cooldown: real)
  {
    burst != [] && d.ts - burst[|burst| - 1].ts > cooldown
  }

  /** Each burst is in time order, and each starts more than the cooldown after any burst
      before it ended. */
  ghost predicate CutWell(bursts: seq<seq<Detection>>, cooldown: real)
  {
    && (forall k | 0 <= k < |bursts| :: Tidy(bursts[k]))
    && forall k, l | 0 <= k < l < |bursts| :: Clear(bursts[k], bursts[l][0], cooldown)
  }

  lemma ClearOf(burst: seq<Detection>, rows: seq<Detection>, n: nat, cooldown: real)
    requires n == |rows| - 1 && InOrder(rows) && Tidy(burst) && Among(burst, rows[..n])
    requires n == 0 || rows[n].ts - rows[n - 1].ts > cooldown
    ensures Clear(burst, rows[n], cooldown)
  {
    var d := burst[|burst| - 1];
    assert d in burst;
    var i :| 0 <= i < n && rows[..n][i] == d;
    assert rows[i].ts <= rows[n - 1].ts;
  }

  lemma OneIsTidy(d: Detection)
    ensures Tidy([d])
  {
  }

  lemma NewBurst(before: seq<seq<Detection>>, rows: seq<Detection>, n: nat, cooldown: real)
    requires n == |rows| - 1 && InOrder(rows) && CutWell(before, cooldown)
    requires n == 0 || rows[n].ts - rows[n - 1].ts > cooldown
    requires forall k | 0 <= k < |before| :: Among(before[k], rows[..n])
    ensures CutWell(Next(before, rows[n], true), cooldown)
  {
    forall k | 0 <= k < |before| ensures Clear(before[k], rows[n], cooldown) {
      ClearOf(before[k], rows, n, cooldown);
    }
    OneIsTidy(rows[n]);
  }

  lemma GrownIsTidy(burst: seq<Detection>, d: Detection)
    requires Tidy(burst) && burst[|burst| - 1].ts <= d.ts
    ensures Tidy(burst + [d]) && (burst + [d])[0] == burst[0]
  {
    forall i | 0 <= i < |burst| ensures burst[i].ts <= d.ts {
      assert burst[i].ts <= burst[|burst| - 1].ts;
    }
  }

  lemma GrownBurst(before: seq<seq<Detection>>, rows: seq<Detection>, n: nat, cooldown: real)
    requires 0 < n == |rows| - 1 && InOrder(rows) && CutWell(before, cooldown) && before != []
    requires var last := before[|before| - 1]; last != [] && last[|last| - 1] == rows[n - 1]
    ensures CutWell(Next(before, rows[n], false), cooldown)
  {
    var m := |before| - 1;
    GrownIsTidy(before[m], rows[n]);
    var grown := Next(before, rows[n], false);
    forall k, l | 0 <= k < l < |grown| ensures Clear(grown[k], grown[l][0], cooldown) {
      assert Clear(before[k], before[l][0], cooldown);
    }
  }

  /** Where a burst comes from: the type it is of, and its place among that type's. */
  lemma {:induction false} BurstPlace(rows: seq<Detection>, names: seq<Label>, cooldown: real, k: nat)
    returns (m: nat, b: nat)
    requires k < |BurstsOf(rows, names, cooldown)|
    ensures m < |names| && b < |Cut(SortByTime(OfType(rows, names[m])), cooldown)|
    ensures BurstsOf(rows, names, cooldown)[k] == Cut(SortByTime(OfType(rows, names[m])), cooldown)[b]
    ensures k == |BurstsOf(rows, names[..m], cooldown)| + b
    decreases |names|
  {
    var last := |names| - 1;
    var before := BurstsOf(rows, names[..last], cooldown);
    if k < |before| {
      m, b := BurstPlace(rows, names[..last], cooldown, k);
      assert names[..last][..m] == names[..m];
    } else {
      m, b := last, k - |before|;
    }
  }

  lemma OfSortedType(rows: seq<Detection>, name: Label, cooldown: real, b: nat)
    requires b < |Cut(SortByTime(OfType(rows, name)), cooldown)|
    ensures CutWell(Cut(SortByTime(OfType(rows, name)), cooldown), cooldown)
    ensures OnlyOf(Cut(SortByTime(OfType(rows, name)), cooldown)[b], name)
  {
    var mine := OfType(rows, name);
    SortSorts(mine);
    CutApart(SortByTime(mine), cooldown);
    CutAmong(SortByTime(mine), cooldown, b);
    forall d: Detection | d in SortByTime(mine) ensures d.name == name {
      assert d in multiset(SortByTime(mine));
      OfTypeCount(rows, name, d);
      assert multiset(mine)[d] > 0;
    }
  }

  /** For rows in any order: every burst holds rows of one type, in time order, no two
      neighbours further apart than the cooldown. */
  lemma BurstIsWell(rows: seq<Detection>, cooldown: real, k: nat)
    requires k < |BurstsOf(rows, Types(rows), cooldown)|
    ensures var burst := BurstsOf(rows, Types(rows), cooldown)[k];
      && burst != [] && InOrder(burst) && OnlyOf(burst, burst[0].name)
      && forall i | 0 < i < |burst| :: burst[i].ts - burst[i - 1].ts <= cooldown
  {
    var m, b := BurstPlace(rows, Types(rows), cooldown, k);
    var mine := SortByTime(OfType(rows, Types(rows)[m]));
    OfSortedType(rows, Types(rows)[m], cooldown, b);
    assert Cut(mine, cooldown)[b][0] in Cut(mine, cooldown)[b];
    forall i | 0 < i < |Cut(mine, cooldown)[b]|
      ensures Cut(mine, cooldown)[b][i].ts - Cut(mine, cooldown)[b][i - 1].ts <= cooldown
    {
      NoGapInside(mine, cooldown, b, i);
    }
  }

  /** And of two bursts of one type the later one starts more than the cooldown after the
      earlier ended. With `BurstsConserve` this is all there is to the grouping. */
  lemma BurstsApart(rows: seq<Detection>, cooldown: real, k: nat, l: nat)
    requires k < l < |BurstsOf(rows, Types(rows), cooldown)|
    ensures var x, y := BurstsOf(rows, Types(rows), cooldown)[k], BurstsOf(rows, Types(rows), cooldown)[l];
      && x != [] && y != []
      && (x[0].name == y[0].name ==> y[0].ts - x[|x| - 1].ts > cooldown)
  {
    var names := Types(rows);
    var m, b := BurstPlace(rows, names, cooldown, k);
    var m', b' := BurstPlace(rows, names, cooldown, l);
    OfSortedType(rows, names[m], cooldown, b);
    OfSortedType(rows, names[m'], cooldown, b');
    TypesDistinct(rows);
    FirstIsOf(Cut(SortByTime(OfType(rows, names[m])), cooldown)[b], names[m]);
    FirstIsOf(Cut(SortByTime(OfType(rows, names[m'])), cooldown)[b'], names[m']);
  }

  lemma FirstIsOf(burst: seq<Detection>, name: Label)
    requires burst != [] && OnlyOf(burst, name)
    ensures burst[0].name == name
  {
    assert burst[0] in burst;
  }
}
