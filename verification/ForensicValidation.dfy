/** `forensic_validation.py`: the chain and bundle check, and the verdict on one incident. */
module ForensicValidation {
  import opened Prelude
  import opened Custody
  import opened Findings
  import V = CustodyVerify

  datatype Code = LogMissing | LogUnreadable | PreviousHashBroken | EntryHashMismatch | EntryFieldMissing
                | BundleDirFieldMissing | BundleMissing | BundleHashMismatch | BundleUnreadable

  /** What is found where a recorded bundle directory resolves to. */
  datatype Bundle = Absent | Unhashable | Contents(hash: string)

  type Files = string -> Bundle

  // --------------------------------------------------------- specification

  /** The hash entry `i` is expected to point to: the latest entry hash present before
      it, or genesis. */
  function ExpectedPrev(log: seq<Entry>, i: nat): (h: string)
    requires i <= |log|
  {
    if i == 0 then GENESIS
    else if log[i - 1].entryHash.Some? then log[i - 1].entryHash.value
    else ExpectedPrev(log, i - 1)
  }

  function HashCodes(hash: Digest, e: Entry): (r: seq<Code>)
  {
    if !e.Hashable() then [EntryFieldMissing]
    else if e.entryHash != Some(hash(e.Text())) then [EntryHashMismatch]
    else []
  }

  function BundleCodes(files: Files, e: Entry): (r: seq<Code>)
  {
    if e.bundleDir.None? then [BundleDirFieldMissing]
    else
      match files(e.bundleDir.value)
      case Absent => [BundleMissing]
      case Unhashable => [BundleUnreadable]
      case Contents(h) => if e.bundleHash != Some(h) then [BundleHashMismatch] else []
  }

  function EntryCodes(hash: Digest, files: Files, expected: string, e: Entry): (r: seq<Code>)
  {
    (if e.previousHash != Some(expected) then [PreviousHashBroken] else []) + HashCodes(hash, e) + BundleCodes(files, e)
  }

  function CodesAt(hash: Digest, files: Files, log: seq<Entry>, i: nat): (r: seq<Code>)
    requires i < |log|
  {
    EntryCodes(hash, files, ExpectedPrev(log, i), log[i])
  }

  function AllCodes(hash: Digest, files: Files, log: seq<Entry>): (r: seq<seq<Code>>)
    ensures |r| == |log|
  {
    seq(|log|, i requires 0 <= i < |log| => CodesAt(hash, files, log, i))
  }

  function Problems(hash: Digest, files: Files, log: seq<Entry>): (r: seq<Finding<Code>>)
  {
    Spread(AllCodes(hash, files, log), |log|)
  }

  lemma SpreadStep(hash: Digest, files: Files, log: seq<Entry>, i: nat)
    requires i < |log|
    ensures var all := AllCodes(hash, files, log);
      Spread(all, i + 1) == Spread(all, i) + Located(i, EntryCodes(hash, files, ExpectedPrev(log, i), log[i]))
  {
  }

  method CheckEntry(hash: Digest, files: Files, expected: string, i: nat, e: Entry, problems: seq<Finding<Code>>)
    returns (more: seq<Finding<Code>>)
    ensures more == problems + Located(i, EntryCodes(hash, files, expected, e))
  {
    var found: seq<Code> := [];
    if e.previousHash != Some(expected) {
      found := found + [PreviousHashBroken];
    }
    if !e.Hashable() {
      found := found + [EntryFieldMissing];
    } else if e.entryHash != Some(hash(e.Text())) {
      found := found + [EntryHashMismatch];
    }
    if e.bundleDir.None? {
      found := found + [BundleDirFieldMissing];
    } else {
      match files(e.bundleDir.value)
      case Absent => found := found + [BundleMissing];
      case Unhashable => found := found + [BundleUnreadable];
      case Contents(h) =>
        if e.bundleHash != Some(h) {
          found := found + [BundleHashMismatch];
        }
    }
    more := problems + Located(i, found);
  }

  method VerifyChainDetailed(hash: Digest, files: Files, log: seq<Entry>) returns (problems: seq<Finding<Code>>)
    ensures problems == Problems(hash, files, log)
  {
    problems := [];
    var expected := GENESIS;
    for i := 0 to |log|
      invariant expected == ExpectedPrev(log, i)
      invariant problems == Spread(AllCodes(hash, files, log), i)
    {
      SpreadStep(hash, files, log, i);
      problems := CheckEntry(hash, files, expected, i, log[i], problems);
      if log[i].entryHash.Some? {
        expected := log[i].entryHash.value;
      }
    }
  }

  // ------------------------------------------------------ what a report means

  /** A code is reported for an entry exactly if the entry has it. */
  lemma ReportedWhere(hash: Digest, files: Files, log: seq<Entry>, i: nat, code: Code)
    ensures Finding(i, code) in Problems(hash, files, log) <==> i < |log| && code in CodesAt(hash, files, log, i)
  {
    SpreadHas(AllCodes(hash, files, log), |log|, i, code);
  }

  /** The expected link is the latest entry hash before, or genesis if there is none. */
  lemma {:induction false} ExpectedPrevIs(log: seq<Entry>, i: nat)
    requires i <= |log|
    ensures (exists k :: 0 <= k < i && log[k].entryHash == Some(ExpectedPrev(log, i))
                      && forall j | k < j < i :: log[j].entryHash.None?)
         || ((forall j | 0 <= j < i :: log[j].entryHash.None?) && ExpectedPrev(log, i) == GENESIS)
    decreases i
  {
    if i > 0 && log[i - 1].entryHash.None? {
      ExpectedPrevIs(log, i - 1);
    }
  }

  predicate LinkCode(code: Code)
  {
    code == PreviousHashBroken || code == EntryHashMismatch || code == EntryFieldMissing
  }

  /** The evidence of an entry is on disk and unchanged. */
  predicate BundleSound(files: Files, e: Entry)
  {
    e.bundleDir.Some? && files(e.bundleDir.value).Contents? && e.bundleHash == Some(files(e.bundleDir.value).hash)
  }

  /** The link part of an entry's check, read directly. */
  predicate LinkSound(hash: Digest, log: seq<Entry>, i: nat)
    requires i < |log|
  {
    && log[i].previousHash == Some(ExpectedPrev(log, i))
    && log[i].Hashable() && log[i].entryHash == Some(hash(log[i].Text()))
  }

  lemma CodesMean(hash: Digest, files: Files, log: seq<Entry>, i: nat)
    requires i < |log|
    ensures (exists code :: code in CodesAt(hash, files, log, i) && LinkCode(code)) <==> !LinkSound(hash, log, i)
    ensures CodesAt(hash, files, log, i) == [] <==> LinkSound(hash, log, i) && BundleSound(files, log[i])
  {
    var codes, e := CodesAt(hash, files, log, i), log[i];
    if e.previousHash != Some(ExpectedPrev(log, i)) {
      assert codes[0] == PreviousHashBroken && PreviousHashBroken in codes;
    } else if HashCodes(hash, e) != [] {
      assert codes[0] == HashCodes(hash, e)[0] && codes[0] in codes;
    }
  }

  /** What is wrong with an entry's link and hash. */
  predicate LinkFault(hash: Digest, log: seq<Entry>, i: nat, code: Code)
    requires i < |log|
  {
    match code
    case PreviousHashBroken => log[i].previousHash != Some(ExpectedPrev(log, i))
    case EntryFieldMissing => !log[i].Hashable()
    case EntryHashMismatch => log[i].Hashable() && log[i].entryHash != Some(hash(log[i].Text()))
    case _ => false
  }

  lemma LinkCodeMeans(hash: Digest, files: Files, log: seq<Entry>, i: nat, code: Code)
    requires i < |log| && LinkCode(code)
    ensures code in CodesAt(hash, files, log, i) <==> LinkFault(hash, log, i, code)
  {
    var e := log[i];
    var link: seq<Code> := if e.previousHash != Some(ExpectedPrev(log, i)) then [PreviousHashBroken] else [];
    assert CodesAt(hash, files, log, i) == link + HashCodes(hash, e) + BundleCodes(files, e);
    assert code !in BundleCodes(files, e);
    assert code in link <==> code == PreviousHashBroken && e.previousHash != Some(ExpectedPrev(log, i));
    assert code in HashCodes(hash, e) <==>
      (code == EntryFieldMissing && !e.Hashable())
      || (code == EntryHashMismatch && e.Hashable() && e.entryHash != Some(hash(e.Text())));
  }

  /** Each link problem is reported for exactly the entries that have it: a link that is not
      the latest hash before, a hashed field missing, or a hash that is not that of the text. */
  lemma LinkReports(hash: Digest, files: Files, log: seq<Entry>, i: nat, code: Code)
    requires LinkCode(code)
    ensures Finding(i, code) in Problems(hash, files, log) <==> i < |log| && LinkFault(hash, log, i, code)
  {
    ReportedWhere(hash, files, log, i, code);
    if i < |log| {
      LinkCodeMeans(hash, files, log, i, code);
    }
  }

  /** What is wrong with an entry's evidence. */
  predicate BundleFault(files: Files, e: Entry, code: Code)
  {
    match code
    case BundleDirFieldMissing => e.bundleDir.None?
    case BundleMissing => e.bundleDir.Some? && files(e.bundleDir.value).Absent?
    case BundleUnreadable => e.bundleDir.Some? && files(e.bundleDir.value).Unhashable?
    case BundleHashMismatch =>
      && e.bundleDir.Some? && files(e.bundleDir.value).Contents?
      && e.bundleHash != Some(files(e.bundleDir.value).hash)
    case _ => false
  }

  lemma BundleCodeMeans(hash: Digest, files: Files, log: seq<Entry>, i: nat, code: Code)
    requires i < |log| && !LinkCode(code)
    ensures code in CodesAt(hash, files, log, i) <==> BundleFault(files, log[i], code)
  {
    var e := log[i];
    var link: seq<Code> := if e.previousHash != Some(ExpectedPrev(log, i)) then [PreviousHashBroken] else [];
    assert CodesAt(hash, files, log, i) == link + HashCodes(hash, e) + BundleCodes(files, e);
    assert code in BundleCodes(files, e) <==> BundleFault(files, e, code);
  }

  /** A bundle problem is reported for exactly the entries whose evidence is missing,
      unreadable, changed or not recorded in that way. */
  lemma BundleReports(hash: Digest, files: Files, log: seq<Entry>, i: nat, code: Code)
    requires !LinkCode(code)
    ensures Finding(i, code) in Problems(hash, files, log) <==> i < |log| && BundleFault(files, log[i], code)
  {
    ReportedWhere(hash, files, log, i, code);
    if i < |log| {
      BundleCodeMeans(hash, files, log, i, code);
    }
  }

  // ------------------------------------------------------------ one incident

  /** The log as the checker finds it. */
  datatype LogFile = Missing | Unreadable | Lines(log: seq<Entry>)

  datatype Verdict = Valid | Invalid | NotFound

  datatype IncidentReport = IncidentReport(verdict: Verdict, index: Option<nat>, codes: set<Code>, earlier: set<Code>)

  /** The first entry of an incident. */
  function FirstWith(log: seq<Entry>, id: string, from: nat): (k: Option<nat>)
    requires from <= |log|
    ensures k.None? <==> forall i | from <= i < |log| :: log[i].incidentId != Some(id)
    ensures k.Some? ==> from <= k.value < |log| && log[k.value].incidentId == Some(id)
                        && forall i | from <= i < k.value :: log[i].incidentId != Some(id)
    decreases |log| - from
  {
    if from == |log| then None
    else if log[from].incidentId == Some(id) then Some(from)
    else FirstWith(log, id, from + 1)
  }

  function VerifyIncident(hash: Digest, files: Files, file: LogFile, id: string): (r: IncidentReport)
  {
    match file
    case Missing => IncidentReport(Invalid, None, {LogMissing}, {})
    case Unreadable => IncidentReport(Invalid, None, {LogUnreadable}, {})
    case Lines(log) =>
      var problems := Problems(hash, files, log);
      match FirstWith(log, id, 0)
      case None => IncidentReport(NotFound, None, {}, {})
      case Some(k) =>
        var own := set p | p in problems && p.index == k :: p.code;
        var earlier := set p | p in problems && p.index < k && LinkCode(p.code) :: p.code;
        IncidentReport(if own != {} || earlier != {} then Invalid else Valid, Some(k), own, earlier)
  }

  lemma OwnAndEarlier(hash: Digest, files: Files, log: seq<Entry>, id: string)
    requires FirstWith(log, id, 0).Some?
    ensures var k, r := FirstWith(log, id, 0).value, VerifyIncident(hash, files, Lines(log), id);
      && (forall code :: code in r.codes <==> code in CodesAt(hash, files, log, k))
      && (forall code :: code in r.earlier <==>
            exists j :: 0 <= j < k && LinkCode(code) && code in CodesAt(hash, files, log, j))
  {
    var k, r := FirstWith(log, id, 0).value, VerifyIncident(hash, files, Lines(log), id);
    var problems := Problems(hash, files, log);
    forall code
      ensures code in r.codes <==> code in CodesAt(hash, files, log, k)
      ensures code in r.earlier <==> exists j :: 0 <= j < k && LinkCode(code) && code in CodesAt(hash, files, log, j)
    {
      ReportedWhere(hash, files, log, k, code);
      forall j: nat | j < k
        ensures Finding(j, code) in problems <==> code in CodesAt(hash, files, log, j)
      {
        ReportedWhere(hash, files, log, j, code);
      }
      assert code in r.codes <==> Finding(k, code) in problems;
    }
  }

  lemma NoEarlierIff(hash: Digest, files: Files, log: seq<Entry>, id: string)
    requires FirstWith(log, id, 0).Some?
    ensures VerifyIncident(hash, files, Lines(log), id).earlier == {}
       <==> forall j | 0 <= j < FirstWith(log, id, 0).value :: LinkSound(hash, log, j)
  {
    var k, r := FirstWith(log, id, 0).value, VerifyIncident(hash, files, Lines(log), id);
    OwnAndEarlier(hash, files, log, id);
    if j: nat :| j < k && !LinkSound(hash, log, j) {
      CodesMean(hash, files, log, j);
      var code :| code in CodesAt(hash, files, log, j) && LinkCode(code);
      assert code in r.earlier;
    } else if r.earlier != {} {
      var code :| code in r.earlier;
      var j :| 0 <= j < k && LinkCode(code) && code in CodesAt(hash, files, log, j);
      CodesMean(hash, files, log, j);
    }
  }

  lemma NoOwnIff(hash: Digest, files: Files, log: seq<Entry>, id: string)
    requires FirstWith(log, id, 0).Some?
    ensures var k := FirstWith(log, id, 0).value;
      VerifyIncident(hash, files, Lines(log), id).codes == {} <==> LinkSound(hash, log, k) && BundleSound(files, log[k])
  {
    var k, r := FirstWith(log, id, 0).value, VerifyIncident(hash, files, Lines(log), id);
    OwnAndEarlier(hash, files, log, id);
    CodesMean(hash, files, log, k);
    if CodesAt(hash, files, log, k) != [] {
      assert CodesAt(hash, files, log, k)[0] in r.codes;
    }
  }

  /** An incident is valid exactly if every entry up to its first one is linked and
      hashed soundly from genesis and its own bundle is unchanged. Changed bundles of
      earlier incidents and anything after its entry do not matter. */
  lemma ValidIff(hash: Digest, files: Files, log: seq<Entry>, id: string)
    requires FirstWith(log, id, 0).Some?
    ensures var k := FirstWith(log, id, 0).value;
      VerifyIncident(hash, files, Lines(log), id).verdict == Valid
      <==> Linked(hash, log[..k + 1]) && BundleSound(files, log[k])
  {
    var k := FirstWith(log, id, 0).value;
    NoEarlierIff(hash, files, log, id);
    NoOwnIff(hash, files, log, id);
    LinkSoundIsLinked(hash, log, k + 1);
  }

  /** `k` is the first entry of the incident. */
  ghost predicate FirstAt(log: seq<Entry>, id: string, k: int)
  {
    0 <= k < |log| && log[k].incidentId == Some(id) && forall i | 0 <= i < k :: log[i].incidentId != Some(id)
  }

  /** The verdict on an incident, whatever the log file: valid exactly when the file can be
      read, has an entry of the incident, is linked from genesis up to the first one, and
      that one's bundle is unchanged; not found exactly when the file can be read and has no
      such entry. A file that is missing or cannot be read makes every incident invalid,
      with that as the only code. */
  lemma VerdictIff(hash: Digest, files: Files, file: LogFile, id: string)
    ensures var r := VerifyIncident(hash, files, file, id);
      && (r.verdict == Valid <==>
            && file.Lines?
            && exists k :: FirstAt(file.log, id, k) && Linked(hash, file.log[..k + 1])
                        && BundleSound(files, file.log[k]))
      && (r.verdict == NotFound <==>
            file.Lines? && forall i | 0 <= i < |file.log| :: file.log[i].incidentId != Some(id))
      && (!file.Lines? ==>
            && r.verdict == Invalid && r.index == None && r.earlier == {}
            && r.codes == {if file.Missing? then LogMissing else LogUnreadable})
      && (file.Lines? ==>
            (if r.index.Some? then FirstAt(file.log, id, r.index.value)
             else r.verdict == NotFound && r.codes == {} == r.earlier))
  {
    if file.Lines? && FirstWith(file.log, id, 0).Some? {
      var k := FirstWith(file.log, id, 0).value;
      ValidIff(hash, files, file.log, id);
      assert FirstAt(file.log, id, k);
      forall j | FirstAt(file.log, id, j) ensures j == k {
        assert !(j < k) && !(k < j);
      }
    }
  }

  lemma {:induction false} LinkSoundIsLinked(hash: Digest, log: seq<Entry>, n: nat)
    requires n <= |log|
    ensures (forall j | 0 <= j < n :: LinkSound(hash, log, j)) <==> Linked(hash, log[..n])
    decreases n
  {
    if n > 0 {
      LinkSoundIsLinked(hash, log, n - 1);
      assert log[..n][..n - 1] == log[..n - 1];
      assert forall j | 0 <= j < n - 1 :: SoundAt(hash, log[..n], j) == SoundAt(hash, log[..n - 1], j);
      if forall j | 0 <= j < n - 1 :: LinkSound(hash, log, j) {
        assert n > 1 ==> LinkSound(hash, log, n - 2);
        assert ExpectedPrev(log, n - 1) == PreviousOf(log[..n], n - 1);
        assert SoundAt(hash, log[..n], n - 1) <==> LinkSound(hash, log, n - 1);
      } else if Linked(hash, log[..n]) {
        LinkedPrefix(hash, log[..n], n - 1);
      }
    }
  }

  /** A broken link, hash or hashed field at entry j invalidates every incident that first
      appears at or after j. */
  lemma LinkProblemInvalidatesLater(hash: Digest, files: Files, log: seq<Entry>, j: nat, code: Code, id: string)
    requires Finding(j, code) in Problems(hash, files, log) && LinkCode(code)
    requires FirstWith(log, id, 0).Some? && j <= FirstWith(log, id, 0).value
    ensures VerifyIncident(hash, files, Lines(log), id).verdict == Invalid
  {
    ReportedWhere(hash, files, log, j, code);
    OwnAndEarlier(hash, files, log, id);
  }

  // ------------------------------------------------------------ prefixes

  lemma {:induction false} ExpectedPrevPrefix(log: seq<Entry>, n: nat, i: nat)
    requires i <= n <= |log|
    ensures ExpectedPrev(log[..n], i) == ExpectedPrev(log, i)
    decreases i
  {
    if i > 0 {
      ExpectedPrevPrefix(log, n, i - 1);
    }
  }

  /** Checking a prefix of the log gives exactly the full check's problems below the cut,
      in the same order. */
  lemma PrefixGivesProblemsBelow(hash: Digest, files: Files, log: seq<Entry>, n: nat)
    requires n <= |log|
    ensures Problems(hash, files, log[..n]) == Preceding(Problems(hash, files, log), n)
  {
    var codes := AllCodes(hash, files, log);
    forall i | 0 <= i < n ensures AllCodes(hash, files, log[..n])[i] == codes[i] {
      ExpectedPrevPrefix(log, n, i);
    }
    assert AllCodes(hash, files, log[..n]) == codes[..n];
    SpreadPrefix(codes, n, n);
    SpreadPreceding(codes, |log|, n);
  }

  // ------------------------------------------------------- the checkers agree

  lemma {:induction false} CompletePrev(log: seq<Entry>, i: nat)
    requires i <= |log| && forall k | 0 <= k < |log| :: log[k].Complete()
    ensures ExpectedPrev(log, i) == PreviousOf(log, i)
  {
    assert i > 0 ==> log[i - 1].Complete();
  }

  /** On logs both can read, this checker and the independent verifier report broken links
      and hash mismatches for the same entries. */
  lemma CheckersAgree(hash: Digest, files: Files, keys: set<string>, log: seq<Entry>, anchors: seq<Anchor>, i: nat)
    requires V.VerifySpec(hash, keys, log, anchors).Report?
    ensures var mine, theirs := Problems(hash, files, log), V.VerifySpec(hash, keys, log, anchors).entries;
      && (Finding(i, PreviousHashBroken) in mine <==> Finding(i, V.BrokenLink) in theirs)
      && (Finding(i, EntryHashMismatch) in mine <==> Finding(i, V.EntryHashMismatch) in theirs)
      && Finding(i, EntryFieldMissing) !in mine
  {
    V.LinkReports(hash, keys, log, anchors, i);
    V.AllReadableIff(log, |log|);
    ReportedWhere(hash, files, log, i, PreviousHashBroken);
    ReportedWhere(hash, files, log, i, EntryHashMismatch);
    ReportedWhere(hash, files, log, i, EntryFieldMissing);
    if i < |log| {
      assert V.Readable(log[i]);
      forall k | 0 <= k < |log| ensures log[k].Complete() {
        assert V.Readable(log[k]);
      }
      CompletePrev(log, i);
      LinkCodesOfComplete(hash, files, log, i);
    }
  }

  lemma LinkCodesOfComplete(hash: Digest, files: Files, log: seq<Entry>, i: nat)
    requires i < |log| && log[i].Complete()
    ensures var codes := CodesAt(hash, files, log, i);
      && (PreviousHashBroken in codes <==> log[i].previousHash != Some(ExpectedPrev(log, i)))
      && (EntryHashMismatch in codes <==> hash(log[i].Text()) != log[i].entryHash.value)
      && EntryFieldMissing !in codes
  {
    var e, expected := log[i], ExpectedPrev(log, i);
    var link: seq<Code> := if e.previousHash != Some(expected) then [PreviousHashBroken] else [];
    var own: seq<Code> := if e.entryHash != Some(hash(e.Text())) then [EntryHashMismatch] else [];
    assert HashCodes(hash, e) == own;
    assert CodesAt(hash, files, log, i) == link + own + BundleCodes(files, e);
  }
}
