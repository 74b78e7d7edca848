/** `custody_verify.py`: links, entry hashes, signatures by pinned keys, and anchors. */
module CustodyVerify {
  import opened Prelude
  import opened Custody
  import opened Findings

  datatype Code = BrokenLink | EntryHashMismatch | Unsigned | UnknownKeyId | BadSignature
                | BadAnchorSignature | TailTruncated | AnchoredEntryRewritten

  /** The findings at entries, then those at anchors. `Raised`: a missing field, an entry
      hash that is not hexadecimal, or an anchor count that indexes outside the log ends
      the run with an exception. */
  datatype Report = Raised | Report(entries: seq<Finding<Code>>, anchors: seq<Finding<Code>>)

  // --------------------------------------------------------- specification

  predicate Readable(e: Entry)
  {
    e.Complete() && IsHex(e.entryHash.value)
  }

  predicate AllReadable(log: seq<Entry>, n: nat)
    requires n <= |log|
  {
    n == 0 || (AllReadable(log, n - 1) && Readable(log[n - 1]))
  }

  lemma {:induction false} AllReadableIff(log: seq<Entry>, n: nat)
    requires n <= |log|
    ensures AllReadable(log, n) <==> forall i | 0 <= i < n :: Readable(log[i])
    decreases n
  {
    if n > 0 {
      AllReadableIff(log, n - 1);
    }
  }

  lemma OneUnreadable(log: seq<Entry>, i: nat)
    requires i < |log| && !Readable(log[i])
    ensures !AllReadable(log, |log|)
  {
    AllReadableIff(log, |log|);
  }

  function LinkCodes(hash: Digest, prev: string, e: Entry): (r: seq<Code>)
  {
    if !e.Complete() then []
    else
      (if e.previousHash.value != prev then [BrokenLink] else [])
      + (if hash(e.Text()) != e.entryHash.value then [EntryHashMismatch] else [])
  }

  function SignatureCodes(keys: set<string>, e: Entry): (r: seq<Code>)
  {
    if e.signature.None? then [Unsigned]
    else if e.keyId.None? || e.keyId.value !in keys then [UnknownKeyId]
    else if e.signature.value != Signature(e.keyId.value, e.Core()) then [BadSignature]
    else []
  }

  function EntryCodes(hash: Digest, keys: set<string>, prev: string, e: Entry): (r: seq<Code>)
  {
    LinkCodes(hash, prev, e) + SignatureCodes(keys, e)
  }

  function CodesAt(hash: Digest, keys: set<string>, log: seq<Entry>, i: nat): (r: seq<Code>)
    requires i < |log|
  {
    EntryCodes(hash, keys, PreviousOf(log, i), log[i])
  }

  function AllCodes(hash: Digest, keys: set<string>, log: seq<Entry>): (r: seq<seq<Code>>)
    ensures |r| == |log|
  {
    seq(|log|, i requires 0 <= i < |log| => CodesAt(hash, keys, log, i))
  }

  datatype AnchorCheck = Fine | Bad(code: Code) | IndexError

  /** `entries[n - 1]` of a log of `len` entries: a count of zero or below indexes from
      the end. */
  function Indexed(len: nat, n: int): (k: Option<nat>)
    requires n <= len
    ensures k.Some? ==> k.value < len
  {
    if n > 0 then Some(n - 1) else if len + n - 1 >= 0 then Some(len + n - 1) else None
  }

  function CheckAnchor(keys: set<string>, log: seq<Entry>, a: Anchor): (c: AnchorCheck)
  {
    if a.core.keyId !in keys || a.signature != Some((a.core.keyId, a.core)) then Bad(BadAnchorSignature)
    else if |log| < a.core.entryCount then Bad(TailTruncated)
    else
      match Indexed(|log|, a.core.entryCount)
      case None => IndexError
      case Some(k) => if log[k].entryHash != Some(a.core.headHash) then Bad(AnchoredEntryRewritten) else Fine
  }

  /** Signed by a pinned key over exactly its own fields. */
  predicate AnchorSigned(keys: set<string>, a: Anchor)
  {
    a.core.keyId in keys && a.signature == Some((a.core.keyId, a.core))
  }

  /** An anchor ends the run with an exception exactly if a pinned key signed it and its
      count reaches back to before the start of the log. */
  lemma AnchorRaisesIff(keys: set<string>, log: seq<Entry>, a: Anchor)
    ensures CheckAnchor(keys, log, a).IndexError? <==> AnchorSigned(keys, a) && a.core.entryCount <= -|log|
  {
  }

  function AnchorCodes(keys: set<string>, log: seq<Entry>, anchors: seq<Anchor>): (r: seq<seq<Code>>)
    ensures |r| == |anchors|
  {
    seq(|anchors|, j requires 0 <= j < |anchors| =>
      match CheckAnchor(keys, log, anchors[j])
      case Bad(code) => [code]
      case _ => [])
  }

  function VerifySpec(hash: Digest, keys: set<string>, log: seq<Entry>, anchors: seq<Anchor>): (r: Report)
  {
    if !AllReadable(log, |log|) then Raised
    else if (exists j | 0 <= j < |anchors| :: AnchorSigned(keys, anchors[j]) && anchors[j].core.entryCount <= -|log|)
    then Raised
    else Report(Spread(AllCodes(hash, keys, log), |log|), Spread(AnchorCodes(keys, log, anchors), |anchors|))
  }

  lemma SpreadStep(hash: Digest, keys: set<string>, log: seq<Entry>, i: nat)
    requires i < |log|
    ensures var all := AllCodes(hash, keys, log);
      Spread(all, i + 1) == Spread(all, i) + Located(i, EntryCodes(hash, keys, PreviousOf(log, i), log[i]))
  {
  }

  method VerifyEntry(hash: Digest, keys: set<string>, prev: string, i: nat, e: Entry, problems: seq<Finding<Code>>)
    returns (more: Option<seq<Finding<Code>>>)
    ensures more.Some? <==> Readable(e)
    ensures more.Some? ==> more.value == problems + Located(i, EntryCodes(hash, keys, prev, e))
  {
    if !Readable(e) {
      return None;
    }
    var found: seq<Code> := [];
    if e.previousHash.value != prev {
      found := found + [BrokenLink];
    }
    if hash(e.Text()) != e.entryHash.value {
      found := found + [EntryHashMismatch];
    }
    if e.signature.None? {
      found := found + [Unsigned];
    } else if e.keyId.None? || e.keyId.value !in keys {
      found := found + [UnknownKeyId];
    } else if e.signature.value != Signature(e.keyId.value, e.Core()) {
      found := found + [BadSignature];
    }
    return Some(problems + Located(i, found));
  }

  method VerifyEntries(hash: Digest, keys: set<string>, log: seq<Entry>) returns (r: Option<seq<Finding<Code>>>)
    ensures r.None? <==> !AllReadable(log, |log|)
    ensures r.Some? ==> r.value == Spread(AllCodes(hash, keys, log), |log|)
  {
    var problems: seq<Finding<Code>> := [];
    var prev := GENESIS;
    for i := 0 to |log|
      invariant AllReadable(log, i)
      invariant prev == PreviousOf(log, i)
      invariant problems == Spread(AllCodes(hash, keys, log), i)
    {
      var more := VerifyEntry(hash, keys, prev, i, log[i], problems);
      if more.None? {
        OneUnreadable(log, i);
        return None;
      }
      SpreadStep(hash, keys, log, i);
      problems := more.value;
      prev := log[i].entryHash.value;
    }
    return Some(problems);
  }

  method VerifyAnchors(keys: set<string>, log: seq<Entry>, anchors: seq<Anchor>) returns (r: Option<seq<Finding<Code>>>)
    ensures r.None? <==>
      exists j | 0 <= j < |anchors| :: AnchorSigned(keys, anchors[j]) && anchors[j].core.entryCount <= -|log|
    ensures r.Some? ==> r.value == Spread(AnchorCodes(keys, log, anchors), |anchors|)
  {
    var problems: seq<Finding<Code>> := [];
    for j := 0 to |anchors|
      invariant forall k | 0 <= k < j :: !(AnchorSigned(keys, anchors[k]) && anchors[k].core.entryCount <= -|log|)
      invariant problems == Spread(AnchorCodes(keys, log, anchors), j)
    {
      AnchorRaisesIff(keys, log, anchors[j]);
      var check := CheckAnchor(keys, log, anchors[j]);
      if check.IndexError? {
        return None;
      }
      var found: seq<Code> := if check.Bad? then [check.code] else [];
      assert found == AnchorCodes(keys, log, anchors)[j];
      problems := problems + Located(j, found);
    }
    return Some(problems);
  }

  method Verify(hash: Digest, keys: set<string>, log: seq<Entry>, anchors: seq<Anchor>) returns (r: Report)
    ensures r == VerifySpec(hash, keys, log, anchors)
  {
    var ofEntries := VerifyEntries(hash, keys, log);
    if ofEntries.None? {
      return Raised;
    }
    var ofAnchors := VerifyAnchors(keys, log, anchors);
    if ofAnchors.None? {
      return Raised;
    }
    return Report(ofEntries.value, ofAnchors.value);
  }

  // ------------------------------------------------------ what a report means

  predicate BreaksLink(log: seq<Entry>, i: nat)
    requires i < |log|
  {
    log[i].previousHash != Some(PreviousOf(log, i))
  }

  predicate Mismatches(hash: Digest, e: Entry)
  {
    e.Complete() ==> hash(e.Text()) != e.entryHash.value
  }

  lemma CodeMeans(hash: Digest, keys: set<string>, log: seq<Entry>, i: nat)
    requires i < |log| && log[i].Complete()
    ensures BrokenLink in CodesAt(hash, keys, log, i) <==> BreaksLink(log, i)
    ensures EntryHashMismatch in CodesAt(hash, keys, log, i) <==> Mismatches(hash, log[i])
  {
  }

  /** The report of a run that did not raise: a link or hash problem is listed exactly
      for the entries that have it. */
  lemma LinkReports(hash: Digest, keys: set<string>, log: seq<Entry>, anchors: seq<Anchor>, i: nat)
    requires VerifySpec(hash, keys, log, anchors).Report?
    ensures var problems := VerifySpec(hash, keys, log, anchors).entries;
      && (Finding(i, BrokenLink) in problems <==> i < |log| && BreaksLink(log, i))
      && (Finding(i, EntryHashMismatch) in problems <==> i < |log| && Mismatches(hash, log[i]))
  {
    SpreadHas(AllCodes(hash, keys, log), |log|, i, BrokenLink);
    SpreadHas(AllCodes(hash, keys, log), |log|, i, EntryHashMismatch);
    if i < |log| {
      AllReadableIff(log, |log|);
      assert Readable(log[i]);
      CodeMeans(hash, keys, log, i);
    }
  }

  /** No link or hash problem at any entry. */
  ghost predicate LinksClean(r: Report)
    requires r.Report?
  {
    forall i: nat :: Finding(i, BrokenLink) !in r.entries && Finding(i, EntryHashMismatch) !in r.entries
  }

  /** No problem at anchor `j`. */
  ghost predicate AnchorClean(r: Report, j: nat)
    requires r.Report?
  {
    forall code :: Finding(j, code) !in r.anchors
  }

  /** A report without link or hash problems means a linked chain from genesis, and the
      other way round. */
  lemma LinksCleanIff(hash: Digest, keys: set<string>, log: seq<Entry>, anchors: seq<Anchor>)
    requires VerifySpec(hash, keys, log, anchors).Report?
    ensures LinksClean(VerifySpec(hash, keys, log, anchors)) <==> Linked(hash, log)
  {
    var problems := VerifySpec(hash, keys, log, anchors).entries;
    forall i: nat
      ensures Finding(i, BrokenLink) in problems <==> i < |log| && BreaksLink(log, i)
      ensures Finding(i, EntryHashMismatch) in problems <==> i < |log| && Mismatches(hash, log[i])
      ensures i < |log| ==> (SoundAt(hash, log, i) <==> !BreaksLink(log, i) && !Mismatches(hash, log[i]))
    {
      LinkReports(hash, keys, log, anchors, i);
      AllReadableIff(log, |log|);
      assert i < |log| ==> Readable(log[i]);
    }
  }

  /** Signed by a pinned key over exactly its own fields. */
  predicate SignedBy(keys: set<string>, e: Entry)
  {
    && e.signature.Some? && e.keyId.Some? && e.keyId.value in keys
    && e.signature.value == Signature(e.keyId.value, e.Core())
  }

  predicate SignatureCode(code: Code)
  {
    code == Unsigned || code == UnknownKeyId || code == BadSignature
  }

  lemma SignatureCodeMeans(hash: Digest, keys: set<string>, log: seq<Entry>, i: nat, code: Code)
    requires i < |log| && SignatureCode(code)
    ensures code in CodesAt(hash, keys, log, i) <==>
      && !SignedBy(keys, log[i])
      && code == if log[i].signature.None? then Unsigned
                 else if log[i].keyId.Some? && log[i].keyId.value in keys then BadSignature
                 else UnknownKeyId
  {
    var link, own := LinkCodes(hash, PreviousOf(log, i), log[i]), SignatureCodes(keys, log[i]);
    assert code in link + own <==> code in link || code in own;
  }

  /** A signature problem is reported for exactly the entries that no pinned key signed
      as they stand: unsigned, by an unknown key, or over other fields. */
  lemma SignatureReports(hash: Digest, keys: set<string>, log: seq<Entry>, anchors: seq<Anchor>, i: nat, code: Code)
    requires VerifySpec(hash, keys, log, anchors).Report? && SignatureCode(code)
    ensures Finding(i, code) in VerifySpec(hash, keys, log, anchors).entries <==>
      && i < |log| && !SignedBy(keys, log[i])
      && code == if log[i].signature.None? then Unsigned
                 else if log[i].keyId.Some? && log[i].keyId.value in keys then BadSignature
                 else UnknownKeyId
  {
    SpreadHas(AllCodes(hash, keys, log), |log|, i, code);
    if i < |log| {
      SignatureCodeMeans(hash, keys, log, i, code);
    }
  }

  /** Changing any signed field of a signed entry, its signature left in place, is
      reported. */
  lemma EditedEntryShows(hash: Digest, keys: set<string>, was: Entry, log: seq<Entry>, anchors: seq<Anchor>, i: nat)
    requires VerifySpec(hash, keys, log, anchors).Report? && i < |log|
    requires SignedBy(keys, was) && log[i].signature == was.signature && log[i].Core() != was.Core()
    ensures exists code :: SignatureCode(code) && Finding(i, code) in VerifySpec(hash, keys, log, anchors).entries
  {
    var code := if log[i].keyId.Some? && log[i].keyId.value in keys then BadSignature else UnknownKeyId;
    SignatureReports(hash, keys, log, anchors, i, code);
  }

  /** The run ends with an exception exactly if some entry lacks a hashed field or has a hash
      that is not hexadecimal, or an anchor signed by a pinned key counts back to before the
      start of the log. */
  lemma RaisedIff(hash: Digest, keys: set<string>, log: seq<Entry>, anchors: seq<Anchor>)
    ensures VerifySpec(hash, keys, log, anchors).Raised? <==>
      || (exists i :: 0 <= i < |log| && !(log[i].Complete() && IsHex(log[i].entryHash.value)))
      || (exists j :: 0 <= j < |anchors| && AnchorSigned(keys, anchors[j]) && anchors[j].core.entryCount <= -|log|)
  {
    AllReadableIff(log, |log|);
    assert forall i | 0 <= i < |log| :: Readable(log[i]) <==> log[i].Complete() && IsHex(log[i].entryHash.value);
  }

  /** Why an anchor is not accepted: not signed by a pinned key over its own fields; more
      entries counted than there are; or another hash at its count than the one it names,
      where a count that is not positive counts from the end. */
  predicate AnchorFault(keys: set<string>, log: seq<Entry>, a: Anchor, code: Code)
  {
    match code
    case BadAnchorSignature => !AnchorSigned(keys, a)
    case TailTruncated => AnchorSigned(keys, a) && a.core.entryCount > |log|
    case AnchoredEntryRewritten =>
      && AnchorSigned(keys, a) && -|log| < a.core.entryCount <= |log|
      && var at := if a.core.entryCount > 0 then a.core.entryCount - 1 else |log| + a.core.entryCount - 1;
         log[at].entryHash != Some(a.core.headHash)
    case _ => false
  }

  lemma AnchorCodeMeans(keys: set<string>, log: seq<Entry>, anchors: seq<Anchor>, j: nat, code: Code)
    requires j < |anchors|
    ensures code in AnchorCodes(keys, log, anchors)[j] <==> AnchorFault(keys, log, anchors[j], code)
  {
  }

  /** Each fault is reported for exactly the anchors that have it. */
  lemma AnchorReports(hash: Digest, keys: set<string>, log: seq<Entry>, anchors: seq<Anchor>, j: nat, code: Code)
    requires VerifySpec(hash, keys, log, anchors).Report?
    ensures Finding(j, code) in VerifySpec(hash, keys, log, anchors).anchors
       <==> j < |anchors| && AnchorFault(keys, log, anchors[j], code)
  {
    SpreadHas(AnchorCodes(keys, log, anchors), |anchors|, j, code);
    if j < |anchors| {
      AnchorCodeMeans(keys, log, anchors, j, code);
    }
  }

  lemma AcceptedAnchor(hash: Digest, keys: set<string>, log: seq<Entry>, anchors: seq<Anchor>, j: nat)
    requires VerifySpec(hash, keys, log, anchors).Report? && j < |anchors| && anchors[j].core.entryCount > 0
    requires AnchorClean(VerifySpec(hash, keys, log, anchors), j)
    ensures var core := anchors[j].core;
      core.entryCount <= |log| && log[core.entryCount - 1].entryHash == Some(core.headHash)
  {
    var check := CheckAnchor(keys, log, anchors[j]);
    if check.Bad? {
      assert check.code in AnchorCodes(keys, log, anchors)[j];
      SpreadHas(AnchorCodes(keys, log, anchors), |anchors|, j, check.code);
    }
  }

  /** An accepted anchor fixes the whole prefix it counts: two logs reported without link
      or hash problems and without a problem at an anchor they share agree on every hash,
      link and hashed text up to its count, unless two of their texts collide. */
  lemma AcceptedAnchorPinsPrefix(hash: Digest, keys: set<string>, a: seq<Entry>, b: seq<Entry>,
                                 ofA: seq<Anchor>, ofB: seq<Anchor>, j: nat, k: nat)
    requires PrintsDigests(hash) && j < |ofA| && k < |ofB| && ofA[j].core == ofB[k].core && ofA[j].core.entryCount > 0
    requires VerifySpec(hash, keys, a, ofA).Report? && VerifySpec(hash, keys, b, ofB).Report?
    requires var (p, q) := (VerifySpec(hash, keys, a, ofA), VerifySpec(hash, keys, b, ofB));
      LinksClean(p) && LinksClean(q) && AnchorClean(p, j) && AnchorClean(q, k)
    ensures var n := ofA[j].core.entryCount;
      && n <= |a| && n <= |b|
      && ((forall i | 0 <= i < n :: SameHashed(a[i], b[i])) || (exists i | 0 <= i < n :: Collision(hash, a[i], b[i])))
  {
    LinksCleanIff(hash, keys, a, ofA);
    LinksCleanIff(hash, keys, b, ofB);
    AcceptedAnchor(hash, keys, a, ofA, j);
    AcceptedAnchor(hash, keys, b, ofB, k);
    HeadPinsPrefix(hash, a, b, ofA[j].core.entryCount);
  }

  // ------------------------------------------------- what honest writers produce

  /** Nothing but UNSIGNED, and that only where signing failed. */
  function UnsignedCodes(log: seq<Entry>): (r: seq<seq<Code>>)
    ensures |r| == |log|
  {
    seq(|log|, i requires 0 <= i < |log| => if log[i].signature.None? then [Unsigned] else [])
  }

  lemma HonestReadable(hash: Digest, log: seq<Entry>, i: nat)
    requires PrintsDigests(hash) && Linked(hash, log) && i < |log|
    ensures Readable(log[i])
  {
    assert SoundAt(hash, log, i);
  }

  lemma HonestCodes(hash: Digest, key: string, log: seq<Entry>, anchors: seq<Anchor>, i: nat)
    requires Honest(hash, key, log, anchors) && i < |log|
    ensures CodesAt(hash, {key}, log, i) == if log[i].signature.None? then [Unsigned] else []
  {
    assert SoundAt(hash, log, i) && HonestlySigned(key, log[i]);
  }

  lemma HonestAnchors(hash: Digest, key: string, log: seq<Entry>, anchors: seq<Anchor>)
    requires Honest(hash, key, log, anchors)
    ensures forall j | 0 <= j < |anchors| :: CheckAnchor({key}, log, anchors[j]).Fine?
  {
    forall j | 0 <= j < |anchors| ensures CheckAnchor({key}, log, anchors[j]).Fine? {
      assert HonestAnchor(key, log, anchors[j]);
    }
  }

  lemma NoAnchorCodes(keys: set<string>, log: seq<Entry>, anchors: seq<Anchor>)
    requires forall j | 0 <= j < |anchors| :: CheckAnchor(keys, log, anchors[j]).Fine?
    ensures Spread(AnchorCodes(keys, log, anchors), |anchors|) == []
  {
    SpreadNothing(AnchorCodes(keys, log, anchors), |anchors|);
  }

  lemma HonestReport(hash: Digest, key: string, log: seq<Entry>, anchors: seq<Anchor>)
    requires PrintsDigests(hash) && Honest(hash, key, log, anchors)
    ensures VerifySpec(hash, {key}, log, anchors) == Report(Spread(UnsignedCodes(log), |log|), [])
  {
    forall i | 0 <= i < |log| ensures Readable(log[i]) {
      HonestReadable(hash, log, i);
    }
    AllReadableIff(log, |log|);
    forall i | 0 <= i < |log| ensures AllCodes(hash, {key}, log)[i] == UnsignedCodes(log)[i] {
      HonestCodes(hash, key, log, anchors, i);
    }
    assert AllCodes(hash, {key}, log) == UnsignedCodes(log);
    HonestAnchors(hash, key, log, anchors);
    NoAnchorCodes({key}, log, anchors);
  }

  /** What an honest log reports, and at entry `i`, if it is signed, BAD_SIGNATURE. */
  function ShiftedCodes(log: seq<Entry>, i: nat): (r: seq<seq<Code>>)
    requires i < |log|
    ensures |r| == |log|
  {
    UnsignedCodes(log)[i := if log[i].signature.None? then [Unsigned] else [BadSignature]]
  }

  lemma ShiftedKeepsHashes(log: seq<Entry>, i: nat, j: nat)
    requires i < |log| && j <= |log| && log[i].Complete() && log[i].incidentId.value != ""
    ensures var shifted := log[i := Shifted(log[i])];
      PreviousOf(shifted, j) == PreviousOf(log, j) && (j < |log| ==> shifted[j].entryHash == log[j].entryHash)
  {
  }

  lemma ShiftedCodesAt(hash: Digest, key: string, log: seq<Entry>, anchors: seq<Anchor>, i: nat, j: nat)
    requires Honest(hash, key, log, anchors) && i < |log| && j < |log|
    requires log[i].Complete() && log[i].incidentId.value != ""
    ensures CodesAt(hash, {key}, log[i := Shifted(log[i])], j) == ShiftedCodes(log, i)[j]
  {
    var shifted := log[i := Shifted(log[i])];
    ShiftedKeepsHashes(log, i, j);
    HonestCodes(hash, key, log, anchors, j);
    if j == i {
      FieldsCanShift(hash, log, i);
      assert SoundAt(hash, shifted, i) && HonestlySigned(key, log[i]);
      assert shifted[i].Core().timestamp != log[i].Core().timestamp;
    }
  }

  lemma ShiftedAnchors(hash: Digest, key: string, log: seq<Entry>, anchors: seq<Anchor>, i: nat)
    requires Honest(hash, key, log, anchors) && i < |log| && log[i].Complete() && log[i].incidentId.value != ""
    ensures forall j | 0 <= j < |anchors| :: CheckAnchor({key}, log[i := Shifted(log[i])], anchors[j]).Fine?
  {
    HonestAnchors(hash, key, log, anchors);
    forall j | 0 <= j < |anchors| ensures CheckAnchor({key}, log[i := Shifted(log[i])], anchors[j]).Fine? {
      assert CheckAnchor({key}, log, anchors[j]).Fine?;
    }
  }

  /** The boundary between timestamp and incident id of one entry of an honest log moved:
      links, hashes and anchors show nothing. What shows is the signature: besides the
      unsigned entries the report has BAD_SIGNATURE at that entry exactly if it is signed. */
  lemma ShiftShowsIff(hash: Digest, key: string, log: seq<Entry>, anchors: seq<Anchor>, i: nat)
    requires PrintsDigests(hash) && Honest(hash, key, log, anchors)
    requires i < |log| && log[i].Complete() && log[i].incidentId.value != ""
    ensures var r := VerifySpec(hash, {key}, log[i := Shifted(log[i])], anchors);
      && r.Report? && r.anchors == []
      && forall j: nat, code :: Finding(j, code) in r.entries <==>
           || (code == Unsigned && j < |log| && log[j].signature.None?)
           || (code == BadSignature && j == i && log[i].signature.Some?)
  {
    var shifted := log[i := Shifted(log[i])];
    FieldsCanShift(hash, log, i);
    forall j | 0 <= j < |shifted| ensures Readable(shifted[j]) {
      HonestReadable(hash, shifted, j);
    }
    AllReadableIff(shifted, |shifted|);
    forall j | 0 <= j < |log| ensures AllCodes(hash, {key}, shifted)[j] == ShiftedCodes(log, i)[j] {
      ShiftedCodesAt(hash, key, log, anchors, i, j);
    }
    assert AllCodes(hash, {key}, shifted) == ShiftedCodes(log, i);
    ShiftedAnchors(hash, key, log, anchors, i);
    NoAnchorCodes({key}, shifted, anchors);
    forall j: nat, code: Code
      ensures Finding(j, code) in Spread(ShiftedCodes(log, i), |log|) <==>
        j < |log| && code in ShiftedCodes(log, i)[j]
    {
      SpreadHas(ShiftedCodes(log, i), |log|, j, code);
    }
  }

  lemma UnsignedWhere(log: seq<Entry>, i: nat, code: Code)
    ensures Finding(i, code) in Spread(UnsignedCodes(log), |log|)
            <==> code == Unsigned && i < |log| && log[i].signature.None?
  {
    SpreadHas(UnsignedCodes(log), |log|, i, code);
  }

  lemma UnsignedNowhere(log: seq<Entry>)
    requires forall i | 0 <= i < |log| :: log[i].signature.Some?
    ensures Spread(UnsignedCodes(log), |log|) == []
  {
    SpreadNothing(UnsignedCodes(log), |log|);
  }

  /** After any interleaving of writers and anchor takers, the verifier with the node's
      key reports the entries that could not be signed and nothing else; with every
      signing successful it reports no problem. */
  lemma WritersPassVerification(hash: Digest, key: string, acts: seq<Action>)
    requires PrintsDigests(hash)
    ensures var s := RunActions(hash, key, acts); var r := VerifySpec(hash, {key}, s.log, s.anchors);
      && r.Report? && r.anchors == []
      && (forall i: nat, code :: Finding(i, code) in r.entries <==>
            code == Unsigned && i < |s.log| && s.log[i].signature.None?)
      && ((forall i | 0 <= i < |s.log| :: s.log[i].signature.Some?) ==> r == Report([], []))
  {
    WritersNeverFork(hash, key, acts);
    var s := RunActions(hash, key, acts);
    HonestReport(hash, key, s.log, s.anchors);
    forall i: nat, code: Code
      ensures Finding(i, code) in Spread(UnsignedCodes(s.log), |s.log|)
              <==> code == Unsigned && i < |s.log| && s.log[i].signature.None?
    {
      UnsignedWhere(s.log, i, code);
    }
    if forall i | 0 <= i < |s.log| :: s.log[i].signature.Some? {
      UnsignedNowhere(s.log);
    }
  }
}
