/** `tamper_tests.py`: the link-by-link check and what its tests can detect. */
module TamperTests {
  import opened Prelude
  import opened Custody
  import opened Findings
  import F = ForensicValidation
  import V = CustodyVerify

  /** Entry `i` does not point to the entry before it. The first entry is never checked,
      and neither is an entry whose predecessor has no hash. */
  predicate BreakAt(log: seq<Entry>, i: nat)
    requires i < |log|
  {
    i > 0 && log[i - 1].entryHash.Some? && log[i].previousHash != log[i - 1].entryHash
  }

  /** `brokenAt` is the first break, if there is one. */
  ghost predicate FirstBreak(log: seq<Entry>, brokenAt: Option<nat>)
  {
    match brokenAt
    case None => forall i | 0 <= i < |log| :: !BreakAt(log, i)
    case Some(k) => k < |log| && BreakAt(log, k) && forall i | 0 <= i < k :: !BreakAt(log, i)
  }

  lemma FirstBreakUnique(log: seq<Entry>, a: Option<nat>, b: Option<nat>)
    requires FirstBreak(log, a) && FirstBreak(log, b)
    ensures a == b
  {
  }

  method VerifyChain(log: seq<Entry>) returns (intact: bool, brokenAt: Option<nat>)
    ensures FirstBreak(log, brokenAt) && (intact <==> brokenAt.None?)
  {
    var prev: Option<string> := None;
    for i := 0 to |log|
      invariant prev == if i == 0 then None else log[i - 1].entryHash
      invariant forall k | 0 <= k < i :: !BreakAt(log, k)
    {
      if prev.Some? && log[i].previousHash != prev {
        return false, Some(i);
      }
      prev := log[i].entryHash;
    }
    return true, None;
  }

  /** The entry hash at `k` replaced: it is the first field `preserve_bundle` writes, the
      one the tests overwrite. */
  function Tampered(log: seq<Entry>, k: nat, x: string): (t: seq<Entry>)
    requires k < |log|
  {
    log[k := log[k].(entryHash := Some(x))]
  }

  const TAMPERED: string := "TAMPERED"

  datatype TestResult = Skipped | Detected(at: nat) | Undetected

  method TestModifyChainEntry(log: seq<Entry>) returns (r: TestResult)
    ensures r.Skipped? <==> |log| < 2
    ensures |log| >= 2 ==> FirstBreak(Tampered(log, |log| / 2, TAMPERED), if r.Detected? then Some(r.at) else None)
  {
    if |log| < 2 {
      return Skipped;
    }
    var intact, brokenAt := VerifyChain(Tampered(log, |log| / 2, TAMPERED));
    r := if brokenAt.Some? then Detected(brokenAt.value) else Undetected;
  }

  /** `TooFew`: the note returned for fewer than three entries. */
  datatype MultiResult = TooFew | Verdicts(before: seq<bool>, after: Option<nat>)

  /** `experiment_5`: every prefix before tampering, then the whole tampered log. */
  method MultiIncident(log: seq<Entry>) returns (r: MultiResult)
    ensures r.TooFew? <==> |log| < 3
    ensures r.Verdicts? ==>
      && |r.before| == |log| && (forall n | 1 <= n <= |log| :: r.before[n - 1] <==> FirstBreak(log[..n], None))
      && FirstBreak(Tampered(log, |log| / 2, TAMPERED), r.after)
  {
    if |log| < 3 {
      return TooFew;
    }
    var before: seq<bool> := [];
    for i := 0 to |log|
      invariant |before| == i && forall n | 1 <= n <= i :: before[n - 1] <==> FirstBreak(log[..n], None)
    {
      var intact, at := VerifyChain(log[..i + 1]);
      if at.Some? {
        assert BreakAt(log[..i + 1], at.value);
      }
      before := before + [intact];
    }
    var intact, at := VerifyChain(Tampered(log, |log| / 2, TAMPERED));
    return Verdicts(before, at);
  }

  // --------------------------------------------------- what tampering shows

  /** A log the full check finds no link problem in is intact for the tamper tests. */
  lemma CleanLogIsIntact(hash: Digest, log: seq<Entry>)
    requires Linked(hash, log)
    ensures FirstBreak(log, None)
  {
    forall i | 0 < i < |log| ensures !BreakAt(log, i) {
      assert SoundAt(hash, log, i) && SoundAt(hash, log, i - 1);
    }
  }

  lemma CleanReportMeansIntact(hash: Digest, files: F.Files, log: seq<Entry>)
    requires F.Problems(hash, files, log) == []
    ensures FirstBreak(log, None)
  {
    forall i | 0 <= i < |log| ensures F.LinkSound(hash, log, i) {
      F.CodesMean(hash, files, log, i);
      if !F.LinkSound(hash, log, i) {
        var code :| code in F.CodesAt(hash, files, log, i);
        F.ReportedWhere(hash, files, log, i, code);
      }
    }
    F.LinkSoundIsLinked(hash, log, |log|);
    assert log[..|log|] == log;
    CleanLogIsIntact(hash, log);
  }

  /** Overwriting one entry hash of a sound chain: the full check reports a hash mismatch
      at that entry and a broken link at the next one, if there is a next one, and no
      other link problem anywhere. */
  lemma TamperingShowsAt(hash: Digest, files: F.Files, log: seq<Entry>, k: nat, x: string, i: nat)
    requires Linked(hash, log) && k < |log| && log[k].entryHash != Some(x)
    ensures var problems := F.Problems(hash, files, Tampered(log, k, x));
      && (Finding(i, F.EntryHashMismatch) in problems <==> i == k)
      && (Finding(i, F.PreviousHashBroken) in problems <==> i == k + 1 < |log|)
      && Finding(i, F.EntryFieldMissing) !in problems
  {
    var t := Tampered(log, k, x);
    F.ReportedWhere(hash, files, t, i, F.EntryHashMismatch);
    F.ReportedWhere(hash, files, t, i, F.PreviousHashBroken);
    F.ReportedWhere(hash, files, t, i, F.EntryFieldMissing);
    if i < |log| {
      TamperedCodes(hash, files, log, k, x, i);
    }
  }

  lemma TamperedCodes(hash: Digest, files: F.Files, log: seq<Entry>, k: nat, x: string, i: nat)
    requires Linked(hash, log) && k < |log| && log[k].entryHash != Some(x) && i < |log|
    ensures var codes := F.CodesAt(hash, files, Tampered(log, k, x), i);
      && (F.EntryHashMismatch in codes <==> i == k) && (F.PreviousHashBroken in codes <==> i == k + 1)
      && F.EntryFieldMissing !in codes
  {
    var t := Tampered(log, k, x);
    forall j | 0 <= j < |log| ensures t[j].Complete() {
      assert SoundAt(hash, log, j);
    }
    F.CompletePrev(t, i);
    F.LinkCodesOfComplete(hash, files, t, i);
    assert SoundAt(hash, log, i);
    if i > 0 {
      assert SoundAt(hash, log, i - 1);
    }
  }

  /** The link-by-link check sees the overwritten hash only through the next entry: it
      breaks at k+1, and not at all when the last entry is the one overwritten. */
  lemma TamperingBreaksNext(hash: Digest, log: seq<Entry>, k: nat, x: string)
    requires Linked(hash, log) && k < |log| && log[k].entryHash != Some(x)
    ensures FirstBreak(Tampered(log, k, x), if k + 1 < |log| then Some(k + 1) else None)
  {
    var t := Tampered(log, k, x);
    forall i | 0 <= i < |log| ensures BreakAt(t, i) <==> i == k + 1 {
      assert SoundAt(hash, log, i);
      if i > 0 {
        assert SoundAt(hash, log, i - 1);
      }
    }
  }

  /** The tamper test of a sound log detects its tampering exactly when the log has three
      entries or more: with two, it overwrites the last one and finds the log intact. */
  lemma ModifyTestDetectsIff(hash: Digest, log: seq<Entry>, brokenAt: Option<nat>)
    requires PrintsDigests(hash) && Linked(hash, log) && |log| >= 2
    requires FirstBreak(Tampered(log, |log| / 2, TAMPERED), brokenAt)
    ensures brokenAt.Some? <==> |log| >= 3
    ensures brokenAt.Some? ==> brokenAt.value == |log| / 2 + 1
  {
    var k := |log| / 2;
    assert SoundAt(hash, log, k);
    assert log[k].entryHash != Some(TAMPERED);
    TamperingBreaksNext(hash, log, k, TAMPERED);
    FirstBreakUnique(Tampered(log, k, TAMPERED), brokenAt, if k + 1 < |log| then Some(k + 1) else None);
  }

  /** The multi-incident experiment on a sound log: every prefix is intact before; after,
      the chain first breaks one entry past the tampered one, so the prefix ending with
      the tampered incident itself still passes. */
  lemma MultiIncidentShows(hash: Digest, log: seq<Entry>)
    requires PrintsDigests(hash) && Linked(hash, log) && |log| >= 3
    ensures var victim := |log| / 2; var t := Tampered(log, victim, TAMPERED);
      && (forall n | 1 <= n <= |log| :: FirstBreak(log[..n], None))
      && FirstBreak(t, Some(victim + 1)) && FirstBreak(t[..victim + 1], None)
  {
    var victim := |log| / 2;
    forall n | 1 <= n <= |log| ensures FirstBreak(log[..n], None) {
      LinkedPrefix(hash, log, n);
      CleanLogIsIntact(hash, log[..n]);
    }
    assert SoundAt(hash, log, victim);
    TamperingBreaksNext(hash, log, victim, TAMPERED);
    var t := Tampered(log, victim, TAMPERED);
    assert FirstBreak(t, Some(victim + 1));
    var cut := t[..victim + 1];
    forall i | 0 <= i < |cut| ensures !BreakAt(cut, i) {
      assert !BreakAt(t, i);
    }
  }

  /** The independent verifier never gets to report the tamper test's own edit: the
      marker is not hexadecimal, so the run ends with an exception. */
  lemma VerifierRaisesOnMarker(hash: Digest, keys: set<string>, log: seq<Entry>, anchors: seq<Anchor>, k: nat)
    requires k < |log|
    ensures V.VerifySpec(hash, keys, Tampered(log, k, TAMPERED), anchors) == V.Raised
  {
    assert !HexDigit(TAMPERED[0]);
    V.OneUnreadable(Tampered(log, k, TAMPERED), k);
  }
}
