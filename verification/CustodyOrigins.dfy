/** Where custody entries come from: over every interleaving of writers, each entry records
    the evidence one writer hashed, and the verdict on an incident is about that evidence. */
module CustodyOrigins {
  import opened Prelude
  import opened Custody
  import opened Findings
  import F = ForensicValidation

  /** Writer `w` was busy from step `from` to step `to`. */
  ghost predicate Busy(hash: Digest, key: string, acts: seq<Action>, w: nat, from: nat, to: nat)
  {
    to <= |acts| && forall k | from < k <= to :: w in RunActions(hash, key, acts[..k]).writers
  }

  /** At step `h` the idle writer `w` hashed a bundle, and it has been busy with it up to
      step `a`. */
  ghost predicate Brought(hash: Digest, key: string, acts: seq<Action>, h: nat, a: nat, w: nat, m: Meta,
                          bundleHash: string)
  {
    && h < a <= |acts| && acts[h] == HashBundle(w, m, bundleHash)
    && w !in RunActions(hash, key, acts[..h]).writers && Busy(hash, key, acts, w, h, a)
  }

  lemma PrefixOfInit(acts: seq<Action>, k: nat)
    requires acts != [] && k <= |acts| - 1
    ensures acts[..|acts| - 1][..k] == acts[..k]
  {
  }

  lemma BroughtStays(hash: Digest, key: string, acts: seq<Action>, h: nat, a: nat, w: nat, m: Meta, b: string)
    requires acts != [] && Brought(hash, key, acts[..|acts| - 1], h, a, w, m, b)
    ensures Brought(hash, key, acts, h, a, w, m, b)
  {
    var init := acts[..|acts| - 1];
    PrefixOfInit(acts, h);
    forall k | h < k <= a ensures w in RunActions(hash, key, acts[..k]).writers {
      PrefixOfInit(acts, k);
    }
  }

  /** What a writer that has not yet appended is busy with. */
  ghost predicate BusyWith(s: World, w: nat, m: Meta, bundleHash: string)
  {
    w in s.writers && !s.writers[w].Appended? && s.writers[w].m == m && s.writers[w].bundleHash == bundleHash
  }

  lemma StaysBusyWith(hash: Digest, key: string, s: World, act: Action, w: nat, m: Meta, b: string)
    requires BusyWith(Next(hash, key, s, act), w, m, b)
    ensures BusyWith(s, w, m, b) || (w !in s.writers && act == HashBundle(w, m, b))
  {
  }

  /** A writer holds exactly what it hashed when it came in. */
  lemma {:induction false} WriterBrought(hash: Digest, key: string, acts: seq<Action>, w: nat, m: Meta, b: string)
    returns (h: nat)
    requires BusyWith(RunActions(hash, key, acts), w, m, b)
    ensures Brought(hash, key, acts, h, |acts|, w, m, b)
    decreases |acts|
  {
    var n := |acts| - 1;
    var init := acts[..n];
    assert acts[..|acts|] == acts;
    StaysBusyWith(hash, key, RunActions(hash, key, init), acts[n], w, m, b);
    if BusyWith(RunActions(hash, key, init), w, m, b) {
      h := WriterBrought(hash, key, init, w, m, b);
      BroughtStays(hash, key, acts, h, n, w, m, b);
    } else {
      h := n;
    }
  }

  /** Entry `i` was appended at step `a` by the writer that brought its evidence at step
      `h`: its fields are what that writer hashed and the time of the append. */
  ghost predicate EntryFrom(hash: Digest, key: string, acts: seq<Action>, i: nat, h: nat, a: nat)
  {
    && h < a < |acts| && i < |RunActions(hash, key, acts).log| && acts[h].HashBundle? && acts[a].Append?
    && Brought(hash, key, acts, h, a, acts[a].w, acts[h].m, acts[h].bundleHash)
    && |RunActions(hash, key, acts[..a]).log| == i
    && Records(RunActions(hash, key, acts).log[i], acts[h].bundleHash, acts[a].timestamp, acts[h].m)
    && SignedAs(RunActions(hash, key, acts).log[i], key, acts[a].signing)
  }

  lemma EntryFromStays(hash: Digest, key: string, acts: seq<Action>, i: nat, h: nat, a: nat)
    requires acts != [] && EntryFrom(hash, key, acts[..|acts| - 1], i, h, a)
    requires RunActions(hash, key, acts[..|acts| - 1]).log <= RunActions(hash, key, acts).log
    ensures EntryFrom(hash, key, acts, i, h, a)
  {
    var init := acts[..|acts| - 1];
    BroughtStays(hash, key, acts, h, a, init[a].w, init[h].m, init[h].bundleHash);
    PrefixOfInit(acts, a);
  }

  /** Only an append of a ready writer makes the log longer, by one entry of its own. */
  lemma OnlyAppends(hash: Digest, key: string, s: World, act: Action)
    ensures var r := Next(hash, key, s, act);
      r.log == s.log
      || (act.Append? && act.w in s.writers && s.writers[act.w].Ready? && |r.log| == |s.log| + 1 && s.log <= r.log
          && Records(r.log[|s.log|], s.writers[act.w].bundleHash, act.timestamp, s.writers[act.w].m)
          && SignedAs(r.log[|s.log|], key, act.signing))
  {
    if act.Append? && act.w in s.writers && s.writers[act.w].Ready? {
      var at := s.writers[act.w];
      MadeEntryRecords(hash, key, at.previous, at.bundleHash, act.timestamp, at.m, act.signing);
    }
  }

  lemma AppendedFrom(hash: Digest, key: string, acts: seq<Action>) returns (h: nat)
    requires acts != []
    requires |RunActions(hash, key, acts).log| > |RunActions(hash, key, acts[..|acts| - 1]).log|
    ensures EntryFrom(hash, key, acts, |RunActions(hash, key, acts[..|acts| - 1]).log|, h, |acts| - 1)
  {
    var n := |acts| - 1;
    var s, act := RunActions(hash, key, acts[..n]), acts[n];
    OnlyAppends(hash, key, s, act);
    var at := s.writers[act.w];
    h := WriterBrought(hash, key, acts[..n], act.w, at.m, at.bundleHash);
    BroughtStays(hash, key, acts, h, n, act.w, at.m, at.bundleHash);
  }

  /** Over every interleaving each entry of the log has such an origin: no entry mixes the
      evidence of two writers, and none is without. */
  lemma {:induction false} EveryEntryHasOrigin(hash: Digest, key: string, acts: seq<Action>, i: nat)
    returns (h: nat, a: nat)
    requires i < |RunActions(hash, key, acts).log|
    ensures EntryFrom(hash, key, acts, i, h, a)
    decreases |acts|
  {
    var n := |acts| - 1;
    OnlyAppends(hash, key, RunActions(hash, key, acts[..n]), acts[n]);
    if i < |RunActions(hash, key, acts[..n]).log| {
      h, a := EveryEntryHasOrigin(hash, key, acts[..n], i);
      EntryFromStays(hash, key, acts, i, h, a);
    } else {
      h := AppendedFrom(hash, key, acts);
      a := n;
    }
  }

  /** An append of a writer that has read the head is never lost. */
  lemma ReadyAppends(hash: Digest, key: string, s: World, w: nat, timestamp: string, signing: Signing)
    requires w in s.writers && s.writers[w].Ready?
    ensures |Next(hash, key, s, Append(w, timestamp, signing)).log| == |s.log| + 1
  {
  }

  /** The five steps of one writer, in order. */
  function Turn(w: nat, m: Meta, bundleHash: string, timestamp: string, signing: Signing): (acts: seq<Action>)
  {
    [HashBundle(w, m, bundleHash), TakeLock(w), ReadPrevious(w), Append(w, timestamp, signing), Unlock(w)]
  }

  function RunFrom(hash: Digest, key: string, s: World, acts: seq<Action>): (r: World)
  {
    if acts == [] then s else Next(hash, key, RunFrom(hash, key, s, acts[..|acts| - 1]), acts[|acts| - 1])
  }

  lemma FiveSteps(hash: Digest, key: string, s: World, a: Action, b: Action, c: Action, d: Action, e: Action)
    ensures RunFrom(hash, key, s, [a, b, c, d, e])
         == Next(hash, key, Next(hash, key, Next(hash, key, Next(hash, key, Next(hash, key, s, a), b), c), d), e)
  {
    assert [a, b, c, d, e][..4] == [a, b, c, d] && [a, b, c, d][..3] == [a, b, c];
    assert [a, b, c][..2] == [a, b] && [a, b][..1] == [a] && [a][..0] == [];
    assert RunFrom(hash, key, s, [a]) == Next(hash, key, s, a);
    assert RunFrom(hash, key, s, [a, b]) == Next(hash, key, Next(hash, key, s, a), b);
    assert RunFrom(hash, key, s, [a, b, c]) == Next(hash, key, Next(hash, key, Next(hash, key, s, a), b), c);
  }

  /** A writer that finds the lock free and runs undisturbed adds exactly one entry, with
      its own evidence, linked to the head it found, and leaves all else as it was. */
  lemma WholeTurn(hash: Digest, key: string, s: World, w: nat, m: Meta, b: string, at: string, signing: Signing)
    returns (e: Entry)
    requires w !in s.writers && s.lock.None?
    ensures RunFrom(hash, key, s, Turn(w, m, b, at, signing)) == s.(log := s.log + [e])
    ensures Records(e, b, at, m) && SignedAs(e, key, signing) && e.previousHash == Some(HeadHash(s.log))
    ensures e.Complete() && e.entryHash == Some(hash(e.Text()))
  {
    e := MakeEntry(hash, key, HeadHash(s.log), b, at, m, signing);
    MadeEntryRecords(hash, key, HeadHash(s.log), b, at, m, signing);
    FiveSteps(hash, key, s, HashBundle(w, m, b), TakeLock(w), ReadPrevious(w), Append(w, at, signing), Unlock(w));
    var s1 := Next(hash, key, s, HashBundle(w, m, b));
    var s2 := Next(hash, key, s1, TakeLock(w));
    var s3 := Next(hash, key, s2, ReadPrevious(w));
    var s4 := Next(hash, key, s3, Append(w, at, signing));
    var s5 := Next(hash, key, s4, Unlock(w));
    assert s4.log == s.log + [e];
    assert s5.writers == s.writers;
  }

  /** An anchor taker that runs undisturbed adds one anchor of the head if it can sign, and
      nothing otherwise. */
  lemma AnchorTurn(hash: Digest, key: string, s: World, a: nat, at: string, reason: string, signs: bool)
    requires a !in s.snapshots && s.log != []
    ensures var r := Next(hash, key, Next(hash, key, s, Snap(a)), WriteAnchor(a, at, reason, signs));
      if signs then
        && |r.anchors| == |s.anchors| + 1 && AnchorsHead(r.anchors[|s.anchors|], key, s.log, at, reason)
        && r == s.(anchors := s.anchors + [r.anchors[|s.anchors|]])
      else r == s
  {
    var r := Next(hash, key, Next(hash, key, s, Snap(a)), WriteAnchor(a, at, reason, signs));
    assert r.snapshots == s.snapshots;
  }

  // ------------------------------------------------ the verdict on the evidence

  lemma FirstIsFound(log: seq<Entry>, id: string, k: nat)
    requires F.FirstAt(log, id, k)
    ensures F.FirstWith(log, id, 0) == Some(k)
  {
  }

  lemma HonestVerdict(hash: Digest, files: F.Files, log: seq<Entry>, id: string, k: nat, b: string, at: string, m: Meta)
    requires Linked(hash, log) && F.FirstAt(log, id, k) && Records(log[k], b, at, m)
    ensures var r := F.VerifyIncident(hash, files, F.Lines(log), id);
      && r.index == Some(k) && r.earlier == {}
      && (r.verdict == F.Valid <==> files(m.bundleDir) == F.Contents(b))
      && r.codes == match files(m.bundleDir)
                    case Absent => {F.BundleMissing}
                    case Unhashable => {F.BundleUnreadable}
                    case Contents(found) => if found == b then {} else {F.BundleHashMismatch}
  {
    var r := F.VerifyIncident(hash, files, F.Lines(log), id);
    FirstIsFound(log, id, k);
    F.OwnAndEarlier(hash, files, log, id);
    F.NoEarlierIff(hash, files, log, id);
    F.ValidIff(hash, files, log, id);
    LinkedPrefix(hash, log, k + 1);
    F.LinkSoundIsLinked(hash, log, k + 1);
    forall code: F.Code ensures code in r.codes <==> F.BundleFault(files, log[k], code) {
      F.CodesMean(hash, files, log, k);
      if !F.LinkCode(code) {
        F.BundleCodeMeans(hash, files, log, k, code);
      }
    }
  }

  /** After any interleaving of writers and anchor takers: an incident with an entry is valid
      exactly when the directory its writer hashed still hashes to the value the writer
      computed; otherwise its one code says what became of the directory, and no earlier
      entry is to blame. */
  lemma EvidenceVerdict(hash: Digest, key: string, acts: seq<Action>, files: F.Files, id: string, k: nat)
    returns (h: nat, a: nat)
    requires F.FirstAt(RunActions(hash, key, acts).log, id, k)
    ensures EntryFrom(hash, key, acts, k, h, a) && acts[h].m.incidentId == id
    ensures var r := F.VerifyIncident(hash, files, F.Lines(RunActions(hash, key, acts).log), id);
      && r.index == Some(k) && r.earlier == {}
      && (r.verdict == F.Valid <==> files(acts[h].m.bundleDir) == F.Contents(acts[h].bundleHash))
      && r.codes == match files(acts[h].m.bundleDir)
                    case Absent => {F.BundleMissing}
                    case Unhashable => {F.BundleUnreadable}
                    case Contents(found) => if found == acts[h].bundleHash then {} else {F.BundleHashMismatch}
  {
    h, a := EveryEntryHasOrigin(hash, key, acts, k);
    WritersNeverFork(hash, key, acts);
    var log := RunActions(hash, key, acts).log;
    HonestVerdict(hash, files, log, id, k, acts[h].bundleHash, acts[a].timestamp, acts[h].m);
  }

  /** With every signing successful, every entry is signed by the node's key. */
  lemma AllSigned(hash: Digest, key: string, acts: seq<Action>, i: nat)
    requires forall a | 0 <= a < |acts| && acts[a].Append? :: acts[a].signing.Signs?
    requires i < |RunActions(hash, key, acts).log|
    ensures var e := RunActions(hash, key, acts).log[i];
      e.keyId == Some(key) && e.signature == Some(Signature(key, e.Core()))
  {
    var h, a := EveryEntryHasOrigin(hash, key, acts, i);
  }
}
