/** The custody log of `chain_of_custody.py`: entries, anchors, and the writers and
    anchor takers that append to them concurrently. SHA-256 is a parameter `hash`;
    signatures are ideal: only signing makes one, and it carries what was signed. */
module Custody {
  import opened Prelude

  type Digest = string -> string

  const GENESIS: string := "0000000000000000000000000000000000000000000000000000000000000000"

  predicate HexDigit(c: char)
  {
    '0' <= c <= '9' || 'a' <= c <= 'f' || 'A' <= c <= 'F'
  }

  predicate AllHex(s: string)
  {
    s == "" || (HexDigit(s[0]) && AllHex(s[1..]))
  }

  /** What `bytes.fromhex` accepts, blanks between byte pairs aside. */
  predicate IsHex(s: string)
  {
    |s| % 2 == 0 && AllHex(s)
  }

  /** All that is assumed of the hash: it prints 64 hexadecimal digits. */
  ghost predicate PrintsDigests(hash: Digest)
  {
    forall text :: |hash(text)| == 64 && IsHex(hash(text))
  }

  /** The fields of an incident's metadata that reach the log. */
  datatype Meta = Meta(incidentId: string, attackType: string, confidence: real, modelUsed: string, bundleDir: string)

  /** The record a signature covers: the ten signed fields, each as `entry.get` finds it. */
  datatype SignedCore = SignedCore(entryHash: Option<string>, previousHash: Option<string>, bundleHash: Option<string>,
                                   timestamp: Option<string>, incidentId: Option<string>, attackType: Option<string>,
                                   confidence: Option<real>, modelUsed: Option<string>, bundleDir: Option<string>,
                                   keyId: Option<string>)

  datatype Signature = Signature(key: string, core: SignedCore)

  /** One line of the log as a checker reads it: any field may be missing. */
  datatype Entry = Entry(entryHash: Option<string>, previousHash: Option<string>, bundleHash: Option<string>,
                         timestamp: Option<string>, incidentId: Option<string>, attackType: Option<string>,
                         confidence: Option<real>, modelUsed: Option<string>, bundleDir: Option<string>,
                         keyId: Option<string>, signature: Option<Signature>)
  {
    function Core(): (c: SignedCore)
    {
      SignedCore(entryHash, previousHash, bundleHash, timestamp, incidentId, attackType, confidence, modelUsed,
                 bundleDir, keyId)
    }

    /** The four hashed fields are there. */
    predicate Hashable()
    {
      previousHash.Some? && bundleHash.Some? && timestamp.Some? && incidentId.Some?
    }

    /** The hashed fields and the hash itself are there. */
    predicate Complete() { entryHash.Some? && Hashable() }

    /** The text the entry hash is taken of: four fields without separators. */
    function Text(): (t: string)
      requires Hashable()
    {
      previousHash.value + bundleHash.value + timestamp.value + incidentId.value
    }
  }

  /** An anchor record and the fields its signature covers. */
  datatype AnchorCore = AnchorCore(anchoredAt: string, entryCount: int, headHash: string, keyId: string, reason: string)

  datatype Anchor = Anchor(core: AnchorCore, signature: Option<(string, AnchorCore)>)

  // ------------------------------------------------------------------- chains

  /** The hash entry `i` must point to. */
  function PreviousOf(log: seq<Entry>, i: nat): (h: string)
    requires i <= |log|
  {
    if i == 0 then GENESIS
    else if log[i - 1].entryHash.Some? then log[i - 1].entryHash.value else GENESIS
  }

  function HeadHash(log: seq<Entry>): (h: string)
  {
    PreviousOf(log, |log|)
  }

  /** Entry `i` points to the one before and its hash is the hash of its text. */
  predicate SoundAt(hash: Digest, log: seq<Entry>, i: nat)
    requires i < |log|
  {
    var e := log[i];
    e.Complete() && e.previousHash.value == PreviousOf(log, i) && e.entryHash.value == hash(e.Text())
  }

  /** A linked chain from genesis in which every entry hash is the hash of its text. */
  ghost predicate Linked(hash: Digest, log: seq<Entry>)
  {
    forall i | 0 <= i < |log| :: SoundAt(hash, log, i)
  }

  lemma LinkedPrefix(hash: Digest, log: seq<Entry>, n: nat)
    requires Linked(hash, log) && n <= |log|
    ensures Linked(hash, log[..n])
  {
    assert forall i | 0 <= i < n :: SoundAt(hash, log, i) == SoundAt(hash, log[..n], i);
  }

  lemma LinkedAppend(hash: Digest, log: seq<Entry>, e: Entry)
    requires Linked(hash, log) && e.Complete()
    requires e.previousHash.value == HeadHash(log) && e.entryHash.value == hash(e.Text())
    ensures Linked(hash, log + [e])
  {
    assert forall i | 0 <= i < |log| :: SoundAt(hash, log, i) == SoundAt(hash, log + [e], i);
  }

  lemma LinkIsWide(hash: Digest, log: seq<Entry>, i: nat)
    requires PrintsDigests(hash) && Linked(hash, log) && i < |log|
    ensures log[i].Complete() && |log[i].previousHash.value| == 64
  {
    assert SoundAt(hash, log, i);
    if i > 0 {
      assert SoundAt(hash, log, i - 1);
    }
  }

  /** Two different texts with one hash. */
  ghost predicate Collision(hash: Digest, a: Entry, b: Entry)
  {
    a.Complete() && b.Complete() && a.Text() != b.Text() && hash(a.Text()) == hash(b.Text())
  }

  /** Same hash, same link and same hashed text. */
  ghost predicate SameHashed(a: Entry, b: Entry)
  {
    && a.Complete() && b.Complete()
    && a.entryHash == b.entryHash && a.previousHash == b.previousHash && a.Text() == b.Text()
  }

  lemma SameTextSameLink(hash: Digest, a: seq<Entry>, b: seq<Entry>, i: nat)
    requires PrintsDigests(hash) && Linked(hash, a) && Linked(hash, b) && i < |a| && i < |b|
    requires a[i].Complete() && b[i].Complete() && a[i].entryHash == b[i].entryHash && a[i].Text() == b[i].Text()
    ensures SameHashed(a[i], b[i])
    ensures i > 0 ==> a[i - 1].entryHash == b[i - 1].entryHash
  {
    LinkIsWide(hash, a, i);
    LinkIsWide(hash, b, i);
    SplitText(a[i]);
    SplitText(b[i]);
    assert a[i].previousHash.value == a[i].Text()[..64] == b[i].previousHash.value;
    assert SoundAt(hash, a, i) && SoundAt(hash, b, i);
    if i > 0 {
      assert SoundAt(hash, a, i - 1) && SoundAt(hash, b, i - 1);
    }
  }

  /** A head pins the whole prefix: two linked chains that agree on the entry hash at
      index n-1 agree at every index below n, unless two of their texts collide. */
  lemma {:induction false} HeadPinsPrefix(hash: Digest, a: seq<Entry>, b: seq<Entry>, n: nat)
    requires PrintsDigests(hash) && Linked(hash, a) && Linked(hash, b)
    requires 0 < n <= |a| && n <= |b| && a[n - 1].entryHash == b[n - 1].entryHash
    ensures (forall i | 0 <= i < n :: SameHashed(a[i], b[i]))
         || (exists i | 0 <= i < n :: Collision(hash, a[i], b[i]))
    decreases n
  {
    assert SoundAt(hash, a, n - 1) && SoundAt(hash, b, n - 1);
    if a[n - 1].Text() != b[n - 1].Text() {
      assert Collision(hash, a[n - 1], b[n - 1]);
    } else {
      SameTextSameLink(hash, a, b, n - 1);
      if n > 1 {
        HeadPinsPrefix(hash, a, b, n - 1);
      }
    }
  }

  lemma SplitText(e: Entry)
    requires e.Complete()
    ensures var p := |e.previousHash.value|; var q := p + |e.bundleHash.value|;
      && q + |e.timestamp.value| + |e.incidentId.value| == |e.Text()|
      && e.Text()[..p] == e.previousHash.value && e.Text()[p..q] == e.bundleHash.value
      && e.Text()[q..] == e.timestamp.value + e.incidentId.value
  {
    var rest := e.timestamp.value + e.incidentId.value;
    assert e.Text() == e.previousHash.value + e.bundleHash.value + rest;
  }

  /** How far the pinned text fixes the fields behind it: bundle hashes of one width are
      equal, and the timestamp and incident id are fixed exactly when the timestamps
      have one width. */
  lemma TextPinsFields(a: Entry, b: Entry)
    requires SameHashed(a, b) && |a.bundleHash.value| == |b.bundleHash.value|
    ensures a.bundleHash == b.bundleHash
    ensures a.timestamp == b.timestamp && a.incidentId == b.incidentId
       <==> |a.timestamp.value| == |b.timestamp.value|
  {
    SplitText(a);
    SplitText(b);
    var x, y := a.timestamp.value + a.incidentId.value, b.timestamp.value + b.incidentId.value;
    assert x == y;
    if |a.timestamp.value| == |b.timestamp.value| {
      var t := |a.timestamp.value|;
      assert a.timestamp.value == x[..t] == y[..t] == b.timestamp.value;
      assert a.incidentId.value == x[t..] == y[t..] == b.incidentId.value;
    }
  }

  /** The entry with the first character of its incident id moved into its timestamp. */
  function Shifted(e: Entry): (r: Entry)
    requires e.Complete() && e.incidentId.value != ""
  {
    e.(timestamp := Some(e.timestamp.value + e.incidentId.value[..1]), incidentId := Some(e.incidentId.value[1..]))
  }

  /** Without separators the text does not say where the timestamp ends: in any sound
      chain, any entry with a non-empty incident id can be replaced by one with another
      timestamp and another incident id, under the same hash and text, and the chain
      stays sound. */
  lemma FieldsCanShift(hash: Digest, log: seq<Entry>, i: nat)
    requires Linked(hash, log) && i < |log| && log[i].Complete() && log[i].incidentId.value != ""
    ensures var e := Shifted(log[i]);
      && SameHashed(log[i], e) && e.timestamp != log[i].timestamp && e.incidentId != log[i].incidentId
      && Linked(hash, log[i := e])
  {
    var was, e := log[i], Shifted(log[i]);
    var t, id := was.timestamp.value, was.incidentId.value;
    var head := was.previousHash.value + was.bundleHash.value;
    assert t + id == t + id[..1] + id[1..];
    assert e.Text() == head + (t + id[..1]) + id[1..] == head + t + id == was.Text();
    assert |e.timestamp.value| != |t| && |e.incidentId.value| != |id|;
    var shifted := log[i := e];
    forall j | 0 <= j < |shifted| ensures SoundAt(hash, shifted, j) {
      assert SoundAt(hash, log, j);
    }
  }

  // ----------------------------------------------------------- writing an entry

  /** How signing goes: it works, no key can be loaded, or the key refuses to sign. */
  datatype Signing = Signs | NoKey | Refuses

  function MakeEntry(hash: Digest, key: string, previous: string, bundleHash: string, timestamp: string, m: Meta,
                     signing: Signing): (e: Entry)
  {
    var bare := Entry(Some(hash(previous + bundleHash + timestamp + m.incidentId)), Some(previous), Some(bundleHash),
                      Some(timestamp), Some(m.incidentId), Some(m.attackType), Some(m.confidence), Some(m.modelUsed),
                      Some(m.bundleDir), None, None);
    if signing.NoKey? then bare
    else
      var keyed := bare.(keyId := Some(key));
      if signing.Refuses? then keyed else keyed.(signature := Some(Signature(key, keyed.Core())))
  }

  /** The entry carries the evidence it was made for: bundle hash, time and metadata. */
  predicate Records(e: Entry, bundleHash: string, timestamp: string, m: Meta)
  {
    && e.bundleHash == Some(bundleHash) && e.timestamp == Some(timestamp) && e.incidentId == Some(m.incidentId)
    && e.attackType == Some(m.attackType) && e.confidence == Some(m.confidence) && e.modelUsed == Some(m.modelUsed)
    && e.bundleDir == Some(m.bundleDir)
  }

  /** Signed over its own fields exactly if signing works; the key is named exactly if
      there is one. */
  predicate SignedAs(e: Entry, key: string, signing: Signing)
  {
    && e.keyId == (if signing.NoKey? then None else Some(key))
    && e.signature == (if signing.Signs? then Some(Signature(key, e.Core())) else None)
  }

  lemma MadeEntryRecords(hash: Digest, key: string, previous: string, bundleHash: string, timestamp: string, m: Meta,
                         signing: Signing)
    ensures var e := MakeEntry(hash, key, previous, bundleHash, timestamp, m, signing);
      && Records(e, bundleHash, timestamp, m) && SignedAs(e, key, signing)
      && e.previousHash == Some(previous) && e.Complete() && e.entryHash == Some(hash(e.Text()))
  {
  }

  /** Signed by the node's key over its own fields, or not signed at all. */
  predicate HonestlySigned(key: string, e: Entry)
  {
    e.signature.Some? ==> e.keyId == Some(key) && e.signature == Some(Signature(key, e.Core()))
  }

  predicate HonestAnchor(key: string, log: seq<Entry>, a: Anchor)
  {
    && 0 < a.core.entryCount <= |log| && log[a.core.entryCount - 1].entryHash == Some(a.core.headHash)
    && a.core.keyId == key && a.signature == Some((key, a.core))
  }

  ghost predicate Honest(hash: Digest, key: string, log: seq<Entry>, anchors: seq<Anchor>)
  {
    && Linked(hash, log)
    && (forall i | 0 <= i < |log| :: HonestlySigned(key, log[i]))
    && forall j | 0 <= j < |anchors| :: HonestAnchor(key, log, anchors[j])
  }

  lemma HonestAppend(hash: Digest, key: string, log: seq<Entry>, anchors: seq<Anchor>, bundleHash: string,
                     timestamp: string, m: Meta, signing: Signing)
    requires Honest(hash, key, log, anchors)
    ensures var e := MakeEntry(hash, key, HeadHash(log), bundleHash, timestamp, m, signing);
      Honest(hash, key, log + [e], anchors)
  {
    var e := MakeEntry(hash, key, HeadHash(log), bundleHash, timestamp, m, signing);
    LinkedAppend(hash, log, e);
  }

  function MakeAnchor(key: string, count: nat, head: string, at: string, reason: string): (a: Anchor)
  {
    var core := AnchorCore(at, count, head, key, reason);
    Anchor(core, Some((key, core)))
  }

  /** An anchor of the head of a log: how many entries, the hash of the last, when and why,
      signed over exactly that. */
  predicate AnchorsHead(x: Anchor, key: string, log: seq<Entry>, anchoredAt: string, reason: string)
  {
    && x.core.entryCount == |log| && x.core.headHash == HeadHash(log)
    && x.core.anchoredAt == anchoredAt && x.core.reason == reason && x.core.keyId == key
    && x.signature == Some((key, x.core))
  }

  /** The two files as one process sees them when nothing else writes. */
  class CustodyLog {
    const key: string
    const hash: Digest
    var log: seq<Entry>
    var anchors: seq<Anchor>

    constructor (hash: Digest, key: string)
      ensures this.hash == hash && this.key == key && log == [] && anchors == []
      ensures Honest(hash, key, log, anchors)
    {
      this.hash, this.key := hash, key;
      log, anchors := [], [];
    }

    method GetPreviousHash() returns (h: string)
      ensures h == HeadHash(log)
    {
      if log == [] {
        return GENESIS;
      }
      var last := log[|log| - 1].entryHash;
      h := if last.Some? then last.value else GENESIS;
    }

    /** `preserve_bundle` under its lock, with the automatic anchor it may take after. A
        failing anchor signature raises out of it, after the entry has been written. */
    method PreserveBundle(bundleHash: string, m: Meta, timestamp: string, signing: Signing, anchorEvery: nat,
                          anchoredAt: string, reason: string, anchorSigns: bool)
      returns (e: Entry, raised: bool)
      requires Honest(hash, key, log, anchors)
      modifies this
      ensures Honest(hash, key, log, anchors)
      ensures e == MakeEntry(hash, key, HeadHash(old(log)), bundleHash, timestamp, m, signing)
      ensures Records(e, bundleHash, timestamp, m) && SignedAs(e, key, signing)
      ensures e.previousHash == Some(HeadHash(old(log))) && e.entryHash == Some(hash(e.Text()))
      ensures log == old(log) + [e]
      ensures var due := anchorEvery > 0 && |log| % anchorEvery == 0;
        && raised == (due && !anchorSigns)
        && anchors == old(anchors)
                      + if due && anchorSigns
                        then [MakeAnchor(key, |log|, e.entryHash.value, anchoredAt, reason)] else []
    {
      HonestAppend(hash, key, log, anchors, bundleHash, timestamp, m, signing);
      var previous := GetPreviousHash();
      e := MakeEntry(hash, key, previous, bundleHash, timestamp, m, signing);
      log := log + [e];
      raised := false;
      if anchorEvery > 0 && |log| % anchorEvery == 0 {
        raised := AnchorChain(anchoredAt, reason, anchorSigns);
      }
    }

    /** Anchors are only written signed: a failing signature raises and writes nothing. */
    method AnchorChain(anchoredAt: string, reason: string, signs: bool) returns (raised: bool)
      requires Honest(hash, key, log, anchors)
      modifies this`anchors
      ensures Honest(hash, key, log, anchors)
      ensures raised == (log != [] && !signs)
      ensures anchors == old(anchors)
                         + if log == [] || !signs then []
                           else [MakeAnchor(key, |log|, HeadHash(log), anchoredAt, reason)]
      ensures log != [] && signs ==>
        |anchors| > 0 && AnchorsHead(anchors[|anchors| - 1], key, log, anchoredAt, reason)
    {
      if log == [] {
        return false;
      }
      if !signs {
        return true;
      }
      assert SoundAt(hash, log, |log| - 1);
      anchors := anchors + [MakeAnchor(key, |log|, HeadHash(log), anchoredAt, reason)];
      return false;
    }
  }

  // ------------------------------------------------------------ many writers

  /** Where a writer stands inside `preserve_bundle`. */
  datatype Writer =
    | Hashed(m: Meta, bundleHash: string)
    | Locked(m: Meta, bundleHash: string)
    | Ready(m: Meta, bundleHash: string, previous: string)
    | Appended

  /** What an anchor taker has read of the log, without any lock. */
  datatype Snapshot = Snapshot(count: nat, head: string)

  datatype World = World(log: seq<Entry>, anchors: seq<Anchor>, lock: Option<nat>, writers: map<nat, Writer>,
                         snapshots: map<nat, Snapshot>)

  /** The atomic steps of any number of writers and anchor takers, in any order. */
  datatype Action =
    | HashBundle(w: nat, m: Meta, bundleHash: string)
    | TakeLock(w: nat)
    | ReadPrevious(w: nat)
    | Append(w: nat, timestamp: string, signing: Signing)
    | Unlock(w: nat)
    | Snap(a: nat)
    | WriteAnchor(a: nat, anchoredAt: string, reason: string, signs: bool)

  function Empty(): (s: World) { World([], [], None, map[], map[]) }

  /** A step that is not enabled, such as taking a held lock, changes nothing: its
      process waits. */
  function Next(hash: Digest, key: string, s: World, act: Action): (r: World)
  {
    match act
    case HashBundle(w, m, bundleHash) =>
      if w in s.writers then s else s.(writers := s.writers[w := Hashed(m, bundleHash)])
    case TakeLock(w) =>
      if w in s.writers && s.writers[w].Hashed? && s.lock.None?
      then s.(lock := Some(w), writers := s.writers[w := Locked(s.writers[w].m, s.writers[w].bundleHash)]) else s
    case ReadPrevious(w) =>
      if w in s.writers && s.writers[w].Locked?
      then s.(writers := s.writers[w := Ready(s.writers[w].m, s.writers[w].bundleHash, HeadHash(s.log))]) else s
    case Append(w, timestamp, signing) =>
      if w in s.writers && s.writers[w].Ready?
      then
        var at := s.writers[w];
        s.(log := s.log + [MakeEntry(hash, key, at.previous, at.bundleHash, timestamp, at.m, signing)],
           writers := s.writers[w := Appended])
      else s
    case Unlock(w) =>
      if w in s.writers && s.writers[w].Appended? then s.(lock := None, writers := s.writers - {w}) else s
    case Snap(a) =>
      if a in s.snapshots || s.log == [] then s
      else s.(snapshots := s.snapshots[a := Snapshot(|s.log|, HeadHash(s.log))])
    case WriteAnchor(a, anchoredAt, reason, signs) =>
      if a !in s.snapshots then s
      else if !signs then s.(snapshots := s.snapshots - {a})
      else s.(anchors := s.anchors + [MakeAnchor(key, s.snapshots[a].count, s.snapshots[a].head, anchoredAt, reason)],
              snapshots := s.snapshots - {a})
  }

  function RunActions(hash: Digest, key: string, acts: seq<Action>): (s: World)
  {
    if acts == [] then Empty() else Next(hash, key, RunActions(hash, key, acts[..|acts| - 1]), acts[|acts| - 1])
  }

  predicate InLock(w: Writer) { w.Locked? || w.Ready? || w.Appended? }

  /** Only the lock holder is past the lock, a ready writer has read the current head,
      and every snapshot still describes a prefix of the log. */
  ghost predicate Coherent(hash: Digest, key: string, s: World)
  {
    && Honest(hash, key, s.log, s.anchors)
    && (forall w | w in s.writers && InLock(s.writers[w]) :: s.lock == Some(w))
    && (forall w | w in s.writers && s.writers[w].Ready? :: s.writers[w].previous == HeadHash(s.log))
    && forall a | a in s.snapshots ::
         0 < s.snapshots[a].count <= |s.log| && s.log[s.snapshots[a].count - 1].entryHash == Some(s.snapshots[a].head)
  }

  lemma AppendCoherent(hash: Digest, key: string, s: World, w: nat, timestamp: string, signing: Signing)
    requires Coherent(hash, key, s)
    ensures var r := Next(hash, key, s, Append(w, timestamp, signing)); Coherent(hash, key, r) && s.log <= r.log
  {
    if w in s.writers && s.writers[w].Ready? {
      var at := s.writers[w];
      HonestAppend(hash, key, s.log, s.anchors, at.bundleHash, timestamp, at.m, signing);
    }
  }

  lemma SnapCoherent(hash: Digest, key: string, s: World, a: nat)
    requires Coherent(hash, key, s)
    ensures var r := Next(hash, key, s, Snap(a)); Coherent(hash, key, r) && s.log == r.log
  {
    if s.log != [] {
      assert SoundAt(hash, s.log, |s.log| - 1);
    }
  }

  lemma AnchorCoherent(hash: Digest, key: string, s: World, a: nat, anchoredAt: string, reason: string,
                       signs: bool)
    requires Coherent(hash, key, s)
    ensures var r := Next(hash, key, s, WriteAnchor(a, anchoredAt, reason, signs));
      Coherent(hash, key, r) && s.log == r.log
  {
    if a in s.snapshots {
      var snap := s.snapshots[a];
      assert HonestAnchor(key, s.log, MakeAnchor(key, snap.count, snap.head, anchoredAt, reason));
    }
  }

  lemma NextCoherent(hash: Digest, key: string, s: World, act: Action)
    requires Coherent(hash, key, s)
    ensures Coherent(hash, key, Next(hash, key, s, act)) && s.log <= Next(hash, key, s, act).log
  {
    if act.Append? {
      AppendCoherent(hash, key, s, act.w, act.timestamp, act.signing);
    } else if act.Snap? {
      SnapCoherent(hash, key, s, act.a);
    } else if act.WriteAnchor? {
      AnchorCoherent(hash, key, s, act.a, act.anchoredAt, act.reason, act.signs);
    }
  }

  /** However writers and anchor takers interleave, the log stays one linked chain from
      genesis, entries are signed honestly or not at all, and every anchor ever written
      still describes a prefix of the log. */
  lemma {:induction false} WritersNeverFork(hash: Digest, key: string, acts: seq<Action>)
    ensures Coherent(hash, key, RunActions(hash, key, acts))
    decreases |acts|
  {
    if acts != [] {
      WritersNeverFork(hash, key, acts[..|acts| - 1]);
      NextCoherent(hash, key, RunActions(hash, key, acts[..|acts| - 1]), acts[|acts| - 1]);
    }
  }

  /** The log only grows: what a run has written, every continuation keeps. */
  lemma {:induction false} LogOnlyGrows(hash: Digest, key: string, acts: seq<Action>, n: nat)
    requires n <= |acts|
    ensures RunActions(hash, key, acts[..n]).log <= RunActions(hash, key, acts).log
    decreases |acts|
  {
    if n < |acts| {
      var init := acts[..|acts| - 1];
      assert init[..n] == acts[..n];
      LogOnlyGrows(hash, key, init, n);
      WritersNeverFork(hash, key, init);
      NextCoherent(hash, key, RunActions(hash, key, init), acts[|acts| - 1]);
    } else {
      assert acts[..n] == acts;
    }
  }
}
