/**
 * What a store keeps for one logical file, seen without the disk: its version list, which version is
 * the latest, and the stored bytes of each version. Every store operation is stated on this object.
 */
module Histories {
  import opened Base
  import opened Versions
  import opened Layout
  import Aes

  datatype History = History(versions: seq<VersionEntry>, latest: string, blobs: map<string, Bytes>)

  const EMPTY := History([], "", map[])

  /** A store without a cipher keeps plaintext. */
  type Cipher = Option<Aes.Keystream>

  function Encoded(c: Cipher, iv: Bytes, plain: Bytes): Bytes {
    match c
    case None => plain
    case Some(ks) => Aes.Seal(ks, iv, plain)
  }

  function Decoded(c: Cipher, blob: Bytes): Result<Bytes> {
    match c
    case None => Success(blob)
    case Some(ks) => Aes.Open(ks, blob)
  }

  function Overhead(c: Cipher): nat {
    if c.None? then 0 else Aes.HEADER_SIZE
  }

  /** Encoding adds exactly the overhead, and any cut that keeps the header decodes to the same cut of the plaintext. */
  lemma DecodedCut(c: Cipher, iv: Bytes, plain: Bytes, n: nat)
    requires |iv| == Aes.IV_SIZE && n <= |plain|
    ensures |Encoded(c, iv, plain)| == |plain| + Overhead(c)
    ensures Decoded(c, Encoded(c, iv, plain)[..n + Overhead(c)]) == Success(plain[..n])
    ensures Decoded(c, Encoded(c, iv, plain)) == Success(plain)
  {
    if c.Some? {
      Aes.SealLength(c.value, iv, plain);
      Aes.OpenCutSeal(c.value, iv, plain, n + Overhead(c));
      Aes.OpenSeal(c.value, iv, plain);
    }
  }

  ghost predicate WellFormed(h: History, max: int) {
    && Unique(h.versions)
    && "" !in Ids(h.versions)
    && (h.latest == "" <==> h.versions == [])
    && (h.latest != "" ==> h.latest in Ids(h.versions))
    && (max > 0 ==> |h.versions| <= max)
    && h.blobs.Keys <= Ids(h.versions)
  }

  /** Every listed version has its bytes. */
  ghost predicate Complete(h: History) {
    h.blobs.Keys == Ids(h.versions)
  }

  // ---- The operations ----

  datatype Op =
    // WriteVersion: `plain` arrived before the source ended, cleanly or not; the identity, the time
    // and the IV are what the clock and the entropy pool supplied
    | Write(site: Site, id: string, at: int, message: string, plain: Bytes, iv: Bytes, clean: bool)
    // WriteVersionRaw: `data` arrived before the source ended
    | WriteRaw(site: Site, meta: VersionEntry, data: Bytes, clean: bool)
    | DropVersion(site: Site, id: string)
    | DropAll(site: Site)

  function NewEntry(op: Op, versions: seq<VersionEntry>): VersionEntry
    requires op.Write?
  {
    VersionEntry(op.id, NextSeq(versions), op.at, |op.plain|, op.message)
  }

  /** The version a write stores. */
  function StoredID(op: Op): string
    requires op.Write? || op.WriteRaw?
  {
    if op.Write? then op.id else op.meta.versionID
  }

  /** The bytes that arrived for a write. */
  function Payload(op: Op): Bytes
    requires op.Write? || op.WriteRaw?
  {
    if op.Write? then op.plain else op.data
  }

  function StoredBlob(c: Cipher, op: Op): Bytes
    requires op.Write? || op.WriteRaw?
  {
    if op.Write? then Encoded(c, op.iv, op.plain) else op.data
  }

  function StoredEntry(op: Op, versions: seq<VersionEntry>): VersionEntry
    requires op.Write? || op.WriteRaw?
  {
    if op.Write? then NewEntry(op, versions) else op.meta
  }

  /** The list a write commits, before retention. */
  function StoredList(op: Op, versions: seq<VersionEntry>): seq<VersionEntry>
    requires op.Write? || op.WriteRaw?
  {
    if op.Write? then versions + [NewEntry(op, versions)] else Upsert(versions, op.meta)
  }

  /** The bytes of the kept versions once the blob of one of them has been written. */
  function KeptBlobs(kept: seq<VersionEntry>, blobs: map<string, Bytes>, id: string, blob: Bytes): map<string, Bytes> {
    map x | x in Ids(kept) && (x == id || x in blobs) :: if x == id then blob else blobs[x]
  }

  /** A new version list after retention, a new latest, and one blob written. */
  function Settle(h: History, max: int, versions: seq<VersionEntry>, id: string, blob: Bytes): History {
    var kept := Pruned(max, versions);
    History(kept, id, KeptBlobs(kept, h.blobs, id, blob))
  }

  /** A blob file cut short by an error: only a listed version is harmed. */
  function Torn(h: History, id: string, part: Bytes): History {
    if id in Ids(h.versions) then h.(blobs := h.blobs[id := part]) else h
  }

  function AfterDrop(versions: seq<VersionEntry>, latest: string, id: string): (r: (seq<VersionEntry>, string)) {
    var rest := Without(versions, id);
    (rest, if latest == id then LastID(rest) else latest)
  }

  function Step(c: Cipher, max: int, op: Op, h: History): History {
    match op
    case Write(_, id, _, _, plain, iv, clean) =>
      if clean then Settle(h, max, h.versions + [NewEntry(op, h.versions)], id, Encoded(c, iv, plain))
      else Torn(h, id, Encoded(c, iv, plain))
    case WriteRaw(_, meta, data, clean) =>
      if meta.versionID == "" then h
      else if clean then Settle(h, max, Upsert(h.versions, meta), meta.versionID, data)
      else Torn(h, meta.versionID, data)
    case DropVersion(_, id) =>
      if id !in Ids(h.versions) then h
      else
        var (rest, latest) := AfterDrop(h.versions, h.latest, id);
        History(rest, latest, h.blobs - {id})
    case DropAll(_) => EMPTY
  }

  /** The error an operation returns, None when it succeeds. */
  function Failing(op: Op, versions: seq<VersionEntry>): Option<Error> {
    match op
    case Write(_, _, _, _, _, _, clean) => if clean then None else Some(SourceFailed)
    case WriteRaw(_, meta, _, clean) =>
      if meta.versionID == "" then Some(MissingVersionID)
      else if clean then None else Some(SourceFailed)
    case DropVersion(_, id) => if id in Ids(versions) then None else Some(UnknownVersion)
    case DropAll(_) => None
  }

  function Run(c: Cipher, max: int, ops: seq<Op>, h: History): History {
    if ops == [] then h else Run(c, max, ops[1..], Step(c, max, ops[0], h))
  }

  function ReadRaw(h: History, id: string): Result<(VersionEntry, Bytes)> {
    match Resolve(h.versions, h.latest, id)
    case Failure(e) => Failure(e)
    case Success(entry) =>
      if entry.versionID in h.blobs then Success((entry, h.blobs[entry.versionID])) else Failure(MissingBlob)
  }

  function ReadPlain(c: Cipher, h: History, id: string): Result<(int, Bytes)> {
    match ReadRaw(h, id)
    case Failure(e) => Failure(e)
    case Success((entry, blob)) =>
      match Decoded(c, blob)
      case Failure(e) => Failure(e)
      case Success(plain) => Success((entry.sizeBytes, plain))
  }

  // ---- Index well-formedness ----

  /** Local writes mint an identity that is not yet listed. */
  ghost predicate Fresh(op: Op, h: History) {
    op.Write? ==> op.id != "" && op.id !in Ids(h.versions)
  }

  lemma AppendMeans(versions: seq<VersionEntry>, e: VersionEntry)
    ensures Ids(versions + [e]) == Ids(versions) + {e.versionID}
    ensures Unique(versions) && e.versionID !in Ids(versions) ==> Unique(versions + [e])
    ensures LastID(versions + [e]) == e.versionID
  {
    var r := versions + [e];
    assert r[|versions|] == e;
    assert forall x :: x in r <==> x in versions || x == e;
    if Unique(versions) && e.versionID !in Ids(versions) {
      forall j | 0 <= j < |versions| ensures versions[j].versionID != e.versionID {
        assert versions[j] in versions;
      }
    }
  }

  lemma StoredListMeans(op: Op, versions: seq<VersionEntry>)
    requires op.Write? || op.WriteRaw?
    ensures Ids(StoredList(op, versions)) == Ids(versions) + {StoredID(op)}
    ensures StoredEntry(op, versions) in StoredList(op, versions)
    ensures Unique(versions) && (op.Write? ==> op.id !in Ids(versions)) ==> Unique(StoredList(op, versions))
  {
    AppendMeans(versions, StoredEntry(op, versions));
    if op.WriteRaw? {
      UpsertMeans(versions, op.meta);
    } else {
      assert StoredList(op, versions)[|versions|] == NewEntry(op, versions);
    }
  }

  /**
   * The version just written survives its own retention: an appended one is last, and one replaced in
   * place cannot be pruned because the list was already within the limit.
   */
  lemma WrittenSurvives(h: History, max: int, op: Op)
    requires WellFormed(h, max) && Fresh(op, h)
    requires op.Write? || op.WriteRaw?
    ensures var versions := StoredList(op, h.versions);
            Unique(versions) && Ids(versions) == Ids(h.versions) + {StoredID(op)}
                && StoredID(op) in Ids(Pruned(max, versions))
  {
    var e, versions := StoredEntry(op, h.versions), StoredList(op, h.versions);
    StoredListMeans(op, h.versions);
    PrunedMeans(max, versions);
    if versions == h.versions + [e] {
      AppendMeans(h.versions, e);
      LastIsListed(Pruned(max, versions));
    }
  }

  lemma KeptWellFormed(kept: seq<VersionEntry>, max: int, blobs: map<string, Bytes>, id: string, blob: Bytes)
    requires Unique(kept) && id != "" && id in Ids(kept) && "" !in Ids(kept)
    requires max > 0 ==> |kept| <= max
    ensures WellFormed(History(kept, id, KeptBlobs(kept, blobs, id, blob)), max)
    ensures Ids(kept) <= blobs.Keys + {id} ==> Complete(History(kept, id, KeptBlobs(kept, blobs, id, blob)))
  {
    var e :| e in kept && e.versionID == id;
  }

  lemma SettleWellFormed(h: History, max: int, versions: seq<VersionEntry>, id: string, blob: Bytes)
    requires WellFormed(h, max)
    requires Unique(versions) && id != "" && Ids(versions) == Ids(h.versions) + {id} && id in Ids(Pruned(max, versions))
    ensures WellFormed(Settle(h, max, versions, id, blob), max)
    ensures Complete(h) ==> Complete(Settle(h, max, versions, id, blob))
  {
    PrunedMeans(max, versions);
    KeptWellFormed(Pruned(max, versions), max, h.blobs, id, blob);
  }

  lemma DropWellFormed(h: History, max: int, id: string)
    requires WellFormed(h, max)
    ensures var (rest, latest) := AfterDrop(h.versions, h.latest, id);
            WellFormed(History(rest, latest, h.blobs - {id}), max)
            && (Complete(h) ==> Complete(History(rest, latest, h.blobs - {id})))
  {
    WithoutMeans(h.versions, id);
    var rest := Without(h.versions, id);
    if rest != [] {
      LastIsListed(rest);
    } else {
      assert Ids(rest) == {};
    }
  }

  lemma StepWellFormed(c: Cipher, max: int, op: Op, h: History)
    requires WellFormed(h, max) && Fresh(op, h)
    ensures WellFormed(Step(c, max, op, h), max)
    ensures Complete(h) ==> Complete(Step(c, max, op, h))
  {
    match op
    case DropVersion(_, id) =>
      DropWellFormed(h, max, id);
    case DropAll(_) =>
    case _ =>
      if op.clean && StoredID(op) != "" {
        WrittenSurvives(h, max, op);
        SettleWellFormed(h, max, StoredList(op, h.versions), StoredID(op), StoredBlob(c, op));
      }
  }

  /** Identities minted by local writes are fresh throughout a run. */
  ghost predicate FreshRun(c: Cipher, max: int, ops: seq<Op>, h: History) {
    ops == [] || (Fresh(ops[0], h) && FreshRun(c, max, ops[1..], Step(c, max, ops[0], h)))
  }

  /** The index is well formed after every run, and the latest version always resolves. */
  lemma {:induction false} RunWellFormed(c: Cipher, max: int, ops: seq<Op>, h: History)
    requires WellFormed(h, max) && FreshRun(c, max, ops, h)
    ensures WellFormed(Run(c, max, ops, h), max)
    ensures var r := Run(c, max, ops, h); r.versions != [] ==> Resolve(r.versions, r.latest, "").Success?
    ensures Complete(h) ==> Complete(Run(c, max, ops, h))
    decreases |ops|
  {
    if ops != [] {
      StepWellFormed(c, max, ops[0], h);
      RunWellFormed(c, max, ops[1..], Step(c, max, ops[0], h));
    }
  }
}
