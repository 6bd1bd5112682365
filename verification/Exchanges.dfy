/**
 * internal/proto/messages.go, and what the three exchanges between nodes do to the disk of the node that
 * receives a blob or a file.
 */
module Exchanges {
  import opened Base
  import opened Files
  import opened Versions
  import opened Layout
  import opened Histories
  import opened Plans
  import opened Refinement
  import opened Transfers
  import opened Laws
  import Aes
  import Codec

  // ---- Messages ----

  datatype VersionMeta = VersionMeta(versionID: string, number: int, createdAt: int, sizeBytes: int, blobBytes: int,
                                     message: string)

  datatype StoreRequest = StoreRequest(originID: string, key: string, meta: VersionMeta)

  datatype StoreResponse = StoreResponse(ok: bool, error: string)

  datatype GetRequest = GetRequest(originID: string, key: string, versionID: string)

  datatype GetResponse = GetResponse(found: bool, error: string, meta: Option<VersionMeta>)

  datatype ShareRequest = ShareRequest(key: string, message: string, sizeBytes: int)

  datatype ShareResponse = ShareResponse(ok: bool, versionID: string, number: int, error: string)

  /** The JSON text of each message. */
  datatype Wording = Wording(
    storeRequest: Codec.PayloadCodec<StoreRequest>,
    storeResponse: Codec.PayloadCodec<StoreResponse>,
    getRequest: Codec.PayloadCodec<GetRequest>,
    getResponse: Codec.PayloadCodec<GetResponse>,
    shareRequest: Codec.PayloadCodec<ShareRequest>,
    shareResponse: Codec.PayloadCodec<ShareResponse>)

  function MetaFromEntry(entry: VersionEntry, blobBytes: int): VersionMeta {
    VersionMeta(entry.versionID, entry.number, entry.createdAt, entry.sizeBytes, blobBytes, entry.message)
  }

  function EntryFromMeta(meta: VersionMeta): VersionEntry {
    VersionEntry(meta.versionID, meta.number, meta.createdAt, meta.sizeBytes, meta.message)
  }

  /** What a fetching node makes of what arrives from a peer. */
  function AnswerOf(codec: Codec.PayloadCodec<GetResponse>, arriving: Bytes, clean: bool): Answer {
    var (resp, rest) := Codec.Parse(codec, arriving);
    if resp.Failure? || !resp.value.found || resp.value.meta.None? || resp.value.meta.value.blobBytes < 0 then Declined
    else Found(EntryFromMeta(resp.value.meta.value), resp.value.meta.value.blobBytes, rest, clean)
  }

  // ---- Receiving, on the disk ----

  /** Store what arrived, compare it with the promise, delete it again if it is short. */
  function DiskTake(cfg: Config, op: Op, promised: nat, d: Disk): (Disk, bool)
    requires IsDigest(cfg.sha) && (op.Write? || op.WriteRaw?)
  {
    var stored := RunOp(cfg, op, d);
    if OpFailing(cfg, op, d).Some? then (stored, false)
    else if |Payload(op)| != promised then (RunOp(cfg, DropVersion(op.site, StoredID(op)), stored), false)
    else (stored, true)
  }

  function DiskFetch(cfg: Config, s: Site, a: Answer, d: Disk): (Disk, bool)
    requires IsDigest(cfg.sha)
  {
    if a.Declined? then (d, false) else DiskTake(cfg, FetchOp(s, a), a.promised, d)
  }

  function DiskFetchFrom(cfg: Config, s: Site, answers: seq<Answer>, d: Disk): (Disk, bool)
    requires IsDigest(cfg.sha)
    decreases |answers|
  {
    if answers == [] then (d, false)
    else
      var (d', found) := DiskFetch(cfg, s, answers[0], d);
      if found then (d', true) else DiskFetchFrom(cfg, s, answers[1..], d')
  }

  function DiskGet(cfg: Config, s: Site, id: string, answers: seq<Answer>, d: Disk): (Disk, Result<(int, Bytes)>)
    requires IsDigest(cfg.sha)
  {
    var loaded := Load(cfg, d, s);
    if loaded.Success? && loaded.value.latest != "" && DiskReadPlain(cfg, d, s, id).Success?
    then (d, DiskReadPlain(cfg, d, s, id))
    else
      var (d', found) := DiskFetchFrom(cfg, s, answers, d);
      (d', if found then DiskReadPlain(cfg, d', s, id) else Failure(NoPeerHolds))
  }

  // ---- Refinement ----

  /** One operation has been carried out in full: its own history took one step, no other changed. */
  ghost predicate Steps(cfg: Config, u: Universe, s: Site, d: Disk, d': Disk, h: History)
    requires Kept(cfg, u, d) && s in u.sites
  {
    && Kept(cfg, u, d')
    && Abs(cfg, d', s) == h
    && forall t <- u.sites :: t != s ==> Abs(cfg, d', t) == Abs(cfg, d, t)
  }

  lemma EveryStep(cfg: Config, u: Universe, op: Op, d: Disk)
    requires Apart(cfg.sha, u) && Sound(cfg) && Kept(cfg, u, d) && OpInUse(u, op) && Fresh(op, Abs(cfg, d, op.site))
    ensures Steps(cfg, u, op.site, d, RunOp(cfg, op, d), Step(cfg.cipher, cfg.maxVersions, op, Abs(cfg, d, op.site)))
    ensures OpFailing(cfg, op, d) == Failing(op, Abs(cfg, d, op.site).versions)
  {
    forall t | t in u.sites
      ensures KeptAt(cfg, u, RunOp(cfg, op, d), t)
      ensures Abs(cfg, RunOp(cfg, op, d), t) ==
              if t == op.site then Step(cfg.cipher, cfg.maxVersions, op, Abs(cfg, d, t)) else Abs(cfg, d, t)
    {
      EachStep(cfg, u, op, d, t);
    }
    OpRefines(cfg, u, op, d);
  }

  lemma TwoOps(cfg: Config, u: Universe, s: Site, d: Disk, d1: Disk, d2: Disk, h1: History, h2: History)
    requires Kept(cfg, u, d) && s in u.sites && Steps(cfg, u, s, d, d1, h1) && Steps(cfg, u, s, d1, d2, h2)
    ensures Steps(cfg, u, s, d, d2, h2)
  {
  }

  lemma DropSteps(cfg: Config, u: Universe, s: Site, id: string, d: Disk, h: History)
    requires Apart(cfg.sha, u) && Sound(cfg) && Kept(cfg, u, d) && s in u.sites && Abs(cfg, d, s) == h
    ensures Steps(cfg, u, s, d, RunOp(cfg, DropVersion(s, id), d),
                  Step(cfg.cipher, cfg.maxVersions, DropVersion(s, id), h))
  {
    EveryStep(cfg, u, DropVersion(s, id), d);
  }

  /** Storing and then deleting again. */
  lemma StoredAndDropped(cfg: Config, u: Universe, s: Site, id: string, d: Disk, d1: Disk, h1: History)
    requires Apart(cfg.sha, u) && Sound(cfg) && Kept(cfg, u, d) && s in u.sites && Steps(cfg, u, s, d, d1, h1)
    ensures Steps(cfg, u, s, d, RunOp(cfg, DropVersion(s, id), d1),
                  Step(cfg.cipher, cfg.maxVersions, DropVersion(s, id), h1))
  {
    DropSteps(cfg, u, s, id, d1, h1);
    TwoOps(cfg, u, s, d, d1, RunOp(cfg, DropVersion(s, id), d1), h1,
           Step(cfg.cipher, cfg.maxVersions, DropVersion(s, id), h1));
  }

  lemma TakenTogether(cfg: Config, u: Universe, op: Op, promised: nat, d: Disk, h: History, d1: Disk, h1: History)
    requires IsDigest(cfg.sha) && Kept(cfg, u, d) && op.site in u.sites && (op.Write? || op.WriteRaw?)
    requires d1 == RunOp(cfg, op, d) && h1 == Step(cfg.cipher, cfg.maxVersions, op, h)
    requires OpFailing(cfg, op, d) == Failing(op, h.versions)
    requires Steps(cfg, u, op.site, d, d1, h1)
    requires Steps(cfg, u, op.site, d, RunOp(cfg, DropVersion(op.site, StoredID(op)), d1),
                   Step(cfg.cipher, cfg.maxVersions, DropVersion(op.site, StoredID(op)), h1))
    ensures var (d', kept) := DiskTake(cfg, op, promised, d);
            var (h', kept') := Take(cfg.cipher, cfg.maxVersions, op, promised, h);
            Steps(cfg, u, op.site, d, d', h') && kept == kept'
  {
    if OpFailing(cfg, op, d).None? && |Payload(op)| != promised {
      assert DiskTake(cfg, op, promised, d).0 == RunOp(cfg, DropVersion(op.site, StoredID(op)), d1);
    } else {
      assert DiskTake(cfg, op, promised, d).0 == d1;
    }
  }

  /** Receiving on the disk is receiving in the history, and no other history on the disk changes. */
  lemma TakeRefines(cfg: Config, u: Universe, op: Op, promised: nat, d: Disk, h: History)
    requires Apart(cfg.sha, u) && Sound(cfg) && Kept(cfg, u, d) && OpInUse(u, op)
    requires (op.Write? || op.WriteRaw?) && h == Abs(cfg, d, op.site) && Fresh(op, h)
    ensures var (d', kept) := DiskTake(cfg, op, promised, d);
            var (h', kept') := Take(cfg.cipher, cfg.maxVersions, op, promised, h);
            Steps(cfg, u, op.site, d, d', h') && kept == kept'
  {
    var d1, h1 := RunOp(cfg, op, d), Step(cfg.cipher, cfg.maxVersions, op, h);
    EveryStep(cfg, u, op, d);
    StoredAndDropped(cfg, u, op.site, StoredID(op), d, d1, h1);
    TakenTogether(cfg, u, op, promised, d, h, d1, h1);
  }

  /** Every version a peer may name is among the names in use. */
  ghost predicate AnswersInUse(u: Universe, s: Site, answers: seq<Answer>) {
    s in u.sites && forall a <- answers :: a.Found? && a.entry.versionID != "" ==> Name(s, a.entry.versionID) in u.names
  }

  lemma {:induction false} FetchRefines(cfg: Config, u: Universe, s: Site, answers: seq<Answer>, d: Disk)
    requires Apart(cfg.sha, u) && Sound(cfg) && Kept(cfg, u, d) && AnswersInUse(u, s, answers)
    ensures var (d', found) := DiskFetchFrom(cfg, s, answers, d);
            var (h', found') := FetchFrom(cfg.cipher, cfg.maxVersions, s, Abs(cfg, d, s), answers);
            Steps(cfg, u, s, d, d', h') && found == found'
    decreases |answers|
  {
    if answers != [] {
      var a := answers[0];
      assert a in answers;
      if a.Found? {
        TakeRefines(cfg, u, FetchOp(s, a), a.promised, d, Abs(cfg, d, s));
      }
      var (d1, found) := DiskFetch(cfg, s, a, d);
      if !found {
        FetchRefines(cfg, u, s, answers[1..], d1);
        TwoOps(cfg, u, s, d, d1, DiskFetchFrom(cfg, s, answers[1..], d1).0, Abs(cfg, d1, s),
               FetchFrom(cfg.cipher, cfg.maxVersions, s, Abs(cfg, d1, s), answers[1..]).0);
      }
    }
  }

  /**
   * GetVersion on the disk is Get on the history, so what is proved of the one holds of the other; it
   * changes no other history.
   */
  lemma GetRefines(cfg: Config, u: Universe, s: Site, id: string, answers: seq<Answer>, d: Disk)
    requires Apart(cfg.sha, u) && Sound(cfg) && Kept(cfg, u, d) && AnswersInUse(u, s, answers)
    ensures var (d', r) := DiskGet(cfg, s, id, answers, d);
            var (h', r') := Get(cfg.cipher, cfg.maxVersions, s, Abs(cfg, d, s), id, answers);
            Steps(cfg, u, s, d, d', h') && r == r'
  {
    assert KeptAt(cfg, u, d, s);
    ReadsRefine(cfg, d, s, id);
    FetchRefines(cfg, u, s, answers, d);
    var (d', found) := DiskFetchFrom(cfg, s, answers, d);
    assert KeptAt(cfg, u, d', s);
    ReadsRefine(cfg, d', s, id);
  }

  /** Rolling back on the disk: the latest then reads as the target did, even if retention dropped the target. */
  lemma RollbackOnDisk(cfg: Config, u: Universe, op: Op, target: string, size: int, d: Disk)
    requires Apart(cfg.sha, u) && Sound(cfg) && Kept(cfg, u, d) && OpInUse(u, op) && op.Write?
    requires Fresh(op, Abs(cfg, d, op.site))
    requires op == RollbackOp(op.site, target, op.id, op.at, op.iv, op.plain) && |op.iv| == Aes.IV_SIZE
    requires DiskReadPlain(cfg, d, op.site, target) == Success((size, op.plain))
    ensures Kept(cfg, u, RunOp(cfg, op, d))
    ensures DiskReadPlain(cfg, RunOp(cfg, op, d), op.site, "") == Success((|op.plain|, op.plain))
  {
    var h := Abs(cfg, d, op.site);
    assert KeptAt(cfg, u, d, op.site);
    EveryStep(cfg, u, op, d);
    assert KeptAt(cfg, u, RunOp(cfg, op, d), op.site);
    ReadsRefine(cfg, d, op.site, target);
    ReadsRefine(cfg, RunOp(cfg, op, d), op.site, "");
    RollbackRestores(cfg.cipher, cfg.maxVersions, op, target, h, h, Step(cfg.cipher, cfg.maxVersions, op, h), size);
  }

  // ---- Across the wire ----

  lemma MetaRoundTrip(entry: VersionEntry, blobBytes: int)
    ensures EntryFromMeta(MetaFromEntry(entry, blobBytes)) == entry
    ensures var meta := MetaFromEntry(entry, blobBytes);
            && meta.blobBytes == blobBytes && meta.versionID == entry.versionID && meta.number == entry.number
            && meta.createdAt == entry.createdAt && meta.sizeBytes == entry.sizeBytes && meta.message == entry.message
  {
  }

  /**
   * Wherever the stream a peer answers on is cut off, the fetching node sees either no answer or the
   * peer's own metadata, the true length and some beginning of its blob.
   */
  lemma AnswerCrossesWire(codec: Codec.PayloadCodec<GetResponse>, entry: VersionEntry, blob: Bytes, cut: nat,
                          clean: bool)
    requires Codec.Lossless(codec)
    requires var resp := GetResponse(true, "", Some(MetaFromEntry(entry, |blob|)));
             |codec.encode(resp)| <= Codec.MAX_HEADER_BYTES && cut <= |Codec.Frame(codec.encode(resp)) + blob|
    ensures var resp := GetResponse(true, "", Some(MetaFromEntry(entry, |blob|)));
            var sent := Codec.Frame(codec.encode(resp)) + blob;
            var a := AnswerOf(codec, sent[..cut], clean);
            Honest(a, entry, blob) && (cut == |sent| ==> a == Found(entry, |blob|, blob, clean))
  {
    var resp := GetResponse(true, "", Some(MetaFromEntry(entry, |blob|)));
    Codec.CutMessageThenBody(codec, resp, blob, cut);
    MetaRoundTrip(entry, |blob|);
    assert blob[..|blob|] == blob;
  }
}
