/**
 * Each store operation as the sequence of file operations it performs once it has loaded the index:
 * what the methods of the store carry out, what a crash can interrupt, and what goroutines interleave.
 */
module Plans {
  import opened Base
  import opened Files
  import opened Versions
  import opened Layout
  import opened Histories

  /** How a store is set up. `encode` and `decode` are the JSON text of an index. */
  datatype Config = Config(
    sha: Digest,
    encode: VersionIndex -> Bytes,
    decode: Bytes -> Option<VersionIndex>,
    cipher: Cipher,
    maxVersions: int)

  ghost predicate Sound(cfg: Config) {
    && IsDigest(cfg.sha)
    && forall idx :: cfg.decode(cfg.encode(idx)) == Some(idx)
  }

  /** loadIndex: a file that does not exist is an empty index, one that does not parse is an error. */
  function Load(cfg: Config, d: Disk, s: Site): Result<VersionIndex> {
    var path := IndexPath(cfg.sha, s);
    if path !in d then Success(VersionIndex(s.key, "", []))
    else
      match cfg.decode(d[path])
      case None => Failure(CorruptIndex)
      case Some(idx) => Success(idx)
  }

  function SavePlan(cfg: Config, s: Site, idx: VersionIndex): seq<Micro> {
    ReplacePlan(TmpPath(cfg.sha, s), IndexPath(cfg.sha, s), cfg.encode(idx))
  }

  function WipePlan(cfg: Config, s: Site, versions: seq<VersionEntry>): seq<Micro>
    requires forall e <- versions :: |Hash(cfg.sha, Name(s, e.versionID))| >= BLOCK_SIZE
  {
    seq(|versions|, i requires 0 <= i < |versions| =>
      assert versions[i] in versions; Wipe(BucketPath(cfg.sha, Name(s, versions[i].versionID))))
  }

  /** The common tail of both writes: the blob, the blobs retention drops, then the index. */
  function CommitPlan(cfg: Config, s: Site, idx: VersionIndex, versions: seq<VersionEntry>, id: string,
                      blob: Bytes): seq<Micro>
    requires IsDigest(cfg.sha)
  {
    [Put(BlobPath(cfg.sha, Name(s, id)), blob)]
    + WipePlan(cfg, s, Dropped(cfg.maxVersions, versions))
    + SavePlan(cfg, s, VersionIndex(idx.key, id, Pruned(cfg.maxVersions, versions)))
  }

  function Plan(cfg: Config, op: Op, loaded: Result<VersionIndex>): seq<Micro>
    requires IsDigest(cfg.sha)
  {
    if loaded.Failure? then []
    else
      var idx := loaded.value;
      match op
      case Write(s, id, _, _, plain, iv, clean) =>
        var blob := Encoded(cfg.cipher, iv, plain);
        if clean then CommitPlan(cfg, s, idx, idx.versions + [NewEntry(op, idx.versions)], id, blob)
        else [Put(BlobPath(cfg.sha, Name(s, id)), blob)]
      case WriteRaw(s, meta, data, clean) =>
        if meta.versionID == "" then []
        else if clean then CommitPlan(cfg, s, idx, Upsert(idx.versions, meta), meta.versionID, data)
        else [Put(BlobPath(cfg.sha, Name(s, meta.versionID)), data)]
      case DropVersion(s, id) =>
        if id !in Ids(idx.versions) then []
        else
          var (rest, latest) := AfterDrop(idx.versions, idx.latest, id);
          [Wipe(BucketPath(cfg.sha, Name(s, id)))] + SavePlan(cfg, s, VersionIndex(idx.key, latest, rest))
      case DropAll(s) =>
        WipePlan(cfg, s, idx.versions) + [Remove(IndexPath(cfg.sha, s))]
  }

  /** One whole operation, carried out with nothing in between. */
  function RunOp(cfg: Config, op: Op, d: Disk): Disk
    requires IsDigest(cfg.sha)
  {
    Exec(d, Plan(cfg, op, Load(cfg, d, op.site)))
  }

  function RunOps(cfg: Config, ops: seq<Op>, d: Disk): Disk
    requires IsDigest(cfg.sha)
    decreases |ops|
  {
    if ops == [] then d else RunOps(cfg, ops[1..], RunOp(cfg, ops[0], d))
  }

  /** The error an operation returns on a disk; a raw write checks its argument before it loads anything. */
  function OpFailing(cfg: Config, op: Op, d: Disk): Option<Error> {
    if op.WriteRaw? && op.meta.versionID == "" then Some(MissingVersionID)
    else
      match Load(cfg, d, op.site)
      case Failure(e) => Some(e)
      case Success(idx) => Failing(op, idx.versions)
  }

  /** What an operation returns on a disk: its error, or the entry it created if it is a local write. */
  function OpResult(cfg: Config, op: Op, d: Disk): Result<Option<VersionEntry>> {
    match OpFailing(cfg, op, d)
    case Some(e) => Failure(e)
    case None => Success(if op.Write? then Some(NewEntry(op, Load(cfg, d, op.site).value.versions)) else None)
  }

  /** What the disk holds for one logical file. */
  function Abs(cfg: Config, d: Disk, s: Site): History
    requires Load(cfg, d, s).Success?
  {
    var idx := Load(cfg, d, s).value;
    History(idx.versions, idx.latest, BlobsOf(cfg, d, s, Ids(idx.versions)))
  }

  /** The blobs found on disk for the versions of one logical file. */
  function BlobsOf(cfg: Config, d: Disk, s: Site, ids: set<string>): map<string, Bytes> {
    map x | x in ids && BlobPath(cfg.sha, Name(s, x)) in d :: d[BlobPath(cfg.sha, Name(s, x))]
  }

  // ---- Reads ----

  function DiskInfo(cfg: Config, d: Disk, s: Site, id: string): Result<VersionEntry> {
    match Load(cfg, d, s)
    case Failure(e) => Failure(e)
    case Success(idx) => Resolve(idx.versions, idx.latest, id)
  }

  function DiskReadRaw(cfg: Config, d: Disk, s: Site, id: string): Result<(VersionEntry, Bytes)> {
    match Load(cfg, d, s)
    case Failure(e) => Failure(e)
    case Success(idx) =>
      match Resolve(idx.versions, idx.latest, id)
      case Failure(e) => Failure(e)
      case Success(entry) =>
        var path := BlobPath(cfg.sha, Name(s, entry.versionID));
        if path in d then Success((entry, d[path])) else Failure(MissingBlob)
  }

  function DiskReadPlain(cfg: Config, d: Disk, s: Site, id: string): Result<(int, Bytes)> {
    match DiskReadRaw(cfg, d, s, id)
    case Failure(e) => Failure(e)
    case Success((entry, blob)) =>
      match Decoded(cfg.cipher, blob)
      case Failure(e) => Failure(e)
      case Success(plain) => Success((entry.sizeBytes, plain))
  }
}
