/** internal/store/store.go and raw.go: the operations of a store, on the disk. */
module Store {
  import opened Base
  import opened Files
  import opened Versions
  import opened Layout
  import opened Histories
  import opened Plans
  import Aes

  /**
   * The reader a write copies from: a source as it is, or, as the handlers build it, a LimitReader
   * that stops at a promised length under a counter.
   */
  class Body {
    const src: Stream
    const limited: bool
    var left: nat
    var n: nat

    constructor Whole(src: Stream)
      ensures this.src == src && !limited && n == 0
    {
      this.src, limited, left, n := src, false, 0, 0;
    }

    constructor Promised(src: Stream, promise: nat)
      ensures this.src == src && limited && left == promise && n == 0
    {
      this.src, limited, left, n := src, true, promise, 0;
    }

    /** What a reader of this body will be given before it ends. */
    ghost function Arriving(): Bytes
      reads this, src
    {
      if limited then Prefix(src.rest, left) else src.rest
    }

    /** Whether the reader sees an end of file rather than an error. */
    ghost predicate EndsClean()
      reads this, src
    {
      src.clean || (limited && left <= |src.rest|)
    }

    method Read(max: nat) returns (piece: Bytes, status: ReadStatus)
      requires 0 < max
      modifies this, src
      ensures old(src.rest) == piece + src.rest
      ensures old(Arriving()) == piece + Arriving() && |piece| <= max
      ensures n == old(n) + |piece| && EndsClean() == old(EndsClean())
      ensures status == Got <==> piece != []
      ensures status != Got ==> old(Arriving()) == [] && (status == Ended <==> EndsClean())
    {
      if limited && left == 0 {
        piece, status := [], Ended;
      } else {
        piece, status := src.Read(if limited then Min(max, left) else max);
        if limited {
          left := left - |piece|;
        }
        n := n + |piece|;
      }
    }
  }

  const COPY_BUFFER: nat := 32 * 1024

  /** A disk part of the way through appending to a file. */
  ghost predicate Copying(d: Disk, path: Path, data: Bytes, c: Disk)
    requires path in d
  {
    exists k: nat :: k <= |data| && c == d[path := d[path] + data[..k]]
  }

  lemma CopyingMore(d: Disk, path: Path, got: Bytes, out: Bytes)
    requires path in d
    ensures var was := d[path := d[path] + got];
            was[path := was[path] + out] == d[path := d[path] + (got + out)]
            && forall i: nat :: i <= |out| ==> Copying(d, path, got + out, was[path := was[path] + out[..i]])
    ensures forall c :: Copying(d, path, got, c) ==> Copying(d, path, got + out, c)
  {
    var was := d[path := d[path] + got];
    assert was[path] + out == d[path] + (got + out);
    forall i: nat | i <= |out| ensures Copying(d, path, got + out, was[path := was[path] + out[..i]]) {
      assert was[path] + out[..i] == d[path] + (got + out)[..|got| + i];
      assert was[path := was[path] + out[..i]] == d[path := d[path] + (got + out)[..|got| + i]];
    }
    forall c | Copying(d, path, got, c) ensures Copying(d, path, got + out, c) {
      var k: nat :| k <= |got| && c == d[path := d[path] + got[..k]];
      assert got[..k] == (got + out)[..k];
    }
  }

  /**
   * Where a copy goes: the open blob file itself, or the encrypting writer around it. The ghost part
   * remembers the disk the copy began on and the bytes the file has received since.
   */
  class Sink {
    const fs: FileSystem
    const path: Path
    const enc: Aes.StreamWriter?
    ghost const base: Disk
    ghost const seen: iset<Disk>
    ghost var got: Bytes

    constructor (fs: FileSystem, path: Path, enc: Aes.StreamWriter?)
      requires path in fs.disk
      ensures this.fs == fs && this.path == path && this.enc == enc
      ensures base == fs.disk && seen == fs.seen && got == []
      ensures Valid()
    {
      this.fs, this.path, this.enc := fs, path, enc;
      this.base, this.seen, this.got := fs.disk, fs.seen, [];
      new;
      assert base[path] + [] == base[path];
    }

    ghost predicate Valid()
      reads this, fs
    {
      && path in base
      && fs.disk == base[path := base[path] + got]
      && forall c :: c in fs.seen ==> c in seen || Copying(base, path, got, c)
    }

    method Write(piece: Bytes)
      requires Valid()
      modifies this, fs, enc
      ensures Valid()
      ensures enc == null ==> got == old(got) + piece
      ensures enc != null ==>
                got == old(got) + Aes.Mask(enc.ks, enc.iv, piece, old(enc.pos)) && enc.pos == old(enc.pos) + |piece|
    {
      var out := piece;
      if enc != null {
        out := enc.Write(piece);
      }
      CopyingMore(base, path, got, out);
      fs.Append(path, out);
      got := got + out;
    }
  }

  /** What the file receives for the bytes read: the same bytes, or their encryption. */
  ghost function Passed(enc: Aes.StreamWriter?, pos: nat, data: Bytes): (r: Bytes)
    ensures |r| == |data|
  {
    if enc == null then data else Aes.Mask(enc.ks, enc.iv, data, pos)
  }

  /**
   * io.Copy: everything that arrives reaches the file in order and once, the counter says how much it
   * was, and nothing past the promise is taken from the source.
   */
  method Copy(dst: Sink, r: Body) returns (ok: bool)
    requires dst.Valid() && dst.got == [] && (dst.enc != null ==> dst.enc.pos == 0)
    modifies dst, dst.fs, dst.enc, r, r.src
    ensures ok == old(r.EndsClean())
    ensures r.n == old(r.n) + |old(r.Arriving())|
    ensures old(r.src.rest) == old(r.Arriving()) + r.src.rest
    ensures dst.Valid() && dst.got == Passed(dst.enc, 0, old(r.Arriving()))
  {
    ghost var read: Bytes := [];
    while true
      modifies dst, dst.fs, dst.enc, r, r.src
      invariant old(r.Arriving()) == read + r.Arriving() && r.EndsClean() == old(r.EndsClean())
      invariant r.n == old(r.n) + |read| && old(r.src.rest) == read + r.src.rest
      invariant dst.Valid() && dst.got == Passed(dst.enc, 0, read)
      invariant dst.enc != null ==> dst.enc.pos == |read|
      decreases |r.Arriving()|
    {
      var piece, status := r.Read(COPY_BUFFER);
      if status != Got {
        return status == Ended;
      }
      Regroup(read, piece, r.Arriving());
      Regroup(read, piece, r.src.rest);
      PassedConcat(dst.enc, read, piece);
      dst.Write(piece);
      read := read + piece;
    }
  }

  lemma Regroup(a: Bytes, b: Bytes, c: Bytes)
    ensures a + (b + c) == (a + b) + c
  {
  }

  lemma PassedConcat(enc: Aes.StreamWriter?, a: Bytes, b: Bytes)
    ensures Passed(enc, 0, a + b) == Passed(enc, 0, a) + Passed(enc, |a|, b)
  {
    if enc != null {
      Aes.MaskConcat(enc.ks, enc.iv, a, b, 0);
    }
  }

  // ---- Keeping account of the file operations ----

  /**
   * From `d`, exactly the operations `plan` have been carried out, and every state the disk was ever
   * in since is a place where a crash could have stopped that plan.
   */
  ghost predicate Done(d: Disk, seen: iset<Disk>, plan: seq<Micro>, fs: FileSystem)
    reads fs
  {
    && fs.disk == Exec(d, plan)
    && forall c :: c in fs.seen ==> c in seen || CrashPoint(d, plan, c)
  }

  lemma DoneMore(d: Disk, seen: iset<Disk>, plan: seq<Micro>, d1: Disk, seen1: iset<Disk>, more: seq<Micro>, d2: Disk,
                 seen2: iset<Disk>)
    requires d1 == Exec(d, plan) && forall c :: c in seen1 ==> c in seen || CrashPoint(d, plan, c)
    requires d2 == Exec(d1, more) && forall c :: c in seen2 ==> c in seen1 || CrashPoint(d1, more, c)
    ensures d2 == Exec(d, plan + more) && forall c :: c in seen2 ==> c in seen || CrashPoint(d, plan + more, c)
  {
    ExecConcat(d, plan, more);
    forall c | c in seen2 ensures c in seen || CrashPoint(d, plan + more, c) {
      CrashConcat(d, plan, more, c);
    }
  }

  /** The states of the disk while a file is created and some first bytes are written. */
  ghost predicate Opening(d: Disk, path: Path, header: Bytes, c: Disk) {
    exists n: nat :: n <= |header| && c == d[path := header[..n]]
  }

  /** Creating a file, writing its header and copying its body is one Put of the two joined. */
  lemma HeaderThenBody(d: Disk, path: Path, header: Bytes, body: Bytes, c: Disk)
    ensures Opening(d, path, header, c) ==> Midway(d, Put(path, header + body), c)
    ensures Copying(d[path := header], path, body, c) ==> Midway(d, Put(path, header + body), c)
    ensures d[path := header][path := header + body] == Apply(d, Put(path, header + body))
  {
    if Opening(d, path, header, c) {
      var n: nat :| n <= |header| && c == d[path := header[..n]];
      assert header[..n] == (header + body)[..n];
    }
    if Copying(d[path := header], path, body, c) {
      var k: nat :| k <= |body| && c == d[path := header][path := header + body[..k]];
      assert header + body[..k] == (header + body)[..|header| + k];
      assert c == d[path := (header + body)[..|header| + k]];
    }
  }

  // ---- The store ----

  class Store {
    const cfg: Config
    const fs: FileSystem

    constructor (cfg: Config, fs: FileSystem)
      ensures this.cfg == cfg && this.fs == fs
    {
      this.cfg, this.fs := cfg, fs;
    }

    method BlobFile(name: Name) returns (path: Path)
      requires IsDigest(cfg.sha)
      ensures path == BlobPath(cfg.sha, name)
    {
      var pathKey := CASPathTransformFunc(cfg.sha, VersionedKey(name.site.key, name.id));
      CASPathShape(Hash(cfg.sha, name));
      path := [name.site.node] + Split(pathKey.pathName) + [pathKey.filename];
    }

    method LoadIndex(s: Site) returns (r: Result<VersionIndex>)
      ensures r == Load(cfg, fs.disk, s)
    {
      var path := IndexPath(cfg.sha, s);
      if path !in fs.disk {
        return Success(VersionIndex(s.key, "", []));
      }
      var idx := cfg.decode(fs.disk[path]);
      match idx
      case None => return Failure(CorruptIndex);
      case Some(i) => return Success(i);
    }

    method SaveIndex(s: Site, idx: VersionIndex)
      requires IsDigest(cfg.sha)
      modifies fs
      ensures fs.disk == Exec(old(fs.disk), SavePlan(cfg, s, idx))
      ensures forall c :: c in fs.seen ==> c in old(fs.seen) || CrashPoint(old(fs.disk), SavePlan(cfg, s, idx), c)
    {
      IndexOutsideBuckets(cfg.sha, Name(s, ""), s, s);
      WriteFileAtomic(fs, TmpPath(cfg.sha, s), IndexPath(cfg.sha, s), cfg.encode(idx));
    }

    /** createBlobFile, and the header if the blob is to be encrypted. */
    method OpenBlob(name: Name, sealed: bool, iv: Bytes) returns (dst: Sink)
      requires IsDigest(cfg.sha)
      modifies fs
      ensures fresh(dst) && dst.Valid() && dst.fs == fs && dst.path == BlobPath(cfg.sha, name) && dst.got == []
      ensures dst.seen == fs.seen && dst.base == fs.disk
      ensures dst.enc != null ==> fresh(dst.enc) && dst.enc.pos == 0 && dst.enc.iv == iv
      ensures dst.enc == null <==> !sealed || cfg.cipher.None?
      ensures dst.enc != null ==> dst.enc.ks == cfg.cipher.value
      ensures var header := if sealed && cfg.cipher.Some? then Aes.Header(iv) else [];
              fs.disk == old(fs.disk)[dst.path := header]
              && forall c :: c in fs.seen ==> c in old(fs.seen) || Opening(old(fs.disk), dst.path, header, c)
    {
      var path := BlobFile(name);
      ghost var d := fs.disk;
      fs.Create(path);
      ghost var empty: Bytes := [];
      assert empty[..0] == empty == Aes.Header(iv)[..0];
      var enc: Aes.StreamWriter? := null;
      if sealed && cfg.cipher.Some? {
        enc := new Aes.StreamWriter(cfg.cipher.value, iv);
        fs.Append(path, Aes.Header(iv));
        assert forall n: nat :: n <= |Aes.Header(iv)| ==> [] + Aes.Header(iv)[..n] == Aes.Header(iv)[..n];
        assert [] + Aes.Header(iv) == Aes.Header(iv);
      }
      dst := new Sink(fs, path, enc);
    }

    /** writeStream when `sealed`, writeStreamRaw otherwise. */
    method WriteStream(name: Name, sealed: bool, iv: Bytes, r: Body) returns (ok: bool)
      requires IsDigest(cfg.sha)
      modifies fs, r, r.src
      ensures ok == old(r.EndsClean())
      ensures r.n == old(r.n) + |old(r.Arriving())|
      ensures old(r.src.rest) == old(r.Arriving()) + r.src.rest
      ensures var put := Put(BlobPath(cfg.sha, name),
                             Encoded(if sealed then cfg.cipher else None, iv, old(r.Arriving())));
              fs.disk == Apply(old(fs.disk), put)
              && forall c :: c in fs.seen ==> c in old(fs.seen) || Midway(old(fs.disk), put, c)
      ensures BlobPath(cfg.sha, name) in fs.disk
      ensures sealed && cfg.cipher.Some? && |iv| == Aes.IV_SIZE ==>
                Aes.InCounterMode(cfg.cipher.value, iv, old(r.Arriving()), fs.disk[BlobPath(cfg.sha, name)])
      ensures !sealed || cfg.cipher.None? ==> fs.disk[BlobPath(cfg.sha, name)] == old(r.Arriving())
    {
      ghost var plain := r.Arriving();
      ghost var d := fs.disk;
      var dst := OpenBlob(name, sealed, iv);
      ghost var header: Bytes := if sealed && cfg.cipher.Some? then Aes.Header(iv) else [];
      ok := Copy(dst, r);
      ghost var body := dst.got;
      assert header == [] ==> header + body == body;
      forall c ensures c in fs.seen ==> c in old(fs.seen) || Midway(d, Put(dst.path, header + body), c) {
        HeaderThenBody(d, dst.path, header, body, c);
      }
      if sealed && cfg.cipher.Some? && |iv| == Aes.IV_SIZE {
        Aes.SealedIff(cfg.cipher.value, iv, plain, fs.disk[dst.path]);
      }
    }

    method DeleteVersionBlob(name: Name)
      requires IsDigest(cfg.sha)
      modifies fs
      ensures fs.disk == Apply(old(fs.disk), Wipe(BucketPath(cfg.sha, name)))
      ensures forall c :: c in fs.seen ==> c in old(fs.seen) || Midway(old(fs.disk), Wipe(BucketPath(cfg.sha, name)), c)
    {
      var pathKey := CASPathTransformFunc(cfg.sha, VersionedKey(name.site.key, name.id));
      CASPathShape(Hash(cfg.sha, name));
      fs.RemoveAll([name.site.node, FirstPathName(pathKey)]);
    }

    /** Remove the blobs of a list of versions, oldest first. */
    method DeleteBlobs(s: Site, versions: seq<VersionEntry>)
      requires IsDigest(cfg.sha)
      modifies fs
      ensures fs.disk == Exec(old(fs.disk), WipePlan(cfg, s, versions))
      ensures forall c :: c in fs.seen ==> c in old(fs.seen) || CrashPoint(old(fs.disk), WipePlan(cfg, s, versions), c)
    {
      ghost var d, seen := fs.disk, fs.seen;
      var i := 0;
      while i < |versions|
        invariant 0 <= i <= |versions|
        invariant Done(d, seen, WipePlan(cfg, s, versions[..i]), fs)
      {
        ghost var d1, seen1 := fs.disk, fs.seen;
        var name := Name(s, versions[i].versionID);
        DeleteVersionBlob(name);
        OneMicro(d1, Wipe(BucketPath(cfg.sha, name)));
        DoneMore(d, seen, WipePlan(cfg, s, versions[..i]), d1, seen1, [Wipe(BucketPath(cfg.sha, name))], fs.disk,
                 fs.seen);
        assert WipePlan(cfg, s, versions[..i + 1]) ==
            WipePlan(cfg, s, versions[..i]) + [Wipe(BucketPath(cfg.sha, name))];
        i := i + 1;
      }
      assert versions[..i] == versions;
    }

    method PruneOldestVersions(s: Site, idx: VersionIndex) returns (r: VersionIndex)
      requires IsDigest(cfg.sha)
      modifies fs
      ensures r == idx.(versions := Pruned(cfg.maxVersions, idx.versions))
      ensures fs.disk == Exec(old(fs.disk), WipePlan(cfg, s, Dropped(cfg.maxVersions, idx.versions)))
      ensures forall c :: c in fs.seen ==>
                c in old(fs.seen) || CrashPoint(old(fs.disk), WipePlan(cfg, s, Dropped(cfg.maxVersions, idx.versions)),
                                                c)
    {
      if cfg.maxVersions <= 0 || |idx.versions| <= cfg.maxVersions {
        return idx;
      }
      var cut := |idx.versions| - cfg.maxVersions;
      DeleteBlobs(s, idx.versions[..cut]);
      r := idx.(versions := idx.versions[cut..]);
    }

    /** What both writes do once the blob is on disk: the new list, retention, the index. */
    method Commit(s: Site, idx: VersionIndex, versions: seq<VersionEntry>, id: string, ghost d: Disk,
                  ghost seen: iset<Disk>, ghost blob: Bytes)
      requires IsDigest(cfg.sha)
      requires Done(d, seen, [Put(BlobPath(cfg.sha, Name(s, id)), blob)], fs)
      modifies fs
      ensures Done(d, seen, CommitPlan(cfg, s, idx, versions, id, blob), fs)
    {
      ghost var put := [Put(BlobPath(cfg.sha, Name(s, id)), blob)];
      ghost var d1, seen1 := fs.disk, fs.seen;
      var pruned := PruneOldestVersions(s, VersionIndex(idx.key, id, versions));
      ghost var wipes := WipePlan(cfg, s, Dropped(cfg.maxVersions, versions));
      DoneMore(d, seen, put, d1, seen1, wipes, fs.disk, fs.seen);
      ghost var d2, seen2 := fs.disk, fs.seen;
      SaveIndex(s, pruned);
      DoneMore(d, seen, put + wipes, d2, seen2, SavePlan(cfg, s, pruned), fs.disk, fs.seen);
    }

    /**
     * WriteVersion. The disk ends where the plan of the operation ends, every state in between is one
     * a crash of that plan could leave, and the entry returned is the one the plan indexes.
     */
    method WriteVersion(s: Site, message: string, r: Body, versionID: string, now: int,
                        iv: Bytes) returns (res: Result<VersionEntry>)
      requires IsDigest(cfg.sha) && r.n == 0
      modifies fs, r, r.src
      ensures var op := Write(s, versionID, now, message, old(r.Arriving()), iv, old(r.EndsClean()));
              var loaded := Load(cfg, old(fs.disk), s);
              Done(old(fs.disk), old(fs.seen), Plan(cfg, op, loaded), fs)
              && (match OpResult(cfg, op, old(fs.disk))
                  case Failure(e) => res == Failure(e)
                  case Success(entry) => res.Success? && entry == Some(res.value))
              && (loaded.Success? ==> r.n == |old(r.Arriving())| && old(r.src.rest) == old(r.Arriving()) + r.src.rest)
    {
      ghost var d, seen, blob := fs.disk, fs.seen, Encoded(cfg.cipher, iv, r.Arriving());
      var loaded := LoadIndex(s);
      if loaded.Failure? {
        return Failure(loaded.error);
      }
      var idx := loaded.value;
      var seqNo := NextSeq(idx.versions);
      ghost var put := Put(BlobPath(cfg.sha, Name(s, versionID)), blob);
      var ok := WriteStream(Name(s, versionID), true, iv, r);
      OneMicro(d, put);
      if !ok {
        return Failure(SourceFailed);
      }
      var entry := VersionEntry(versionID, seqNo, now, r.n, message);
      Commit(s, idx, idx.versions + [entry], versionID, d, seen, blob);
      return Success(entry);
    }

    method WriteVersionRaw(s: Site, meta: VersionEntry, r: Body) returns (failed: Option<Error>)
      requires IsDigest(cfg.sha) && r.n == 0
      modifies fs, r, r.src
      ensures var op := WriteRaw(s, meta, old(r.Arriving()), old(r.EndsClean()));
              Done(old(fs.disk), old(fs.seen), Plan(cfg, op, Load(cfg, old(fs.disk), s)), fs)
              && failed == OpFailing(cfg, op, old(fs.disk))
      ensures failed != Some(MissingVersionID) && Load(cfg, old(fs.disk), s).Success? ==>
                r.n == |old(r.Arriving())| && old(r.src.rest) == old(r.Arriving()) + r.src.rest
    {
      if meta.versionID == "" {
        return Some(MissingVersionID);
      }
      ghost var d, seen, blob := fs.disk, fs.seen, r.Arriving();
      var loaded := LoadIndex(s);
      if loaded.Failure? {
        return Some(loaded.error);
      }
      ghost var put := Put(BlobPath(cfg.sha, Name(s, meta.versionID)), blob);
      var ok := WriteStream(Name(s, meta.versionID), false, [], r);
      OneMicro(d, put);
      if !ok {
        return Some(SourceFailed);
      }
      var versions := UpsertVersion(loaded.value.versions, meta);
      Commit(s, loaded.value, versions, meta.versionID, d, seen, blob);
      return None;
    }

    method DeleteVersion(s: Site, versionID: string) returns (failed: Option<Error>)
      requires IsDigest(cfg.sha)
      modifies fs
      ensures var op := DropVersion(s, versionID);
              Done(old(fs.disk), old(fs.seen), Plan(cfg, op, Load(cfg, old(fs.disk), s)), fs)
              && failed == OpFailing(cfg, op, old(fs.disk))
    {
      ghost var d, seen := fs.disk, fs.seen;
      var loaded := LoadIndex(s);
      if loaded.Failure? {
        return Some(loaded.error);
      }
      var idx := loaded.value;
      var versions := new VersionEntry[|idx.versions|](i requires 0 <= i < |idx.versions| => idx.versions[i]);
      assert versions[..] == idx.versions;
      var kept, found := FilterInPlace(versions, versionID);
      if !found {
        return Some(UnknownVersion);
      }
      var rest := versions[..kept];
      var latest := if idx.latest == versionID then LastID(rest) else idx.latest;
      ghost var wipe := Wipe(BucketPath(cfg.sha, Name(s, versionID)));
      DeleteVersionBlob(Name(s, versionID));
      OneMicro(d, wipe);
      ghost var d1, seen1 := fs.disk, fs.seen;
      SaveIndex(s, VersionIndex(idx.key, latest, rest));
      DoneMore(d, seen, [wipe], d1, seen1, SavePlan(cfg, s, VersionIndex(idx.key, latest, rest)), fs.disk, fs.seen);
      return None;
    }

    method Delete(s: Site) returns (failed: Option<Error>)
      requires IsDigest(cfg.sha)
      modifies fs
      ensures Done(old(fs.disk), old(fs.seen), Plan(cfg, DropAll(s), Load(cfg, old(fs.disk), s)), fs)
      ensures failed == OpFailing(cfg, DropAll(s), old(fs.disk))
    {
      ghost var d, seen := fs.disk, fs.seen;
      var loaded := LoadIndex(s);
      if loaded.Failure? {
        return Some(loaded.error);
      }
      DeleteBlobs(s, loaded.value.versions);
      ghost var d1, seen1, rm := fs.disk, fs.seen, Remove(IndexPath(cfg.sha, s));
      fs.RemoveFile(IndexPath(cfg.sha, s));
      OneMicro(d1, rm);
      DoneMore(d, seen, WipePlan(cfg, s, loaded.value.versions), d1, seen1, [rm], fs.disk, fs.seen);
      return None;
    }

    method Has(s: Site) returns (has: bool)
      ensures has <==> Load(cfg, fs.disk, s).Success? && Load(cfg, fs.disk, s).value.latest != ""
    {
      var loaded := LoadIndex(s);
      return loaded.Success? && loaded.value.latest != "";
    }

    method VersionInfo(s: Site, versionID: string) returns (r: Result<VersionEntry>)
      ensures r == DiskInfo(cfg, fs.disk, s, versionID)
    {
      var loaded := LoadIndex(s);
      if loaded.Failure? {
        return Failure(loaded.error);
      }
      r := ResolveVersion(loaded.value, versionID);
    }

    method ReadVersionRaw(s: Site, versionID: string) returns (r: Result<(VersionEntry, Bytes)>)
      requires IsDigest(cfg.sha)
      ensures r == DiskReadRaw(cfg, fs.disk, s, versionID)
    {
      var entry := VersionInfo(s, versionID);
      if entry.Failure? {
        return Failure(entry.error);
      }
      var path := BlobFile(Name(s, entry.value.versionID));
      if path !in fs.disk {
        return Failure(MissingBlob);
      }
      return Success((entry.value, fs.disk[path]));
    }

    /** ReadVersion, read to its end: the size the index records and the plaintext. */
    method ReadVersion(s: Site, versionID: string) returns (r: Result<(int, Bytes)>)
      requires IsDigest(cfg.sha)
      ensures r == DiskReadPlain(cfg, fs.disk, s, versionID)
    {
      var raw := ReadVersionRaw(s, versionID);
      if raw.Failure? {
        return Failure(raw.error);
      }
      var (entry, blob) := raw.value;
      match cfg.cipher
      case None => return Success((entry.sizeBytes, blob));
      case Some(ks) =>
        var file := new Stream(blob, true);
        var plain := Aes.DecryptAll(ks, file, COPY_BUFFER);
        match plain
        case Failure(e) => return Failure(e);
        case Success(p) => return Success((entry.sizeBytes, p));
    }

    /** RollbackTo: what the target holds is written again as a new version. */
    method RollbackTo(s: Site, versionID: string, newID: string, now: int,
                      iv: Bytes) returns (res: Result<VersionEntry>)
      requires IsDigest(cfg.sha)
      modifies fs
      ensures match DiskReadPlain(cfg, old(fs.disk), s, versionID)
              case Failure(e) => res == Failure(e) && fs.disk == old(fs.disk)
              case Success((_, plain)) =>
                var op := Write(s, newID, now, "rollback to version " + versionID, plain, iv, true);
                fs.disk == RunOp(cfg, op, old(fs.disk))
                && res == Success(NewEntry(op, Load(cfg, old(fs.disk), s).value.versions))
    {
      var target := ReadVersion(s, versionID);
      if target.Failure? {
        return Failure(target.error);
      }
      var src := new Stream(target.value.1, true);
      var body := new Body.Whole(src);
      res := WriteVersion(s, "rollback to version " + versionID, body, newID, now, iv);
    }
  }
}
