/**
 * The path-keyed disk with its JSON indexes simulates one history per logical file, for every
 * sequence of operations.
 */
module Refinement {
  import opened Base
  import opened Files
  import opened Versions
  import opened Layout
  import opened Histories
  import opened Plans

  // ---- Footprints ----

  /** Every file operation stays within what one logical file owns. */
  ghost predicate Local(sha: Digest, u: Universe, s: Site, m: Micro)
    requires IsDigest(sha)
  {
    match m
    case Put(p, _) => Owns(sha, u, s, p)
    case Move(from, to) => Owns(sha, u, s, from) && Owns(sha, u, s, to)
    case Wipe(dir) => exists id :: Name(s, id) in u.names && dir == BucketPath(sha, Name(s, id))
    case Remove(p) => Owns(sha, u, s, p)
  }

  ghost predicate AllLocal(sha: Digest, u: Universe, s: Site, ms: seq<Micro>)
    requires IsDigest(sha)
  {
    forall m <- ms :: Local(sha, u, s, m)
  }

  /** Two disks agree on everything one logical file owns. */
  ghost predicate SameFor(sha: Digest, u: Universe, s: Site, d: Disk, e: Disk)
    requires IsDigest(sha)
  {
    forall p :: Owns(sha, u, s, p) ==> At(d, p) == At(e, p)
  }

  /** Two disks agree outside of what one logical file owns. */
  ghost predicate SameBeyond(sha: Digest, u: Universe, s: Site, d: Disk, e: Disk)
    requires IsDigest(sha)
  {
    forall p :: !Owns(sha, u, s, p) ==> At(d, p) == At(e, p)
  }

  lemma ApplyStaysLocal(sha: Digest, u: Universe, s: Site, d: Disk, e: Disk, m: Micro)
    requires IsDigest(sha) && Local(sha, u, s, m)
    ensures SameBeyond(sha, u, s, d, Apply(d, m))
    ensures SameFor(sha, u, s, d, e) ==> SameFor(sha, u, s, Apply(d, m), Apply(e, m))
  {
    if m.Wipe? {
      forall p | m.dir <= p ensures Owns(sha, u, s, p) { }
    }
    if SameFor(sha, u, s, d, e) && m.Move? {
      assert At(d, m.from) == At(e, m.from);
    }
  }

  lemma {:induction false} ExecStaysLocal(sha: Digest, u: Universe, s: Site, d: Disk, e: Disk, ms: seq<Micro>)
    requires IsDigest(sha) && AllLocal(sha, u, s, ms)
    ensures SameBeyond(sha, u, s, d, Exec(d, ms))
    ensures SameFor(sha, u, s, d, e) ==> SameFor(sha, u, s, Exec(d, ms), Exec(e, ms))
    decreases |ms|
  {
    if ms != [] {
      ApplyStaysLocal(sha, u, s, d, e, ms[0]);
      ExecStaysLocal(sha, u, s, Apply(d, ms[0]), Apply(e, ms[0]), ms[1..]);
    }
  }

  /** The versions an index lists are among the names in use. */
  ghost predicate InUse(u: Universe, s: Site, versions: seq<VersionEntry>) {
    forall x :: x in Ids(versions) ==> Name(s, x) in u.names
  }

  ghost predicate OpInUse(u: Universe, op: Op) {
    && op.site in u.sites
    && (op.Write? ==> Name(op.site, op.id) in u.names)
    && (op.WriteRaw? && op.meta.versionID != "" ==> Name(op.site, op.meta.versionID) in u.names)
  }

  lemma WipesAreLocal(cfg: Config, u: Universe, s: Site, versions: seq<VersionEntry>)
    requires IsDigest(cfg.sha) && InUse(u, s, versions)
    ensures AllLocal(cfg.sha, u, s, WipePlan(cfg, s, versions))
  {
    forall m | m in WipePlan(cfg, s, versions) ensures Local(cfg.sha, u, s, m) {
      var i :| 0 <= i < |versions| && m == WipePlan(cfg, s, versions)[i];
      assert versions[i].versionID in Ids(versions);
    }
  }

  lemma PutIsLocal(cfg: Config, u: Universe, s: Site, id: string, data: Bytes)
    requires IsDigest(cfg.sha) && Name(s, id) in u.names
    ensures Local(cfg.sha, u, s, Put(BlobPath(cfg.sha, Name(s, id)), data))
  {
    BlobInBucket(cfg.sha, Name(s, id));
  }

  lemma CommitIsLocal(cfg: Config, u: Universe, s: Site, idx: VersionIndex, versions: seq<VersionEntry>, id: string,
                      blob: Bytes)
    requires IsDigest(cfg.sha) && InUse(u, s, versions) && Name(s, id) in u.names
    ensures AllLocal(cfg.sha, u, s, CommitPlan(cfg, s, idx, versions, id, blob))
  {
    PutIsLocal(cfg, u, s, id, blob);
    PrunedMeans(cfg.maxVersions, versions);
    WipesAreLocal(cfg, u, s, Dropped(cfg.maxVersions, versions));
  }

  lemma PlanIsLocal(cfg: Config, u: Universe, op: Op, idx: VersionIndex)
    requires IsDigest(cfg.sha) && OpInUse(u, op) && InUse(u, op.site, idx.versions)
    ensures AllLocal(cfg.sha, u, op.site, Plan(cfg, op, Success(idx)))
  {
    match op
    case Write(s, id, _, _, plain, iv, _) =>
      AppendMeans(idx.versions, NewEntry(op, idx.versions));
      CommitIsLocal(cfg, u, s, idx, idx.versions + [NewEntry(op, idx.versions)], id, Encoded(cfg.cipher, iv, plain));
      PutIsLocal(cfg, u, s, id, Encoded(cfg.cipher, iv, plain));
    case WriteRaw(s, meta, data, _) =>
      if meta.versionID != "" {
        UpsertMeans(idx.versions, meta);
        CommitIsLocal(cfg, u, s, idx, Upsert(idx.versions, meta), meta.versionID, data);
        PutIsLocal(cfg, u, s, meta.versionID, data);
      }
    case DropVersion(s, id) =>
    case DropAll(s) =>
      WipesAreLocal(cfg, u, s, idx.versions);
  }

  // ---- What plans leave on disk ----

  lemma {:induction false} ExecWipes(cfg: Config, s: Site, versions: seq<VersionEntry>, d: Disk, p: Path)
    requires IsDigest(cfg.sha)
    ensures At(Exec(d, WipePlan(cfg, s, versions)), p) ==
            if exists x :: x in Ids(versions) && BucketPath(cfg.sha, Name(s, x)) <= p then None else At(d, p)
    decreases |versions|
  {
    if versions != [] {
      var plan := WipePlan(cfg, s, versions);
      assert plan[1..] == WipePlan(cfg, s, versions[1..]);
      ExecWipes(cfg, s, versions[1..], Apply(d, plan[0]), p);
      assert forall e :: e in versions <==> e == versions[0] || e in versions[1..];
      assert versions[0].versionID in Ids(versions);
    }
  }

  lemma ExecSave(cfg: Config, s: Site, idx: VersionIndex, d: Disk)
    requires IsDigest(cfg.sha)
    ensures var e := Exec(d, SavePlan(cfg, s, idx));
            At(e, IndexPath(cfg.sha, s)) == Some(cfg.encode(idx))
            && forall p :: p != IndexPath(cfg.sha, s) && p != TmpPath(cfg.sha, s) ==> At(e, p) == At(d, p)
  {
    IndexOutsideBuckets(cfg.sha, Name(s, ""), s, s);
    TwoSteps(d, Put(TmpPath(cfg.sha, s), cfg.encode(idx)), Move(TmpPath(cfg.sha, s), IndexPath(cfg.sha, s)));
  }

  /** Index files and blobs never stand in each other's way. */
  lemma BlobsBesideIndex(sha: Digest, name: Name, s: Site)
    requires IsDigest(sha)
    ensures BlobPath(sha, name) != IndexPath(sha, s) && BlobPath(sha, name) != TmpPath(sha, s)
  {
    NoPathInsideAnother(sha, name, name, s);
  }

  lemma WipesSpare(cfg: Config, u: Universe, s: Site, versions: seq<VersionEntry>, d: Disk, x: string)
    requires Apart(cfg.sha, u) && InUse(u, s, versions) && Name(s, x) in u.names
    ensures At(Exec(d, WipePlan(cfg, s, versions)), BlobPath(cfg.sha, Name(s, x))) ==
            if x in Ids(versions) then None else At(d, BlobPath(cfg.sha, Name(s, x)))
  {
    ExecWipes(cfg, s, versions, d, BlobPath(cfg.sha, Name(s, x)));
    forall y | y in Ids(versions)
      ensures BucketPath(cfg.sha, Name(s, y)) <= BlobPath(cfg.sha, Name(s, x)) <==> x == y
    {
      BucketHolds(cfg.sha, Name(s, y), Name(s, x));
      BucketsDiffer(cfg.sha, u, Name(s, y), Name(s, x));
    }
  }

  lemma CommitLeaves(cfg: Config, u: Universe, s: Site, idx: VersionIndex, versions: seq<VersionEntry>, id: string,
                     blob: Bytes, d: Disk)
    requires Apart(cfg.sha, u) && Sound(cfg) && InUse(u, s, versions) && Name(s, id) in u.names
    requires Unique(versions)
    ensures var e := Exec(d, CommitPlan(cfg, s, idx, versions, id, blob));
            var kept := Pruned(cfg.maxVersions, versions);
            Load(cfg, e, s) == Success(VersionIndex(idx.key, id, kept))
            && forall x :: x in Ids(kept) ==>
                 At(e, BlobPath(cfg.sha, Name(s, x))) == if x == id then Some(blob)
                     else At(d, BlobPath(cfg.sha, Name(s, x)))
  {
    var kept, dropped := Pruned(cfg.maxVersions, versions), Dropped(cfg.maxVersions, versions);
    PrunedMeans(cfg.maxVersions, versions);
    var put := [Put(BlobPath(cfg.sha, Name(s, id)), blob)];
    var wipes, save := WipePlan(cfg, s, dropped), SavePlan(cfg, s, VersionIndex(idx.key, id, kept));
    var d1 := Exec(d, put);
    OneMicro(d, put[0]);
    var d2 := Exec(d1, wipes);
    ExecConcat(d, put + wipes, save);
    ExecConcat(d, put, wipes);
    ExecSave(cfg, s, VersionIndex(idx.key, id, kept), d2);
    forall x | x in Ids(kept)
      ensures At(Exec(d2, save), BlobPath(cfg.sha, Name(s, x))) ==
              if x == id then Some(blob) else At(d, BlobPath(cfg.sha, Name(s, x)))
    {
      BlobsBesideIndex(cfg.sha, Name(s, x), s);
      WipesSpare(cfg, u, s, dropped, d1, x);
      BlobsDiffer(cfg.sha, u, Name(s, x), Name(s, id));
    }
  }

  lemma BlobsDiffer(sha: Digest, u: Universe, a: Name, b: Name)
    requires Apart(sha, u) && a in u.names && b in u.names
    ensures BlobPath(sha, a) == BlobPath(sha, b) <==> a == b
  {
    BlobInBucket(sha, a);
    BlobInBucket(sha, b);
    BucketsDiffer(sha, u, a, b);
    if BlobPath(sha, a) == BlobPath(sha, b) {
      assert BlobPath(sha, a)[..2] == BucketPath(sha, a);
      assert BlobPath(sha, b)[..2] == BucketPath(sha, b);
    }
  }

  // ---- One operation ----

  lemma SameBlobs(cfg: Config, s: Site, d: Disk, e: Disk, was: seq<VersionEntry>, kept: seq<VersionEntry>, id: string,
                  blob: Bytes)
    requires Ids(kept) <= Ids(was) + {id}
    requires forall x :: x in Ids(kept) ==>
               At(e, BlobPath(cfg.sha, Name(s, x))) == if x == id then Some(blob)
                   else At(d, BlobPath(cfg.sha, Name(s, x)))
    ensures BlobsOf(cfg, e, s, Ids(kept)) == KeptBlobs(kept, BlobsOf(cfg, d, s, Ids(was)), id, blob)
  {
  }

  lemma CommitRefines(cfg: Config, u: Universe, s: Site, idx: VersionIndex, versions: seq<VersionEntry>, id: string,
                      blob: Bytes, d: Disk)
    requires Apart(cfg.sha, u) && Sound(cfg) && Load(cfg, d, s) == Success(idx)
    requires InUse(u, s, versions) && Name(s, id) in u.names && Unique(versions)
    requires Ids(versions) == Ids(idx.versions) + {id}
    ensures var e := Exec(d, CommitPlan(cfg, s, idx, versions, id, blob));
            Load(cfg, e, s).Success? && Abs(cfg, e, s) == Settle(Abs(cfg, d, s), cfg.maxVersions, versions, id, blob)
  {
    CommitLeaves(cfg, u, s, idx, versions, id, blob, d);
    PrunedMeans(cfg.maxVersions, versions);
    var e := Exec(d, CommitPlan(cfg, s, idx, versions, id, blob));
    SameBlobs(cfg, s, d, e, idx.versions, Pruned(cfg.maxVersions, versions), id, blob);
  }

  /** The blobs found when the versions of a list are where they were, except for one. */
  lemma SameBlobsBut(cfg: Config, s: Site, d: Disk, e: Disk, ids: set<string>, id: string, blob: Option<Bytes>)
    requires forall x :: x in ids ==>
               At(e, BlobPath(cfg.sha, Name(s, x))) == if x == id then blob else At(d, BlobPath(cfg.sha, Name(s, x)))
    ensures BlobsOf(cfg, e, s, ids) ==
            if id !in ids then BlobsOf(cfg, d, s, ids)
            else if blob.None? then BlobsOf(cfg, d, s, ids) - {id}
            else BlobsOf(cfg, d, s, ids)[id := blob.value]
  {
  }

  lemma PutLeaves(cfg: Config, u: Universe, s: Site, id: string, part: Bytes, d: Disk, e: Disk, ids: set<string>)
    requires Apart(cfg.sha, u) && Name(s, id) in u.names && forall x :: x in ids ==> Name(s, x) in u.names
    requires e == Exec(d, [Put(BlobPath(cfg.sha, Name(s, id)), part)])
    ensures At(e, IndexPath(cfg.sha, s)) == At(d, IndexPath(cfg.sha, s))
    ensures forall x :: x in ids ==>
              At(e, BlobPath(cfg.sha, Name(s, x))) == if x == id then Some(part)
                  else At(d, BlobPath(cfg.sha, Name(s, x)))
  {
    OneMicro(d, Put(BlobPath(cfg.sha, Name(s, id)), part));
    BlobsBesideIndex(cfg.sha, Name(s, id), s);
    forall x | x in ids
      ensures At(e, BlobPath(cfg.sha, Name(s, x))) == if x == id then Some(part)
              else At(d, BlobPath(cfg.sha, Name(s, x)))
    {
      BlobsDiffer(cfg.sha, u, Name(s, x), Name(s, id));
    }
  }

  lemma PutRefines(cfg: Config, u: Universe, s: Site, id: string, part: Bytes, d: Disk)
    requires Apart(cfg.sha, u) && Load(cfg, d, s).Success?
    requires InUse(u, s, Load(cfg, d, s).value.versions) && Name(s, id) in u.names
    ensures var e := Exec(d, [Put(BlobPath(cfg.sha, Name(s, id)), part)]);
            Load(cfg, e, s).Success? && Abs(cfg, e, s) == Torn(Abs(cfg, d, s), id, part)
  {
    var ids, e := Ids(Load(cfg, d, s).value.versions), Exec(d, [Put(BlobPath(cfg.sha, Name(s, id)), part)]);
    PutLeaves(cfg, u, s, id, part, d, e, ids);
    SameBlobsBut(cfg, s, d, e, ids, id, Some(part));
  }

  lemma DropLeaves(cfg: Config, u: Universe, s: Site, id: string, after: VersionIndex, d: Disk, e: Disk,
                   ids: set<string>)
    requires Apart(cfg.sha, u) && Sound(cfg) && Name(s, id) in u.names && forall x :: x in ids ==> Name(s, x) in u.names
    requires e == Exec(d, [Wipe(BucketPath(cfg.sha, Name(s, id)))] + SavePlan(cfg, s, after))
    ensures Load(cfg, e, s) == Success(after)
    ensures forall x :: x in ids ==>
              At(e, BlobPath(cfg.sha, Name(s, x))) == if x == id then None else At(d, BlobPath(cfg.sha, Name(s, x)))
  {
    var wipe := [Wipe(BucketPath(cfg.sha, Name(s, id)))];
    OneMicro(d, wipe[0]);
    ExecConcat(d, wipe, SavePlan(cfg, s, after));
    ExecSave(cfg, s, after, Exec(d, wipe));
    forall x | x in ids
      ensures At(e, BlobPath(cfg.sha, Name(s, x))) == if x == id then None else At(d, BlobPath(cfg.sha, Name(s, x)))
    {
      BucketHolds(cfg.sha, Name(s, id), Name(s, x));
      BucketsDiffer(cfg.sha, u, Name(s, id), Name(s, x));
      BlobsBesideIndex(cfg.sha, Name(s, x), s);
    }
  }

  lemma DropRefines(cfg: Config, u: Universe, s: Site, id: string, d: Disk)
    requires Apart(cfg.sha, u) && Sound(cfg) && Load(cfg, d, s).Success?
    requires InUse(u, s, Load(cfg, d, s).value.versions) && id in Ids(Load(cfg, d, s).value.versions)
    ensures var e := RunOp(cfg, DropVersion(s, id), d);
            Load(cfg, e, s).Success? && Abs(cfg, e, s) == Step(cfg.cipher, cfg.maxVersions, DropVersion(s, id),
                                                               Abs(cfg, d, s))
  {
    var idx := Load(cfg, d, s).value;
    var (rest, latest) := AfterDrop(idx.versions, idx.latest, id);
    var ids, e := Ids(idx.versions), RunOp(cfg, DropVersion(s, id), d);
    WithoutMeans(idx.versions, id);
    DropLeaves(cfg, u, s, id, VersionIndex(idx.key, latest, rest), d, e, ids);
    SameBlobsBut(cfg, s, d, e, ids, id, None);
    FewerBlobs(cfg, s, e, ids, id);
  }

  lemma FewerBlobs(cfg: Config, s: Site, e: Disk, ids: set<string>, id: string)
    requires BlobPath(cfg.sha, Name(s, id)) !in e
    ensures BlobsOf(cfg, e, s, ids - {id}) == BlobsOf(cfg, e, s, ids)
  {
  }

  lemma DropAllRefines(cfg: Config, u: Universe, s: Site, d: Disk)
    requires Apart(cfg.sha, u) && Load(cfg, d, s).Success?
    ensures var e := RunOp(cfg, DropAll(s), d);
            Load(cfg, e, s).Success? && Abs(cfg, e, s) == EMPTY
  {
    var idx := Load(cfg, d, s).value;
    var wipes, rm := WipePlan(cfg, s, idx.versions), [Remove(IndexPath(cfg.sha, s))];
    ExecConcat(d, wipes, rm);
    OneMicro(Exec(d, wipes), rm[0]);
    var e := RunOp(cfg, DropAll(s), d);
    assert e == Apply(Exec(d, wipes), rm[0]);
    assert Abs(cfg, e, s).blobs == map[];
  }

  /** Each operation does to its own history exactly what the abstract step says. */
  lemma OpRefines(cfg: Config, u: Universe, op: Op, d: Disk)
    requires Apart(cfg.sha, u) && Sound(cfg) && OpInUse(u, op)
    requires Load(cfg, d, op.site).Success? && InUse(u, op.site, Load(cfg, d, op.site).value.versions)
    requires WellFormed(Abs(cfg, d, op.site), cfg.maxVersions) && Fresh(op, Abs(cfg, d, op.site))
    ensures Load(cfg, RunOp(cfg, op, d), op.site).Success?
    ensures Abs(cfg, RunOp(cfg, op, d), op.site) == Step(cfg.cipher, cfg.maxVersions, op, Abs(cfg, d, op.site))
    ensures OpFailing(cfg, op, d) == Failing(op, Abs(cfg, d, op.site).versions)
  {
    var s, idx := op.site, Load(cfg, d, op.site).value;
    match op
    case Write(_, id, _, _, plain, iv, clean) =>
      if clean {
        AppendMeans(idx.versions, NewEntry(op, idx.versions));
        CommitRefines(cfg, u, s, idx, idx.versions + [NewEntry(op, idx.versions)], id, Encoded(cfg.cipher, iv, plain),
                      d);
      } else {
        PutRefines(cfg, u, s, id, Encoded(cfg.cipher, iv, plain), d);
      }
    case WriteRaw(_, meta, data, clean) =>
      if meta.versionID != "" {
        if clean {
          UpsertMeans(idx.versions, meta);
          CommitRefines(cfg, u, s, idx, Upsert(idx.versions, meta), meta.versionID, data, d);
        } else {
          PutRefines(cfg, u, s, meta.versionID, data, d);
        }
      }
    case DropVersion(_, id) =>
      if id in Ids(idx.versions) {
        DropRefines(cfg, u, s, id, d);
      }
    case DropAll(_) =>
      DropAllRefines(cfg, u, s, d);
  }

  /** What the disk holds for a logical file depends only on what that file owns. */
  lemma AbsIsLocal(cfg: Config, u: Universe, s: Site, d: Disk, e: Disk)
    requires IsDigest(cfg.sha) && SameFor(cfg.sha, u, s, d, e)
    ensures Load(cfg, d, s) == Load(cfg, e, s)
    ensures Load(cfg, d, s).Success? && InUse(u, s, Load(cfg, d, s).value.versions) ==> Abs(cfg, d, s) == Abs(cfg, e, s)
  {
    assert At(d, IndexPath(cfg.sha, s)) == At(e, IndexPath(cfg.sha, s));
    if Load(cfg, d, s).Success? && InUse(u, s, Load(cfg, d, s).value.versions) {
      forall x | x in Ids(Load(cfg, d, s).value.versions)
        ensures At(d, BlobPath(cfg.sha, Name(s, x))) == At(e, BlobPath(cfg.sha, Name(s, x)))
      {
        BlobInBucket(cfg.sha, Name(s, x));
        assert Name(s, x) in u.names;
        assert Owns(cfg.sha, u, s, BlobPath(cfg.sha, Name(s, x)));
      }
      assert Abs(cfg, d, s).blobs == Abs(cfg, e, s).blobs;
    }
  }

  /** An operation on one logical file leaves everything another one owns alone. */
  lemma OpsFrame(cfg: Config, u: Universe, op: Op, d: Disk, t: Site)
    requires Apart(cfg.sha, u) && OpInUse(u, op) && t in u.sites && t != op.site
    requires Load(cfg, d, op.site).Success? ==> InUse(u, op.site, Load(cfg, d, op.site).value.versions)
    ensures SameFor(cfg.sha, u, t, d, RunOp(cfg, op, d))
    ensures SameBeyond(cfg.sha, u, op.site, d, RunOp(cfg, op, d))
  {
    var loaded := Load(cfg, d, op.site);
    if loaded.Success? {
      PlanIsLocal(cfg, u, op, loaded.value);
      ExecStaysLocal(cfg.sha, u, op.site, d, d, Plan(cfg, op, loaded));
      forall p | Owns(cfg.sha, u, t, p) ensures At(d, p) == At(RunOp(cfg, op, d), p) {
        if Owns(cfg.sha, u, op.site, p) {
          OwnersDiffer(cfg.sha, u, op.site, t, p);
        }
      }
    }
  }

  // ---- Any sequence of operations ----

  /** The disk of a store that has only been used through its operations. */
  ghost predicate Kept(cfg: Config, u: Universe, d: Disk) {
    forall s <- u.sites :: KeptAt(cfg, u, d, s)
  }

  ghost predicate KeptAt(cfg: Config, u: Universe, d: Disk, s: Site) {
    && Load(cfg, d, s).Success?
    && InUse(u, s, Load(cfg, d, s).value.versions)
    && WellFormed(Abs(cfg, d, s), cfg.maxVersions)
  }

  ghost function AbsAll(cfg: Config, u: Universe, d: Disk): map<Site, History>
    requires Kept(cfg, u, d)
  {
    map s | s in u.sites :: Abs(cfg, d, s)
  }

  /** The abstract store: one history per logical file, changed one at a time. */
  ghost function StepAll(c: Cipher, max: int, op: Op, hs: map<Site, History>): map<Site, History>
    requires op.site in hs
  {
    hs[op.site := Step(c, max, op, hs[op.site])]
  }

  ghost predicate FreshIn(op: Op, hs: map<Site, History>) {
    op.site in hs && Fresh(op, hs[op.site])
  }

  lemma StepInUse(u: Universe, c: Cipher, max: int, op: Op, h: History)
    requires OpInUse(u, op) && InUse(u, op.site, h.versions)
    ensures InUse(u, op.site, Step(c, max, op, h).versions)
  {
    match op
    case Write(_, _, _, _, _, _, _) =>
      AppendMeans(h.versions, NewEntry(op, h.versions));
      PrunedMeans(max, h.versions + [NewEntry(op, h.versions)]);
    case WriteRaw(_, meta, _, _) =>
      UpsertMeans(h.versions, meta);
      PrunedMeans(max, Upsert(h.versions, meta));
    case DropVersion(_, id) =>
      WithoutMeans(h.versions, id);
    case DropAll(_) =>
  }

  lemma OwnStep(cfg: Config, u: Universe, op: Op, d: Disk)
    requires Apart(cfg.sha, u) && Sound(cfg) && OpInUse(u, op) && KeptAt(cfg, u, d, op.site)
    requires Fresh(op, Abs(cfg, d, op.site))
    ensures KeptAt(cfg, u, RunOp(cfg, op, d), op.site)
    ensures Abs(cfg, RunOp(cfg, op, d), op.site) == Step(cfg.cipher, cfg.maxVersions, op, Abs(cfg, d, op.site))
  {
    OpRefines(cfg, u, op, d);
    StepInUse(u, cfg.cipher, cfg.maxVersions, op, Abs(cfg, d, op.site));
    StepWellFormed(cfg.cipher, cfg.maxVersions, op, Abs(cfg, d, op.site));
    assert Abs(cfg, RunOp(cfg, op, d), op.site).versions == Load(cfg, RunOp(cfg, op, d), op.site).value.versions;
  }

  lemma OtherStep(cfg: Config, u: Universe, op: Op, d: Disk, t: Site)
    requires Apart(cfg.sha, u) && OpInUse(u, op) && KeptAt(cfg, u, d, op.site)
    requires t in u.sites && t != op.site && KeptAt(cfg, u, d, t)
    ensures KeptAt(cfg, u, RunOp(cfg, op, d), t) && Abs(cfg, RunOp(cfg, op, d), t) == Abs(cfg, d, t)
  {
    OpsFrame(cfg, u, op, d, t);
    AbsIsLocal(cfg, u, t, d, RunOp(cfg, op, d));
  }

  lemma EachStep(cfg: Config, u: Universe, op: Op, d: Disk, t: Site)
    requires Apart(cfg.sha, u) && Sound(cfg) && KeptAt(cfg, u, d, op.site) && OpInUse(u, op)
    requires Fresh(op, Abs(cfg, d, op.site)) && t in u.sites && KeptAt(cfg, u, d, t)
    ensures KeptAt(cfg, u, RunOp(cfg, op, d), t)
    ensures Abs(cfg, RunOp(cfg, op, d), t) ==
            if t == op.site then Step(cfg.cipher, cfg.maxVersions, op, Abs(cfg, d, t)) else Abs(cfg, d, t)
  {
    if t == op.site {
      OwnStep(cfg, u, op, d);
    } else {
      OtherStep(cfg, u, op, d, t);
    }
  }

  lemma Assemble(cfg: Config, u: Universe, s: Site, h: History, d: Disk, e: Disk)
    requires s in u.sites && Kept(cfg, u, d) && Kept(cfg, u, e)
    requires forall t <- u.sites :: Abs(cfg, e, t) == if t == s then h else Abs(cfg, d, t)
    ensures AbsAll(cfg, u, e) == AbsAll(cfg, u, d)[s := h]
  {
  }

  lemma OneStep(cfg: Config, u: Universe, op: Op, d: Disk)
    requires Apart(cfg.sha, u) && Sound(cfg) && Kept(cfg, u, d) && OpInUse(u, op)
    requires Fresh(op, Abs(cfg, d, op.site))
    ensures Kept(cfg, u, RunOp(cfg, op, d))
    ensures AbsAll(cfg, u, RunOp(cfg, op, d)) == StepAll(cfg.cipher, cfg.maxVersions, op, AbsAll(cfg, u, d))
  {
    var e, h := RunOp(cfg, op, d), Step(cfg.cipher, cfg.maxVersions, op, Abs(cfg, d, op.site));
    forall t | t in u.sites
      ensures KeptAt(cfg, u, e, t) && Abs(cfg, e, t) == if t == op.site then h else Abs(cfg, d, t)
    {
      EachStep(cfg, u, op, d, t);
    }
    Assemble(cfg, u, op.site, h, d, e);
  }

  ghost predicate OpsInUse(u: Universe, ops: seq<Op>) {
    forall op <- ops :: OpInUse(u, op)
  }

  ghost predicate FreshAll(c: Cipher, max: int, ops: seq<Op>, hs: map<Site, History>)
    decreases |ops|
  {
    ops == [] || (FreshIn(ops[0], hs) && FreshAll(c, max, ops[1..], StepAll(c, max, ops[0], hs)))
  }

  ghost function RunAll(c: Cipher, max: int, ops: seq<Op>, hs: map<Site, History>): map<Site, History>
    requires FreshAll(c, max, ops, hs)
    decreases |ops|
  {
    if ops == [] then hs else RunAll(c, max, ops[1..], StepAll(c, max, ops[0], hs))
  }

  /** For every sequence of operations the disk and the abstract store stay in step. */
  lemma {:induction false} RunRefines(cfg: Config, u: Universe, ops: seq<Op>, d: Disk)
    requires Apart(cfg.sha, u) && Sound(cfg) && Kept(cfg, u, d) && OpsInUse(u, ops)
    requires FreshAll(cfg.cipher, cfg.maxVersions, ops, AbsAll(cfg, u, d))
    ensures Kept(cfg, u, RunOps(cfg, ops, d))
    ensures AbsAll(cfg, u, RunOps(cfg, ops, d)) == RunAll(cfg.cipher, cfg.maxVersions, ops, AbsAll(cfg, u, d))
    decreases |ops|
  {
    if ops != [] {
      OneStep(cfg, u, ops[0], d);
      RunRefines(cfg, u, ops[1..], RunOp(cfg, ops[0], d));
    }
  }

  /** Reading through the disk is reading the history. */
  lemma ReadsRefine(cfg: Config, d: Disk, s: Site, id: string)
    requires Load(cfg, d, s).Success?
    ensures DiskReadRaw(cfg, d, s, id) == ReadRaw(Abs(cfg, d, s), id)
    ensures DiskReadPlain(cfg, d, s, id) == ReadPlain(cfg.cipher, Abs(cfg, d, s), id)
  {
    var idx := Load(cfg, d, s).value;
    match Resolve(idx.versions, idx.latest, id)
    case Success(entry) =>
      assert entry in idx.versions;
      assert entry.versionID in Ids(idx.versions);
    case Failure(_) =>
  }

  /** An index that is there and does not parse: every operation and every read fails, and nothing is changed. */
  lemma CorruptIsLeftAlone(cfg: Config, op: Op, d: Disk, id: string)
    requires IsDigest(cfg.sha)
    requires IndexPath(cfg.sha, op.site) in d && cfg.decode(d[IndexPath(cfg.sha, op.site)]) == None
    ensures RunOp(cfg, op, d) == d && OpFailing(cfg, op, d).Some?
    ensures DiskInfo(cfg, d, op.site, id) == Failure(CorruptIndex)
    ensures DiskReadRaw(cfg, d, op.site, id) == Failure(CorruptIndex)
    ensures DiskReadPlain(cfg, d, op.site, id) == Failure(CorruptIndex)
  {
  }

  /** A listed version without its blob, as a crash can leave it, reads as an error and not as an empty file. */
  lemma DanglingIsAnError(cfg: Config, d: Disk, s: Site, id: string)
    requires Load(cfg, d, s).Success? && WellFormed(Abs(cfg, d, s), cfg.maxVersions)
    requires id in Ids(Load(cfg, d, s).value.versions) && BlobPath(cfg.sha, Name(s, id)) !in d
    ensures DiskInfo(cfg, d, s, id).Success?
    ensures DiskReadRaw(cfg, d, s, id) == Failure(MissingBlob) && DiskReadPlain(cfg, d, s, id) == Failure(MissingBlob)
  {
    ResolveMeans(Load(cfg, d, s).value.versions, Load(cfg, d, s).value.latest, id);
    var e :| e in Load(cfg, d, s).value.versions && e.versionID == id;
    FindsItself(Load(cfg, d, s).value.versions, e);
  }

  /**
   * Deleting one version removes exactly the subtree of its bucket: another version's blob survives
   * if and only if the two digests differ within their first five digits.
   */
  lemma DropRemovesExactlyItsBucket(cfg: Config, s: Site, id: string, d: Disk, other: Name)
    requires Sound(cfg) && Load(cfg, d, s).Success? && id in Ids(Load(cfg, d, s).value.versions)
    requires BlobPath(cfg.sha, other) in d
    ensures var e := RunOp(cfg, DropVersion(s, id), d);
            At(e, BlobPath(cfg.sha, other)) == At(d, BlobPath(cfg.sha, other))
            <==> BucketPath(cfg.sha, Name(s, id)) != BucketPath(cfg.sha, other)
    ensures forall p :: p != IndexPath(cfg.sha, s) && p != TmpPath(cfg.sha, s) ==>
              At(RunOp(cfg, DropVersion(s, id), d), p) ==
              if BucketPath(cfg.sha, Name(s, id)) <= p then None else At(d, p)
  {
    var idx := Load(cfg, d, s).value;
    var (rest, latest) := AfterDrop(idx.versions, idx.latest, id);
    var wipe := [Wipe(BucketPath(cfg.sha, Name(s, id)))];
    var save := SavePlan(cfg, s, VersionIndex(idx.key, latest, rest));
    OneMicro(d, wipe[0]);
    ExecConcat(d, wipe, save);
    ExecSave(cfg, s, VersionIndex(idx.key, latest, rest), Apply(d, wipe[0]));
    BlobsBesideIndex(cfg.sha, other, s);
    BucketHolds(cfg.sha, Name(s, id), other);
  }

  /**
   * The hypothesis is needed: of two listed versions whose digests begin alike, deleting one loses the other's
   * blob.
   */
  lemma CollidingDropLosesAnother(cfg: Config, s: Site, id: string, x: string, d: Disk)
    requires Sound(cfg) && Load(cfg, d, s).Success? && x != id
    requires id in Ids(Abs(cfg, d, s).versions) && x in Abs(cfg, d, s).blobs
    requires BucketPath(cfg.sha, Name(s, id)) == BucketPath(cfg.sha, Name(s, x))
    ensures var e := RunOp(cfg, DropVersion(s, id), d);
            && Load(cfg, e, s).Success?
            && x in Ids(Abs(cfg, e, s).versions) && x !in Abs(cfg, e, s).blobs
            && x in Step(cfg.cipher, cfg.maxVersions, DropVersion(s, id), Abs(cfg, d, s)).blobs
  {
    var idx := Load(cfg, d, s).value;
    var (rest, latest) := AfterDrop(idx.versions, idx.latest, id);
    var wipe := [Wipe(BucketPath(cfg.sha, Name(s, id)))];
    ExecConcat(d, wipe, SavePlan(cfg, s, VersionIndex(idx.key, latest, rest)));
    ExecSave(cfg, s, VersionIndex(idx.key, latest, rest), Exec(d, wipe));
    WithoutMeans(idx.versions, id);
    BlobsBesideIndex(cfg.sha, Name(s, x), s);
    DropRemovesExactlyItsBucket(cfg, s, id, d, Name(s, x));
    BlobInBucket(cfg.sha, Name(s, x));
  }
}
