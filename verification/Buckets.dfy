/**
 * Deleting a version removes a directory named by the first five digits of its digest. This is exactly when that
 * does harm: an operation does on the disk what it does in the histories if and only if no directory it removes holds
 * the blob of a version that stays listed.
 */
module Buckets {
  import opened Base
  import opened Files
  import opened Versions
  import opened Layout
  import opened Histories
  import opened Plans
  import opened Refinement
  import opened LiveBlobs

  /** SHA-1 has no collision among these keys and versions. Digests that only begin alike are not excluded. */
  ghost predicate Distinct(sha: Digest, u: Universe) {
    && IsDigest(sha)
    && (forall s, t :: s in u.sites && t in u.sites && s.node == t.node && sha(s.key) == sha(t.key) ==> s == t)
    && (forall a, b {:trigger Told(sha, a, b, 40)} :: a in u.names && b in u.names ==> Told(sha, a, b, 40))
  }

  /** For identities as they are minted, that is an assumption about SHA-1 and texts alone. */
  lemma SeparatedIsDistinct(sha: Digest, u: Universe)
    requires IsDigest(sha) && UUIDs(u)
    requires forall s <- u.sites ::
               Separates(sha, KeyTexts(u, s.node), 40) && Separates(sha, VersionTexts(u, s.node), 40)
    ensures Distinct(sha, u)
  {
    forall a, b | a in u.names && b in u.names ensures Told(sha, a, b, 40) {
      SeparatedTells(sha, u, a, b, 40);
    }
    forall s, t | s in u.sites && t in u.sites && s.node == t.node && sha(s.key) == sha(t.key) ensures s == t {
      assert s.key in KeyTexts(u, s.node) && t.key in KeyTexts(u, s.node);
    }
  }

  predicate Commits(op: Op) {
    (op.Write? || op.WriteRaw?) && StoredID(op) != "" && op.clean
  }

  /** The versions whose directories an operation removes. */
  function Wiped(cfg: Config, op: Op, versions: seq<VersionEntry>): set<string> {
    match op
    case DropVersion(_, id) => if id in Ids(versions) then {id} else {}
    case DropAll(_) => Ids(versions)
    case Write(_, _, _, _, _, _, _) =>
      if Commits(op) then Ids(Dropped(cfg.maxVersions, StoredList(op, versions))) else {}
    case WriteRaw(_, _, _, _) =>
      if Commits(op) then Ids(Dropped(cfg.maxVersions, StoredList(op, versions))) else {}
  }

  /** One of the directories removed is the one this blob is in. */
  ghost predicate Hit(cfg: Config, s: Site, wiped: set<string>, n: Name)
    requires IsDigest(cfg.sha)
  {
    exists y :: y in wiped && BucketPath(cfg.sha, Name(s, y)) == BucketPath(cfg.sha, n)
  }

  // ---- One blob ----

  lemma WipesHit(cfg: Config, s: Site, versions: seq<VersionEntry>, d: Disk, n: Name)
    requires IsDigest(cfg.sha)
    ensures At(Exec(d, WipePlan(cfg, s, versions)), BlobPath(cfg.sha, n)) ==
            if Hit(cfg, s, Ids(versions), n) then None else At(d, BlobPath(cfg.sha, n))
  {
    ExecWipes(cfg, s, versions, d, BlobPath(cfg.sha, n));
    forall y | y in Ids(versions)
      ensures BucketPath(cfg.sha, Name(s, y)) <= BlobPath(cfg.sha, n)
              <==> BucketPath(cfg.sha, Name(s, y)) == BucketPath(cfg.sha, n)
    {
      BucketHolds(cfg.sha, Name(s, y), n);
    }
  }

  lemma CommitHits(cfg: Config, s: Site, idx: VersionIndex, versions: seq<VersionEntry>, id: string, blob: Bytes,
                   d: Disk, n: Name)
    requires IsDigest(cfg.sha)
    ensures At(Exec(d, CommitPlan(cfg, s, idx, versions, id, blob)), BlobPath(cfg.sha, n)) ==
            if Hit(cfg, s, Ids(Dropped(cfg.maxVersions, versions)), n) then None
            else if BlobPath(cfg.sha, n) == BlobPath(cfg.sha, Name(s, id)) then Some(blob)
            else At(d, BlobPath(cfg.sha, n))
  {
    var put := [Put(BlobPath(cfg.sha, Name(s, id)), blob)];
    var wipes := WipePlan(cfg, s, Dropped(cfg.maxVersions, versions));
    var after := VersionIndex(idx.key, id, Pruned(cfg.maxVersions, versions));
    ExecConcat(d, put + wipes, SavePlan(cfg, s, after));
    ExecConcat(d, put, wipes);
    OneMicro(d, put[0]);
    WipesHit(cfg, s, Dropped(cfg.maxVersions, versions), Exec(d, put), n);
    ExecSave(cfg, s, after, Exec(Exec(d, put), wipes));
    BlobsBesideIndex(cfg.sha, n, s);
  }

  lemma DropHits(cfg: Config, s: Site, id: string, d: Disk, n: Name)
    requires Sound(cfg) && Load(cfg, d, s).Success? && id in Ids(Load(cfg, d, s).value.versions)
    ensures At(RunOp(cfg, DropVersion(s, id), d), BlobPath(cfg.sha, n)) ==
            if Hit(cfg, s, {id}, n) then None else At(d, BlobPath(cfg.sha, n))
  {
    var idx := Load(cfg, d, s).value;
    var (rest, latest) := AfterDrop(idx.versions, idx.latest, id);
    var wipe := [Wipe(BucketPath(cfg.sha, Name(s, id)))];
    OneMicro(d, wipe[0]);
    ExecConcat(d, wipe, SavePlan(cfg, s, VersionIndex(idx.key, latest, rest)));
    ExecSave(cfg, s, VersionIndex(idx.key, latest, rest), Exec(d, wipe));
    BlobsBesideIndex(cfg.sha, n, s);
    BucketHolds(cfg.sha, Name(s, id), n);
    assert id in {id};
  }

  lemma DropAllHits(cfg: Config, s: Site, d: Disk, n: Name)
    requires Sound(cfg) && Load(cfg, d, s).Success?
    ensures At(RunOp(cfg, DropAll(s), d), BlobPath(cfg.sha, n)) ==
            if Hit(cfg, s, Ids(Load(cfg, d, s).value.versions), n) then None else At(d, BlobPath(cfg.sha, n))
  {
    var idx := Load(cfg, d, s).value;
    var wipes, rm := WipePlan(cfg, s, idx.versions), Remove(IndexPath(cfg.sha, s));
    ExecConcat(d, wipes, [rm]);
    OneMicro(Exec(d, wipes), rm);
    WipesHit(cfg, s, idx.versions, d, n);
    BlobsBesideIndex(cfg.sha, n, s);
  }

  /** The blob an operation has put at this path if it removes no directory over it, None if it puts none there. */
  function PutAt(cfg: Config, op: Op, n: Name): Option<Bytes> {
    if (op.Write? || (op.WriteRaw? && op.meta.versionID != ""))
       && BlobPath(cfg.sha, n) == BlobPath(cfg.sha, Name(op.site, StoredID(op)))
    then Some(StoredBlob(cfg.cipher, op)) else None
  }

  /** What becomes of any blob, listed or not, in one operation. */
  lemma BlobAfter(cfg: Config, op: Op, d: Disk, n: Name)
    requires Sound(cfg) && Load(cfg, d, op.site).Success? && (op.Write? ==> op.id != "")
    ensures At(RunOp(cfg, op, d), BlobPath(cfg.sha, n)) ==
            if Hit(cfg, op.site, Wiped(cfg, op, Load(cfg, d, op.site).value.versions), n) then None
            else if PutAt(cfg, op, n).Some? then PutAt(cfg, op, n) else At(d, BlobPath(cfg.sha, n))
  {
    var s, idx := op.site, Load(cfg, d, op.site).value;
    match op
    case DropVersion(_, id) =>
      if id in Ids(idx.versions) {
        DropHits(cfg, s, id, d, n);
      }
    case DropAll(_) =>
      DropAllHits(cfg, s, d, n);
    case Write(_, id, _, _, _, _, clean) =>
      if clean {
        CommitHits(cfg, s, idx, StoredList(op, idx.versions), id, StoredBlob(cfg.cipher, op), d, n);
      } else {
        OneMicro(d, Put(BlobPath(cfg.sha, Name(s, id)), StoredBlob(cfg.cipher, op)));
      }
    case WriteRaw(_, meta, data, clean) =>
      if meta.versionID != "" {
        if clean {
          CommitHits(cfg, s, idx, StoredList(op, idx.versions), meta.versionID, data, d, n);
        } else {
          OneMicro(d, Put(BlobPath(cfg.sha, Name(s, meta.versionID)), data));
        }
      }
  }

  // ---- The indexes ----

  lemma WipesSpareIndex(cfg: Config, s: Site, versions: seq<VersionEntry>, d: Disk, t: Site)
    requires IsDigest(cfg.sha)
    ensures At(Exec(d, WipePlan(cfg, s, versions)), IndexPath(cfg.sha, t)) == At(d, IndexPath(cfg.sha, t))
  {
    ExecWipes(cfg, s, versions, d, IndexPath(cfg.sha, t));
    forall y | y in Ids(versions) ensures !(BucketPath(cfg.sha, Name(s, y)) <= IndexPath(cfg.sha, t)) {
      IndexOutsideBuckets(cfg.sha, Name(s, y), t, t);
    }
  }

  /** The index an operation leaves behind. */
  function Saved(cfg: Config, op: Op, idx: VersionIndex): VersionIndex {
    match op
    case DropVersion(_, id) =>
      if id !in Ids(idx.versions) then idx
      else
        var (rest, latest) := AfterDrop(idx.versions, idx.latest, id);
        VersionIndex(idx.key, latest, rest)
    case DropAll(s) => VersionIndex(s.key, "", [])
    case Write(_, id, _, _, _, _, clean) =>
      if clean then VersionIndex(idx.key, id, Pruned(cfg.maxVersions, StoredList(op, idx.versions))) else idx
    case WriteRaw(_, meta, _, clean) =>
      if clean && meta.versionID != ""
      then VersionIndex(idx.key, meta.versionID, Pruned(cfg.maxVersions, StoredList(op, idx.versions)))
      else idx
  }

  lemma CommitIndexes(cfg: Config, s: Site, idx: VersionIndex, versions: seq<VersionEntry>, id: string, blob: Bytes,
                      d: Disk, t: Site)
    requires IsDigest(cfg.sha)
    ensures At(Exec(d, CommitPlan(cfg, s, idx, versions, id, blob)), IndexPath(cfg.sha, t)) ==
            if IndexPath(cfg.sha, t) != IndexPath(cfg.sha, s) then At(d, IndexPath(cfg.sha, t))
            else Some(cfg.encode(VersionIndex(idx.key, id, Pruned(cfg.maxVersions, versions))))
  {
    var put := [Put(BlobPath(cfg.sha, Name(s, id)), blob)];
    var wipes := WipePlan(cfg, s, Dropped(cfg.maxVersions, versions));
    var after := VersionIndex(idx.key, id, Pruned(cfg.maxVersions, versions));
    ExecConcat(d, put + wipes, SavePlan(cfg, s, after));
    ExecConcat(d, put, wipes);
    OneMicro(d, put[0]);
    WipesSpareIndex(cfg, s, Dropped(cfg.maxVersions, versions), Exec(d, put), t);
    ExecSave(cfg, s, after, Exec(Exec(d, put), wipes));
    BlobsBesideIndex(cfg.sha, Name(s, id), t);
    IndexOutsideBuckets(cfg.sha, Name(s, id), t, s);
  }

  lemma DropIndexes(cfg: Config, s: Site, id: string, d: Disk, t: Site)
    requires Sound(cfg) && Load(cfg, d, s).Success? && id in Ids(Load(cfg, d, s).value.versions)
    ensures var idx := Load(cfg, d, s).value;
            At(RunOp(cfg, DropVersion(s, id), d), IndexPath(cfg.sha, t)) ==
            if IndexPath(cfg.sha, t) != IndexPath(cfg.sha, s) then At(d, IndexPath(cfg.sha, t))
            else Some(cfg.encode(Saved(cfg, DropVersion(s, id), idx)))
  {
    var idx := Load(cfg, d, s).value;
    var (rest, latest) := AfterDrop(idx.versions, idx.latest, id);
    var wipe := [Wipe(BucketPath(cfg.sha, Name(s, id)))];
    OneMicro(d, wipe[0]);
    ExecConcat(d, wipe, SavePlan(cfg, s, VersionIndex(idx.key, latest, rest)));
    ExecSave(cfg, s, VersionIndex(idx.key, latest, rest), Exec(d, wipe));
    IndexOutsideBuckets(cfg.sha, Name(s, id), t, s);
  }

  lemma DropAllIndexes(cfg: Config, s: Site, d: Disk, t: Site)
    requires Sound(cfg) && Load(cfg, d, s).Success?
    ensures At(RunOp(cfg, DropAll(s), d), IndexPath(cfg.sha, t)) ==
            if IndexPath(cfg.sha, t) != IndexPath(cfg.sha, s) then At(d, IndexPath(cfg.sha, t)) else None
  {
    var idx := Load(cfg, d, s).value;
    var wipes, rm := WipePlan(cfg, s, idx.versions), Remove(IndexPath(cfg.sha, s));
    ExecConcat(d, wipes, [rm]);
    OneMicro(Exec(d, wipes), rm);
    WipesSpareIndex(cfg, s, idx.versions, d, t);
  }

  lemma PutSparesIndex(cfg: Config, n: Name, part: Bytes, d: Disk, t: Site)
    requires IsDigest(cfg.sha)
    ensures At(Exec(d, [Put(BlobPath(cfg.sha, n), part)]), IndexPath(cfg.sha, t)) == At(d, IndexPath(cfg.sha, t))
  {
    OneMicro(d, Put(BlobPath(cfg.sha, n), part));
    BlobsBesideIndex(cfg.sha, n, t);
  }

  /** Whatever buckets coincide, an operation leaves the list it should, and the lists of all other files. */
  lemma IndexAfter(cfg: Config, op: Op, d: Disk, t: Site)
    requires Sound(cfg) && Load(cfg, d, op.site).Success? && Load(cfg, d, t).Success? && (op.Write? ==> op.id != "")
    requires t.node == op.site.node && cfg.sha(t.key) == cfg.sha(op.site.key) ==> t == op.site
    ensures Load(cfg, RunOp(cfg, op, d), t) ==
            if t != op.site then Load(cfg, d, t)
            else Success(Saved(cfg, op, Load(cfg, d, t).value))
  {
    var s, idx := op.site, Load(cfg, d, op.site).value;
    IndexOutsideBuckets(cfg.sha, Name(s, ""), t, s);
    match op
    case DropVersion(_, id) =>
      if id in Ids(idx.versions) {
        DropIndexes(cfg, s, id, d, t);
      }
    case DropAll(_) =>
      DropAllIndexes(cfg, s, d, t);
    case Write(_, id, _, _, _, _, clean) =>
      if clean {
        CommitIndexes(cfg, s, idx, StoredList(op, idx.versions), id, StoredBlob(cfg.cipher, op), d, t);
      } else {
        PutSparesIndex(cfg, Name(s, id), StoredBlob(cfg.cipher, op), d, t);
      }
    case WriteRaw(_, meta, data, clean) =>
      if meta.versionID != "" {
        if clean {
          CommitIndexes(cfg, s, idx, StoredList(op, idx.versions), meta.versionID, data, d, t);
        } else {
          PutSparesIndex(cfg, Name(s, meta.versionID), data, d, t);
        }
      }
  }

  // ---- The exact condition ----

  /** What the histories say a logical file becomes. */
  function Meant(cfg: Config, op: Op, s: Site, h: History): History {
    if s == op.site then Step(cfg.cipher, cfg.maxVersions, op, h) else h
  }

  lemma MeantIsSaved(cfg: Config, op: Op, d: Disk, t: Site)
    requires Load(cfg, d, t).Success? && (op.Write? ==> op.id != "")
    ensures var idx, h' := Load(cfg, d, t).value, Meant(cfg, op, t, Abs(cfg, d, t));
            var after := if t == op.site then Saved(cfg, op, idx) else idx;
            h'.versions == after.versions && h'.latest == after.latest
  {
  }

  /** An operation stores a blob under this name. */
  predicate Stores(op: Op, n: Name) {
    (op.Write? || (op.WriteRaw? && op.meta.versionID != "")) && n == Name(op.site, StoredID(op))
  }

  /** The bytes a version has in the history after an operation: those just stored, or those it had. */
  lemma MeantBlob(cfg: Config, op: Op, d: Disk, t: Site, x: string)
    requires Load(cfg, d, t).Success? && WellFormed(Abs(cfg, d, t), cfg.maxVersions) && Complete(Abs(cfg, d, t))
    requires Fresh(op, Abs(cfg, d, t)) || t != op.site
    requires x in Ids(Meant(cfg, op, t, Abs(cfg, d, t)).versions)
    ensures var h' := Meant(cfg, op, t, Abs(cfg, d, t));
            && x in h'.blobs
            && Some(h'.blobs[x]) == if Stores(op, Name(t, x)) then Some(StoredBlob(cfg.cipher, op))
                                    else At(d, BlobPath(cfg.sha, Name(t, x)))
    ensures x in ListedAt(cfg, d, t) || Stores(op, Name(t, x))
  {
    var h := Abs(cfg, d, t);
    if t == op.site {
      StepWellFormed(cfg.cipher, cfg.maxVersions, op, h);
      MeantIDs(cfg, op, h);
    }
  }

  lemma MeantIDs(cfg: Config, op: Op, h: History)
    ensures forall x <- Ids(Step(cfg.cipher, cfg.maxVersions, op, h).versions) ::
              x in Ids(h.versions) || Stores(op, Name(op.site, x))
  {
    match op
    case DropVersion(_, id) => WithoutMeans(h.versions, id);
    case DropAll(_) =>
    case Write(_, _, _, _, _, _, _) =>
      StoredListMeans(op, h.versions);
      PrunedMeans(cfg.maxVersions, StoredList(op, h.versions));
    case WriteRaw(_, _, _, _) =>
      StoredListMeans(op, h.versions);
      PrunedMeans(cfg.maxVersions, StoredList(op, h.versions));
  }

  /** The disk of a store whose every listed version has its blob. */
  ghost predicate InOrder(cfg: Config, sites: set<Site>, d: Disk) {
    WellKept(cfg, sites, d) && forall s <- sites :: Complete(Abs(cfg, d, s))
  }

  /** What an operation needs, besides harmless buckets. */
  ghost predicate Proper(cfg: Config, sites: set<Site>, op: Op, d: Disk) {
    && Sound(cfg) && InOrder(cfg, sites, d) && op.site in sites && Fresh(op, Abs(cfg, d, op.site))
    && Distinct(cfg.sha, Live(cfg, sites, d, Written(op)))
  }

  /** No directory an operation removes holds the blob of a version of this file that is listed afterwards. */
  ghost predicate Spared(cfg: Config, op: Op, d: Disk, t: Site)
    requires IsDigest(cfg.sha) && Load(cfg, d, op.site).Success? && Load(cfg, d, t).Success?
  {
    forall x <- Ids(Meant(cfg, op, t, Abs(cfg, d, t)).versions) ::
      !Hit(cfg, op.site, Wiped(cfg, op, Load(cfg, d, op.site).value.versions), Name(t, x))
  }

  /** Among versions whose digests differ, only the one an operation stores gets its blob written. */
  lemma PutIsStored(cfg: Config, op: Op, u: Universe, n: Name)
    requires Distinct(cfg.sha, u) && n in u.names && Written(op) <= u.names
    ensures PutAt(cfg, op, n) == if Stores(op, n) then Some(StoredBlob(cfg.cipher, op)) else None
  {
    if op.Write? || (op.WriteRaw? && op.meta.versionID != "") {
      assert Told(cfg.sha, n, Name(op.site, StoredID(op)), 40);
      BlobsTold(cfg.sha, n, Name(op.site, StoredID(op)));
    }
  }

  lemma ListedIsLive(cfg: Config, sites: set<Site>, op: Op, d: Disk, t: Site, x: string)
    requires t in sites && (op.Write? ==> op.id != "") && (x in ListedAt(cfg, d, t) || Stores(op, Name(t, x)))
    ensures Name(t, x) in Live(cfg, sites, d, Written(op)).names
  {
  }

  /** A version listed afterwards has lost its blob if its bucket was hit, and otherwise has the right one. */
  lemma ListedBlobAfter(cfg: Config, sites: set<Site>, op: Op, d: Disk, t: Site, x: string)
    requires Proper(cfg, sites, op, d) && t in sites && x in Ids(Meant(cfg, op, t, Abs(cfg, d, t)).versions)
    ensures var h' := Meant(cfg, op, t, Abs(cfg, d, t));
            && x in h'.blobs
            && At(RunOp(cfg, op, d), BlobPath(cfg.sha, Name(t, x))) ==
               if Hit(cfg, op.site, Wiped(cfg, op, Load(cfg, d, op.site).value.versions), Name(t, x)) then None
               else Some(h'.blobs[x])
  {
    BlobAfter(cfg, op, d, Name(t, x));
    MeantBlob(cfg, op, d, t, x);
    ListedIsLive(cfg, sites, op, d, t, x);
    PutIsStored(cfg, op, Live(cfg, sites, d, Written(op)), Name(t, x));
  }

  /** A disk holds a history exactly if its index lists the same and each blob is there. */
  lemma HoldsIff(cfg: Config, e: Disk, t: Site, h: History)
    requires Load(cfg, e, t).Success? && Complete(h)
    requires Load(cfg, e, t).value.versions == h.versions && Load(cfg, e, t).value.latest == h.latest
    ensures Abs(cfg, e, t) == h <==>
            forall x <- Ids(h.versions) :: At(e, BlobPath(cfg.sha, Name(t, x))) == Some(h.blobs[x])
  {
    var blobs := Abs(cfg, e, t).blobs;
    if blobs == h.blobs {
      forall x | x in Ids(h.versions) ensures At(e, BlobPath(cfg.sha, Name(t, x))) == Some(h.blobs[x]) {
        assert x in blobs;
      }
    }
  }

  lemma SiteHoldsIff(cfg: Config, sites: set<Site>, op: Op, d: Disk, t: Site)
    requires Proper(cfg, sites, op, d) && t in sites
    ensures Load(cfg, RunOp(cfg, op, d), t).Success?
    ensures Abs(cfg, RunOp(cfg, op, d), t) == Meant(cfg, op, t, Abs(cfg, d, t)) <==> Spared(cfg, op, d, t)
  {
    var h, h' := Abs(cfg, d, t), Meant(cfg, op, t, Abs(cfg, d, t));
    IndexAfter(cfg, op, d, t);
    MeantIsSaved(cfg, op, d, t);
    if t == op.site {
      StepWellFormed(cfg.cipher, cfg.maxVersions, op, h);
    }
    forall x | x in Ids(h'.versions)
      ensures At(RunOp(cfg, op, d), BlobPath(cfg.sha, Name(t, x))) == Some(h'.blobs[x]) <==>
              !Hit(cfg, op.site, Wiped(cfg, op, Load(cfg, d, op.site).value.versions), Name(t, x))
    {
      ListedBlobAfter(cfg, sites, op, d, t, x);
    }
    HoldsIff(cfg, RunOp(cfg, op, d), t, h');
  }

  /** The histories of all files after an operation. */
  ghost function AllMeant(cfg: Config, sites: set<Site>, op: Op, d: Disk): map<Site, History>
    requires WellKept(cfg, sites, d)
  {
    map t | t in sites :: Meant(cfg, op, t, Abs(cfg, d, t))
  }

  ghost predicate AllSpared(cfg: Config, sites: set<Site>, op: Op, d: Disk)
    requires IsDigest(cfg.sha) && WellKept(cfg, sites, d) && op.site in sites
  {
    forall t <- sites :: Spared(cfg, op, d, t)
  }

  /** The disk after an operation holds the histories it should. */
  ghost predicate Follows(cfg: Config, sites: set<Site>, op: Op, d: Disk)
    requires IsDigest(cfg.sha) && WellKept(cfg, sites, d)
  {
    WellKept(cfg, sites, RunOp(cfg, op, d)) && AbsAt(cfg, sites, RunOp(cfg, op, d)) == AllMeant(cfg, sites, op, d)
  }

  lemma AllHoldIff(cfg: Config, sites: set<Site>, e: Disk, hs: map<Site, History>)
    requires hs.Keys == sites && forall t <- sites :: Load(cfg, e, t).Success? && WellFormed(hs[t], cfg.maxVersions)
    ensures WellKept(cfg, sites, e) && AbsAt(cfg, sites, e) == hs <==> forall t <- sites :: Abs(cfg, e, t) == hs[t]
  {
    if WellKept(cfg, sites, e) && AbsAt(cfg, sites, e) == hs {
      forall t | t in sites ensures Abs(cfg, e, t) == hs[t] {
        assert AbsAt(cfg, sites, e)[t] == hs[t];
      }
    }
  }

  lemma MeantWellFormed(cfg: Config, sites: set<Site>, op: Op, d: Disk, t: Site)
    requires Proper(cfg, sites, op, d) && t in sites
    ensures WellFormed(Meant(cfg, op, t, Abs(cfg, d, t)), cfg.maxVersions)
    ensures Complete(Meant(cfg, op, t, Abs(cfg, d, t)))
  {
    if t == op.site {
      StepWellFormed(cfg.cipher, cfg.maxVersions, op, Abs(cfg, d, t));
    }
  }

  /**
   * One operation on the disk is one step of the histories if and only if no directory it removes, for retention or
   * for a delete, holds the blob of a version that is listed afterwards, of this file or of any other.
   */
  lemma OpFollowsIff(cfg: Config, sites: set<Site>, op: Op, d: Disk)
    requires Proper(cfg, sites, op, d)
    ensures Follows(cfg, sites, op, d) <==> AllSpared(cfg, sites, op, d)
  {
    var e, hs := RunOp(cfg, op, d), AllMeant(cfg, sites, op, d);
    forall t | t in sites
      ensures Load(cfg, e, t).Success? && WellFormed(hs[t], cfg.maxVersions)
      ensures Abs(cfg, e, t) == hs[t] <==> Spared(cfg, op, d, t)
    {
      SiteHoldsIff(cfg, sites, op, d, t);
      MeantWellFormed(cfg, sites, op, d, t);
    }
    AllHoldIff(cfg, sites, e, hs);
  }

  // ---- Whole runs ----

  ghost predicate RunDistinct(cfg: Config, sites: set<Site>, ops: seq<Op>, d: Disk)
    requires IsDigest(cfg.sha)
    decreases |ops|
  {
    ops == [] || (ops[0].site in sites && Distinct(cfg.sha, Live(cfg, sites, d, Written(ops[0])))
                  && RunDistinct(cfg, sites, ops[1..], RunOp(cfg, ops[0], d)))
  }

  /** After every operation of the run the disk holds the histories it should. */
  ghost predicate RunFollows(cfg: Config, sites: set<Site>, ops: seq<Op>, d: Disk)
    requires IsDigest(cfg.sha) && WellKept(cfg, sites, d)
    decreases |ops|
  {
    ops == [] || (Follows(cfg, sites, ops[0], d) && RunFollows(cfg, sites, ops[1..], RunOp(cfg, ops[0], d)))
  }

  /** No operation of the run removes the directory of a blob whose version stays listed. */
  ghost predicate RunSpared(cfg: Config, sites: set<Site>, ops: seq<Op>, d: Disk)
    requires IsDigest(cfg.sha)
    decreases |ops|
  {
    ops == [] || (ops[0].site in sites && WellKept(cfg, sites, d) && AllSpared(cfg, sites, ops[0], d)
                  && RunSpared(cfg, sites, ops[1..], RunOp(cfg, ops[0], d)))
  }

  lemma OneHistoryChanges(hs: map<Site, History>, s: Site, h: History, hs': map<Site, History>)
    requires s in hs && hs'.Keys == hs.Keys && forall t <- hs :: hs'[t] == if t == s then h else hs[t]
    ensures hs' == hs[s := h]
  {
  }

  lemma MeantIsStep(cfg: Config, sites: set<Site>, op: Op, d: Disk)
    requires WellKept(cfg, sites, d) && op.site in sites
    ensures AllMeant(cfg, sites, op, d) == StepAll(cfg.cipher, cfg.maxVersions, op, AbsAt(cfg, sites, d))
  {
    OneHistoryChanges(AbsAt(cfg, sites, d), op.site, Meant(cfg, op, op.site, Abs(cfg, d, op.site)),
                      AllMeant(cfg, sites, op, d));
  }

  lemma HoldsComplete(cfg: Config, sites: set<Site>, e: Disk, hs: map<Site, History>)
    requires WellKept(cfg, sites, e) && AbsAt(cfg, sites, e) == hs && forall t <- sites :: t in hs && Complete(hs[t])
    ensures InOrder(cfg, sites, e)
  {
    forall t | t in sites ensures Complete(Abs(cfg, e, t)) {
      assert AbsAt(cfg, sites, e)[t] == hs[t];
    }
  }

  lemma FollowedOnce(cfg: Config, sites: set<Site>, op: Op, d: Disk)
    requires Proper(cfg, sites, op, d) && Follows(cfg, sites, op, d)
    ensures InOrder(cfg, sites, RunOp(cfg, op, d))
    ensures AbsAt(cfg, sites, RunOp(cfg, op, d)) == StepAll(cfg.cipher, cfg.maxVersions, op, AbsAt(cfg, sites, d))
  {
    MeantIsStep(cfg, sites, op, d);
    forall t | t in sites ensures Complete(AllMeant(cfg, sites, op, d)[t]) {
      MeantWellFormed(cfg, sites, op, d, t);
    }
    HoldsComplete(cfg, sites, RunOp(cfg, op, d), AllMeant(cfg, sites, op, d));
  }

  /**
   * For every sequence of operations from a disk in order: the disk holds the histories after each of them if and only
   * if none of them removes a directory in which a version that stays listed has its blob.
   */
  lemma {:induction false} RunFollowsIff(cfg: Config, sites: set<Site>, ops: seq<Op>, d: Disk)
    requires Sound(cfg) && InOrder(cfg, sites, d) && RunDistinct(cfg, sites, ops, d)
    requires FreshAll(cfg.cipher, cfg.maxVersions, ops, AbsAt(cfg, sites, d))
    ensures RunFollows(cfg, sites, ops, d) <==> RunSpared(cfg, sites, ops, d)
    ensures RunFollows(cfg, sites, ops, d) ==> WellKept(cfg, sites, RunOps(cfg, ops, d))
    ensures RunFollows(cfg, sites, ops, d) ==>
              AbsAt(cfg, sites, RunOps(cfg, ops, d)) == RunAll(cfg.cipher, cfg.maxVersions, ops, AbsAt(cfg, sites, d))
    decreases |ops|
  {
    if ops != [] {
      assert Proper(cfg, sites, ops[0], d);
      OpFollowsIff(cfg, sites, ops[0], d);
      if Follows(cfg, sites, ops[0], d) {
        FollowedOnce(cfg, sites, ops[0], d);
        RunFollowsIff(cfg, sites, ops[1..], RunOp(cfg, ops[0], d));
      }
    }
  }

  /** Blobs whose digests differ in their first digits are never hit. */
  lemma ApartIsSpared(cfg: Config, sites: set<Site>, op: Op, d: Disk)
    requires Proper(cfg, sites, op, d) && ApartFor(cfg, sites, op, d)
    ensures AllSpared(cfg, sites, op, d)
  {
    var wiped := Wiped(cfg, op, Load(cfg, d, op.site).value.versions);
    var u := Live(cfg, sites, d, Written(op));
    WipedIsLive(cfg, sites, op, d);
    forall t, x | t in sites && x in Ids(Meant(cfg, op, t, Abs(cfg, d, t)).versions)
      ensures !Hit(cfg, op.site, wiped, Name(t, x))
    {
      MeantBlob(cfg, op, d, t, x);
      assert Name(t, x) in u.names;
      forall y | y in wiped ensures BucketPath(cfg.sha, Name(op.site, y)) != BucketPath(cfg.sha, Name(t, x)) {
        BucketsDiffer(cfg.sha, u, Name(op.site, y), Name(t, x));
      }
    }
  }

  /** What an operation removes was listed or just written, and is not listed any more. */
  lemma WipedIsOff(cfg: Config, op: Op, h: History)
    requires WellFormed(h, cfg.maxVersions) && Fresh(op, h)
    ensures forall y <- Wiped(cfg, op, h.versions) ::
              (y in Ids(h.versions) || Stores(op, Name(op.site, y)))
              && y !in Ids(Step(cfg.cipher, cfg.maxVersions, op, h).versions)
  {
    match op
    case DropVersion(_, id) => WithoutMeans(h.versions, id);
    case DropAll(_) =>
    case Write(_, _, _, _, _, _, _) =>
      StoredListMeans(op, h.versions);
      PrunedMeans(cfg.maxVersions, StoredList(op, h.versions));
    case WriteRaw(_, _, _, _) =>
      StoredListMeans(op, h.versions);
      PrunedMeans(cfg.maxVersions, StoredList(op, h.versions));
  }

  lemma WipedIsLive(cfg: Config, sites: set<Site>, op: Op, d: Disk)
    requires Proper(cfg, sites, op, d)
    ensures forall y <- Wiped(cfg, op, Load(cfg, d, op.site).value.versions) ::
              Name(op.site, y) in Live(cfg, sites, d, Written(op)).names
              && y !in Ids(Meant(cfg, op, op.site, Abs(cfg, d, op.site)).versions)
  {
    WipedIsOff(cfg, op, Abs(cfg, d, op.site));
  }

  // ---- Nothing is left behind ----

  /** Whatever an operation takes off a list, it removes from the disk, however digests collide. */
  lemma UnlistedIsGone(cfg: Config, op: Op, d: Disk, y: string)
    requires Sound(cfg) && Load(cfg, d, op.site).Success? && Fresh(op, Abs(cfg, d, op.site))
    requires y in Ids(Abs(cfg, d, op.site).versions)
    requires y !in Ids(Step(cfg.cipher, cfg.maxVersions, op, Abs(cfg, d, op.site)).versions)
    ensures BlobPath(cfg.sha, Name(op.site, y)) !in RunOp(cfg, op, d)
  {
    UnlistedIsWiped(cfg, op, Abs(cfg, d, op.site), y);
    BlobAfter(cfg, op, d, Name(op.site, y));
  }

  lemma UnlistedIsWiped(cfg: Config, op: Op, h: History, y: string)
    requires Fresh(op, h) && y in Ids(h.versions)
    requires y !in Ids(Step(cfg.cipher, cfg.maxVersions, op, h).versions)
    ensures y in Wiped(cfg, op, h.versions)
  {
    match op
    case DropVersion(_, id) => WithoutMeans(h.versions, id);
    case DropAll(_) =>
    case Write(_, _, _, _, _, _, _) =>
      StoredListMeans(op, h.versions);
      PrunedMeans(cfg.maxVersions, StoredList(op, h.versions));
    case WriteRaw(_, _, _, _) =>
      StoredListMeans(op, h.versions);
      PrunedMeans(cfg.maxVersions, StoredList(op, h.versions));
  }

  /** A version has a blob on the disk exactly if it is listed. */
  ghost predicate InPlace(cfg: Config, d: Disk, n: Name) {
    Load(cfg, d, n.site).Success?
    && (BlobPath(cfg.sha, n) in d <==> n.id in Ids(Load(cfg, d, n.site).value.versions))
  }

  /** No version in use has a blob on the disk without being listed, nor the other way round. */
  ghost predicate NoStrays(cfg: Config, u: Universe, d: Disk) {
    forall n <- u.names :: InPlace(cfg, d, n)
  }

  /** A write whose source breaks off before its version was ever listed. */
  predicate Strays(op: Op, versions: seq<VersionEntry>) {
    (op.Write? || op.WriteRaw?) && StoredID(op) != "" && !op.clean && StoredID(op) !in Ids(versions)
  }

  lemma HitIff(cfg: Config, u: Universe, op: Op, d: Disk, n: Name)
    requires Apart(cfg.sha, u) && OpInUse(u, op) && KeptAt(cfg, u, d, op.site) && n in u.names
    requires Fresh(op, Abs(cfg, d, op.site))
    ensures Hit(cfg, op.site, Wiped(cfg, op, Load(cfg, d, op.site).value.versions), n) <==>
            n.site == op.site && n.id in Wiped(cfg, op, Load(cfg, d, op.site).value.versions)
  {
    var wiped := Wiped(cfg, op, Load(cfg, d, op.site).value.versions);
    WipedIsOff(cfg, op, Abs(cfg, d, op.site));
    forall y | y in wiped
      ensures BucketPath(cfg.sha, Name(op.site, y)) == BucketPath(cfg.sha, n) <==> Name(op.site, y) == n
    {
      BucketsDiffer(cfg.sha, u, Name(op.site, y), n);
    }
    if n.site == op.site && n.id in wiped {
      assert Name(op.site, n.id) == n;
    }
  }

  lemma PutAtIff(cfg: Config, u: Universe, op: Op, n: Name)
    requires Apart(cfg.sha, u) && OpInUse(u, op) && n in u.names
    ensures PutAt(cfg, op, n).Some? <==> Stores(op, n)
  {
    if op.Write? || (op.WriteRaw? && op.meta.versionID != "") {
      BlobsDiffer(cfg.sha, u, n, Name(op.site, StoredID(op)));
    }
  }

  /** What is listed after an operation: what was or has been stored, and was not removed. */
  lemma ListedAfterIff(cfg: Config, op: Op, h: History, x: string)
    requires WellFormed(h, cfg.maxVersions) && Fresh(op, h)
    ensures x in Ids(Step(cfg.cipher, cfg.maxVersions, op, h).versions) <==>
            x !in Wiped(cfg, op, h.versions)
            && (x in Ids(h.versions) || (Stores(op, Name(op.site, x)) && !Strays(op, h.versions)))
  {
    MeantIDs(cfg, op, h);
    WipedIsOff(cfg, op, h);
    if x in Ids(h.versions) && x !in Ids(Step(cfg.cipher, cfg.maxVersions, op, h).versions) {
      UnlistedIsWiped(cfg, op, h, x);
    }
    if op.Write? || op.WriteRaw? {
      StoredListMeans(op, h.versions);
      PrunedMeans(cfg.maxVersions, StoredList(op, h.versions));
    }
  }

  lemma StaysInPlaceIff(cfg: Config, u: Universe, op: Op, d: Disk, n: Name)
    requires Apart(cfg.sha, u) && Sound(cfg) && OpInUse(u, op) && KeptAt(cfg, u, d, op.site) && n in u.names
    requires Fresh(op, Abs(cfg, d, op.site)) && InPlace(cfg, d, n)
    ensures InPlace(cfg, RunOp(cfg, op, d), n) <==>
            !(Strays(op, Load(cfg, d, op.site).value.versions) && n == Name(op.site, StoredID(op)))
  {
    var h := Abs(cfg, d, op.site);
    HitIff(cfg, u, op, d, n);
    PutAtIff(cfg, u, op, n);
    BlobAfter(cfg, op, d, n);
    IndexAfter(cfg, op, d, n.site);
    MeantIsSaved(cfg, op, d, op.site);
    ListedAfterIff(cfg, op, h, n.id);
  }

  /**
   * A disk on which exactly the listed versions have blobs stays so through an operation if and only if that is not a
   * write whose source breaks off before its version was ever listed.
   */
  lemma OpStraysIff(cfg: Config, u: Universe, op: Op, d: Disk)
    requires Apart(cfg.sha, u) && Sound(cfg) && OpInUse(u, op) && KeptAt(cfg, u, d, op.site)
    requires Fresh(op, Abs(cfg, d, op.site)) && NoStrays(cfg, u, d)
    ensures NoStrays(cfg, u, RunOp(cfg, op, d)) <==> !Strays(op, Load(cfg, d, op.site).value.versions)
  {
    forall n | n in u.names
      ensures InPlace(cfg, RunOp(cfg, op, d), n) <==>
              !(Strays(op, Load(cfg, d, op.site).value.versions) && n == Name(op.site, StoredID(op)))
    {
      StaysInPlaceIff(cfg, u, op, d, n);
    }
    if Strays(op, Load(cfg, d, op.site).value.versions) {
      assert Name(op.site, StoredID(op)) in u.names;
    }
  }

  /** No write of the run breaks off before its version was ever listed. */
  ghost predicate RunStrayless(cfg: Config, ops: seq<Op>, d: Disk)
    requires IsDigest(cfg.sha)
    decreases |ops|
  {
    ops == [] || (Load(cfg, d, ops[0].site).Success? && !Strays(ops[0], Load(cfg, d, ops[0].site).value.versions)
                  && RunStrayless(cfg, ops[1..], RunOp(cfg, ops[0], d)))
  }

  /** After every such run, deletes and retention included, a version has a blob on the disk exactly if it is listed. */
  lemma {:induction false} RunLeavesNoStrays(cfg: Config, u: Universe, ops: seq<Op>, d: Disk)
    requires Apart(cfg.sha, u) && Sound(cfg) && Kept(cfg, u, d) && OpsInUse(u, ops) && NoStrays(cfg, u, d)
    requires FreshAll(cfg.cipher, cfg.maxVersions, ops, AbsAll(cfg, u, d)) && RunStrayless(cfg, ops, d)
    ensures NoStrays(cfg, u, RunOps(cfg, ops, d))
    decreases |ops|
  {
    if ops != [] {
      assert ops[0] in ops && KeptAt(cfg, u, d, ops[0].site);
      OpStraysIff(cfg, u, ops[0], d);
      OneStep(cfg, u, ops[0], d);
      RunLeavesNoStrays(cfg, u, ops[1..], RunOp(cfg, ops[0], d));
    }
  }
}
