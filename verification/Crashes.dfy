/** What is found on disk when the process stops anywhere inside a store operation. */
module Crashes {
  import opened Base
  import opened Files
  import opened Versions
  import opened Layout
  import opened Histories
  import opened Plans
  import opened Refinement

  lemma {:induction false} CrashStaysLocal(sha: Digest, u: Universe, s: Site, d: Disk, ms: seq<Micro>, c: Disk)
    requires IsDigest(sha) && AllLocal(sha, u, s, ms) && CrashPoint(d, ms, c)
    ensures SameBeyond(sha, u, s, d, c)
    decreases |ms|
  {
    if ms != [] {
      ApplyStaysLocal(sha, u, s, d, d, ms[0]);
      if CrashPoint(Apply(d, ms[0]), ms[1..], c) {
        CrashStaysLocal(sha, u, s, Apply(d, ms[0]), ms[1..], c);
      } else if ms[0].Wipe? {
        forall p | !Owns(sha, u, s, p) ensures At(c, p) == At(d, p) {
          assert !(ms[0].dir <= p);
        }
      }
    }
  }

  /** While blobs are being removed, a file is as it was or gone, and gone only from those buckets. */
  lemma {:induction false} CrashInWipes(cfg: Config, s: Site, versions: seq<VersionEntry>, d: Disk, c: Disk, p: Path)
    requires IsDigest(cfg.sha) && CrashPoint(d, WipePlan(cfg, s, versions), c)
    ensures At(c, p) == At(d, p) || At(c, p) == None
    ensures (forall x :: x in Ids(versions) ==> !(BucketPath(cfg.sha, Name(s, x)) <= p)) ==> At(c, p) == At(d, p)
    decreases |versions|
  {
    if versions != [] {
      var plan := WipePlan(cfg, s, versions);
      assert plan[1..] == WipePlan(cfg, s, versions[1..]);
      assert forall e :: e in versions <==> e == versions[0] || e in versions[1..];
      assert versions[0].versionID in Ids(versions);
      if CrashPoint(Apply(d, plan[0]), plan[1..], c) {
        CrashInWipes(cfg, s, versions[1..], Apply(d, plan[0]), c, p);
      }
    }
  }

  /** The index of a logical file is unchanged and so is the blob of a version. */
  ghost predicate Untouched(cfg: Config, s: Site, d: Disk, c: Disk, x: string) {
    At(c, BlobPath(cfg.sha, Name(s, x))) == At(d, BlobPath(cfg.sha, Name(s, x)))
  }

  ghost predicate Gone(cfg: Config, s: Site, c: Disk, x: string) {
    BlobPath(cfg.sha, Name(s, x)) !in c
  }

  /** The blob of a version is being overwritten. */
  ghost predicate PartlyWritten(cfg: Config, s: Site, c: Disk, x: string, blob: Bytes) {
    exists n: nat :: n <= |blob| && At(c, BlobPath(cfg.sha, Name(s, x))) == Some(blob[..n])
  }

  lemma CrashInPut(cfg: Config, u: Universe, s: Site, id: string, blob: Bytes, d: Disk, c: Disk)
    requires Apart(cfg.sha, u) && Name(s, id) in u.names
    requires CrashPoint(d, [Put(BlobPath(cfg.sha, Name(s, id)), blob)], c)
    ensures At(c, IndexPath(cfg.sha, s)) == At(d, IndexPath(cfg.sha, s))
    ensures forall x :: x != id && Name(s, x) in u.names ==> Untouched(cfg, s, d, c, x)
    ensures Untouched(cfg, s, d, c, id) || PartlyWritten(cfg, s, c, id, blob)
  {
    OneMicro(d, Put(BlobPath(cfg.sha, Name(s, id)), blob));
    BlobsBesideIndex(cfg.sha, Name(s, id), s);
    assert blob[..|blob|] == blob;
    forall x | x != id && Name(s, x) in u.names ensures Untouched(cfg, s, d, c, x) {
      BlobsDiffer(cfg.sha, u, Name(s, x), Name(s, id));
    }
  }

  /**
   * A write stopped anywhere leaves the new state, or the old index with every blob it lists as it
   * was, except those that retention was dropping and, if the version was listed before, its own.
   */
  lemma CommitCrash(cfg: Config, u: Universe, s: Site, idx: VersionIndex, versions: seq<VersionEntry>, id: string,
                    blob: Bytes, d: Disk, c: Disk)
    requires Apart(cfg.sha, u) && InUse(u, s, versions) && Name(s, id) in u.names
    requires CrashPoint(d, CommitPlan(cfg, s, idx, versions, id, blob), c)
    ensures c == Exec(d, CommitPlan(cfg, s, idx, versions, id, blob))
            || OldIndex(cfg, u, s, Ids(Dropped(cfg.maxVersions, versions)), id, blob, d, c)
  {
    var dropped := Dropped(cfg.maxVersions, versions);
    PrunedMeans(cfg.maxVersions, versions);
    var put := [Put(BlobPath(cfg.sha, Name(s, id)), blob)];
    var wipes := WipePlan(cfg, s, dropped);
    var save := SavePlan(cfg, s, VersionIndex(idx.key, id, Pruned(cfg.maxVersions, versions)));
    CrashConcat(d, put + wipes, save, c);
    CrashConcat(d, put, wipes, c);
    ExecConcat(d, put + wipes, save);
    ExecConcat(d, put, wipes);
    CrashConcat(d, put, [], Exec(d, put));
    assert put + [] == put;
    CrashInPut(cfg, u, s, id, blob, d, Exec(d, put));
    if CrashPoint(d, put, c) {
      CrashInPut(cfg, u, s, id, blob, d, c);
    } else if CrashPoint(Exec(d, put), wipes, c) {
      AfterPut(cfg, u, s, dropped, id, blob, d, Exec(d, put), c);
    } else {
      var d2 := Exec(Exec(d, put), wipes);
      CrashConcat(Exec(d, put), wipes, [], d2);
      assert wipes + [] == wipes;
      AfterPut(cfg, u, s, dropped, id, blob, d, Exec(d, put), d2);
      DuringSave(cfg, u, s, VersionIndex(idx.key, id, Pruned(cfg.maxVersions, versions)), Ids(dropped), id, blob, d,
                 d2, c);
    }
  }

  /** The index has not changed; blobs are as they were, except as `dropped` and `id` allow. */
  ghost predicate OldIndex(cfg: Config, u: Universe, s: Site, dropped: set<string>, id: string, blob: Bytes, d: Disk,
                           c: Disk) {
    && At(c, IndexPath(cfg.sha, s)) == At(d, IndexPath(cfg.sha, s))
    && (forall x :: x != id && Name(s, x) in u.names ==>
          Untouched(cfg, s, d, c, x) || (x in dropped && Gone(cfg, s, c, x)))
    && (Untouched(cfg, s, d, c, id) || PartlyWritten(cfg, s, c, id, blob) || (id in dropped && Gone(cfg, s, c, id)))
  }

  lemma AfterPut(cfg: Config, u: Universe, s: Site, dropped: seq<VersionEntry>, id: string, blob: Bytes, d: Disk,
                 d1: Disk, c: Disk)
    requires Apart(cfg.sha, u) && InUse(u, s, dropped) && Name(s, id) in u.names
    requires OldIndex(cfg, u, s, {}, id, blob, d, d1)
    requires CrashPoint(d1, WipePlan(cfg, s, dropped), c)
    ensures OldIndex(cfg, u, s, Ids(dropped), id, blob, d, c)
  {
    CrashInWipes(cfg, s, dropped, d1, c, IndexPath(cfg.sha, s));
    forall x ensures !(BucketPath(cfg.sha, Name(s, x)) <= IndexPath(cfg.sha, s)) {
      IndexOutsideBuckets(cfg.sha, Name(s, x), s, s);
    }
    forall x | Name(s, x) in u.names
      ensures Untouched(cfg, s, d1, c, x) || (x in Ids(dropped) && Gone(cfg, s, c, x))
    {
      CrashInWipes(cfg, s, dropped, d1, c, BlobPath(cfg.sha, Name(s, x)));
      if x !in Ids(dropped) {
        forall y | y in Ids(dropped) ensures !(BucketPath(cfg.sha, Name(s, y)) <= BlobPath(cfg.sha, Name(s, x))) {
          BucketHolds(cfg.sha, Name(s, y), Name(s, x));
          BucketsDiffer(cfg.sha, u, Name(s, y), Name(s, x));
        }
      }
    }
  }

  lemma DuringSave(cfg: Config, u: Universe, s: Site, idx: VersionIndex, dropped: set<string>, id: string, blob: Bytes,
                   d: Disk, d2: Disk, c: Disk)
    requires Apart(cfg.sha, u) && OldIndex(cfg, u, s, dropped, id, blob, d, d2)
    requires CrashPoint(d2, SavePlan(cfg, s, idx), c)
    ensures c == Exec(d2, SavePlan(cfg, s, idx)) || OldIndex(cfg, u, s, dropped, id, blob, d, c)
  {
    IndexOutsideBuckets(cfg.sha, Name(s, id), s, s);
    ReplaceIsAtomic(d2, TmpPath(cfg.sha, s), IndexPath(cfg.sha, s), cfg.encode(idx), c);
    if c != Exec(d2, SavePlan(cfg, s, idx)) {
      forall x ensures Untouched(cfg, s, d2, c, x) {
        BlobsBesideIndex(cfg.sha, Name(s, x), s);
      }
    }
  }

  // ---- The theorems ----

  lemma WriteCrash(cfg: Config, u: Universe, op: Op, d: Disk, c: Disk)
    requires Apart(cfg.sha, u) && OpInUse(u, op) && (op.Write? || (op.WriteRaw? && op.meta.versionID != ""))
    requires Load(cfg, d, op.site).Success? && InUse(u, op.site, Load(cfg, d, op.site).value.versions)
    requires CrashPoint(d, Plan(cfg, op, Load(cfg, d, op.site)), c)
    ensures c == RunOp(cfg, op, d)
         || OldIndex(cfg, u, op.site, Ids(Dropped(cfg.maxVersions,
                                                  StoredList(op, Load(cfg, d, op.site).value.versions))),
                     StoredID(op), StoredBlob(cfg.cipher, op), d, c)
  {
    var s, idx, id := op.site, Load(cfg, d, op.site).value, StoredID(op);
    var versions := StoredList(op, idx.versions);
    StoredListMeans(op, idx.versions);
    if op.clean {
      CommitCrash(cfg, u, s, idx, versions, id, StoredBlob(cfg.cipher, op), d, c);
    } else {
      CrashInPut(cfg, u, s, id, StoredBlob(cfg.cipher, op), d, c);
    }
  }

  /**
   * Crash atomicity. When retention drops nothing and the version is not yet listed, stopping a write
   * at any file operation leaves, on reload, exactly the old or exactly the new history.
   */
  lemma WriteIsCrashAtomic(cfg: Config, u: Universe, op: Op, d: Disk, c: Disk)
    requires Apart(cfg.sha, u) && Sound(cfg) && OpInUse(u, op)
    requires op.Write? || (op.WriteRaw? && op.meta.versionID != "")
    requires KeptAt(cfg, u, d, op.site) && Fresh(op, Abs(cfg, d, op.site))
    requires StoredID(op) !in Ids(Abs(cfg, d, op.site).versions)
    requires op.clean ==> Dropped(cfg.maxVersions, StoredList(op, Abs(cfg, d, op.site).versions)) == []
    requires CrashPoint(d, Plan(cfg, op, Load(cfg, d, op.site)), c)
    ensures Load(cfg, c, op.site).Success?
    ensures Abs(cfg, c, op.site) == Abs(cfg, d, op.site)
         || Abs(cfg, c, op.site) == Step(cfg.cipher, cfg.maxVersions, op, Abs(cfg, d, op.site))
  {
    WriteCrash(cfg, u, op, d, c);
    if c == RunOp(cfg, op, d) {
      OpRefines(cfg, u, op, d);
    } else {
      assert Load(cfg, c, op.site) == Load(cfg, d, op.site);
      forall x | x in Ids(Load(cfg, d, op.site).value.versions) ensures Untouched(cfg, op.site, d, c, x) {
        assert Name(op.site, x) in u.names;
      }
      SameBlobsUnlessTouched(cfg, op.site, d, c);
    }
  }

  lemma SameBlobsUnlessTouched(cfg: Config, s: Site, d: Disk, c: Disk)
    requires Load(cfg, d, s).Success? && Load(cfg, c, s) == Load(cfg, d, s)
    requires forall x :: x in Ids(Load(cfg, d, s).value.versions) ==> Untouched(cfg, s, d, c, x)
    ensures Abs(cfg, c, s) == Abs(cfg, d, s)
  {
    forall x | x in Ids(Load(cfg, d, s).value.versions)
      ensures At(c, BlobPath(cfg.sha, Name(s, x))) == At(d, BlobPath(cfg.sha, Name(s, x)))
    {
      assert Untouched(cfg, s, d, c, x);
    }
    assert Abs(cfg, c, s).blobs == Abs(cfg, d, s).blobs;
  }

  /**
   * With pruning, a listed version whose blob was there can lack it after a crash only if retention
   * was dropping that very version; the index always loads.
   */
  lemma OnlyDroppedMayDangle(cfg: Config, u: Universe, op: Op, d: Disk, c: Disk, x: string)
    requires Apart(cfg.sha, u) && Sound(cfg) && OpInUse(u, op)
    requires op.Write? || (op.WriteRaw? && op.meta.versionID != "")
    requires KeptAt(cfg, u, d, op.site) && Fresh(op, Abs(cfg, d, op.site)) && Complete(Abs(cfg, d, op.site))
    requires CrashPoint(d, Plan(cfg, op, Load(cfg, d, op.site)), c)
    ensures Load(cfg, c, op.site).Success?
    ensures x in Ids(Abs(cfg, c, op.site).versions) && x !in Abs(cfg, c, op.site).blobs ==>
              x in Ids(Dropped(cfg.maxVersions, StoredList(op, Abs(cfg, d, op.site).versions)))
              && Abs(cfg, c, op.site).versions == Abs(cfg, d, op.site).versions
  {
    var s, h := op.site, Abs(cfg, d, op.site);
    WriteCrash(cfg, u, op, d, c);
    if c == RunOp(cfg, op, d) {
      OpRefines(cfg, u, op, d);
      StepWellFormed(cfg.cipher, cfg.maxVersions, op, h);
    } else {
      assert Load(cfg, c, s) == Load(cfg, d, s);
      if x in Ids(Abs(cfg, c, s).versions) && x !in Abs(cfg, c, s).blobs {
        assert x in h.blobs;
        assert Name(s, x) in u.names;
        assert !Untouched(cfg, s, d, c, x);
      }
    }
  }

  /**
   * Re-storing a version that is already listed is not crash atomic: its file is truncated first, so
   * the process can stop where the index still lists the version and its blob is empty.
   */
  lemma RestoringIsNotCrashAtomic(cfg: Config, u: Universe, op: Op, d: Disk) returns (c: Disk)
    requires Apart(cfg.sha, u) && Sound(cfg) && OpInUse(u, op)
    requires op.Write? || (op.WriteRaw? && op.meta.versionID != "")
    requires KeptAt(cfg, u, d, op.site) && Fresh(op, Abs(cfg, d, op.site))
    requires StoredID(op) in Abs(cfg, d, op.site).blobs
    requires Abs(cfg, d, op.site).blobs[StoredID(op)] != [] && StoredBlob(cfg.cipher, op) != []
    ensures CrashPoint(d, Plan(cfg, op, Load(cfg, d, op.site)), c)
    ensures Load(cfg, c, op.site).Success? && Abs(cfg, c, op.site) != Abs(cfg, d, op.site)
    ensures Abs(cfg, c, op.site) != Step(cfg.cipher, cfg.maxVersions, op, Abs(cfg, d, op.site))
  {
    var s, id, blob, h := op.site, StoredID(op), StoredBlob(cfg.cipher, op), Abs(cfg, d, op.site);
    var p, plan := BlobPath(cfg.sha, Name(s, id)), Plan(cfg, op, Load(cfg, d, s));
    c := d[p := blob[..0]];
    assert plan[0] == Put(p, blob);
    assert Midway(d, plan[0], c);
    BlobsBesideIndex(cfg.sha, Name(s, id), s);
    assert Load(cfg, c, s) == Load(cfg, d, s);
    assert Abs(cfg, c, s).blobs[id] == [];
    StoresItsBlob(cfg.cipher, cfg.maxVersions, op, h);
  }

  lemma StoresItsBlob(c: Cipher, max: int, op: Op, h: History)
    requires WellFormed(h, max) && Fresh(op, h) && (op.Write? || (op.WriteRaw? && op.meta.versionID != ""))
    requires StoredID(op) in h.blobs
    ensures var r := Step(c, max, op, h); StoredID(op) in r.blobs && r.blobs[StoredID(op)] == StoredBlob(c, op)
  {
    if op.clean {
      WrittenSurvives(h, max, op);
    }
  }

  /** The disk once the blob is written and retention has removed what it drops, before the index is saved. */
  ghost function BeforeSave(cfg: Config, s: Site, versions: seq<VersionEntry>, id: string, blob: Bytes, d: Disk): Disk
    requires IsDigest(cfg.sha)
  {
    Exec(d, [Put(BlobPath(cfg.sha, Name(s, id)), blob)] + WipePlan(cfg, s, Dropped(cfg.maxVersions, versions)))
  }

  lemma BeforeSaveIsCrashPoint(cfg: Config, s: Site, idx: VersionIndex, versions: seq<VersionEntry>, id: string,
                               blob: Bytes, d: Disk)
    requires IsDigest(cfg.sha)
    ensures CrashPoint(d, CommitPlan(cfg, s, idx, versions, id, blob), BeforeSave(cfg, s, versions, id, blob, d))
  {
    var first := [Put(BlobPath(cfg.sha, Name(s, id)), blob)] + WipePlan(cfg, s, Dropped(cfg.maxVersions, versions));
    CrashConcat(d, first, SavePlan(cfg, s, VersionIndex(idx.key, id, Pruned(cfg.maxVersions, versions))),
                Exec(d, first));
  }

  lemma BeforeSaveLoses(cfg: Config, s: Site, versions: seq<VersionEntry>, id: string, blob: Bytes, d: Disk, x: string)
    requires IsDigest(cfg.sha) && x in Ids(Dropped(cfg.maxVersions, versions))
    ensures At(BeforeSave(cfg, s, versions, id, blob, d), IndexPath(cfg.sha, s)) == At(d, IndexPath(cfg.sha, s))
    ensures BlobPath(cfg.sha, Name(s, x)) !in BeforeSave(cfg, s, versions, id, blob, d)
  {
    var put, dropped := [Put(BlobPath(cfg.sha, Name(s, id)), blob)], Dropped(cfg.maxVersions, versions);
    ExecConcat(d, put, WipePlan(cfg, s, dropped));
    OneMicro(d, put[0]);
    ExecWipes(cfg, s, dropped, Exec(d, put), IndexPath(cfg.sha, s));
    ExecWipes(cfg, s, dropped, Exec(d, put), BlobPath(cfg.sha, Name(s, x)));
    BlobInBucket(cfg.sha, Name(s, x));
    BlobsBesideIndex(cfg.sha, Name(s, id), s);
    forall y ensures !(BucketPath(cfg.sha, Name(s, y)) <= IndexPath(cfg.sha, s)) {
      IndexOutsideBuckets(cfg.sha, Name(s, y), s, s);
    }
  }

  /**
   * Nor is a write for which retention drops a version: the process can stop where that version is still
   * listed and its blob is gone.
   */
  lemma PruningIsNotCrashAtomic(cfg: Config, u: Universe, op: Op, d: Disk) returns (c: Disk)
    requires Apart(cfg.sha, u) && Sound(cfg) && OpInUse(u, op)
    requires (op.Write? || (op.WriteRaw? && op.meta.versionID != "")) && op.clean
    requires KeptAt(cfg, u, d, op.site) && Fresh(op, Abs(cfg, d, op.site)) && Complete(Abs(cfg, d, op.site))
    requires StoredID(op) !in Ids(Abs(cfg, d, op.site).versions)
    requires Dropped(cfg.maxVersions, StoredList(op, Abs(cfg, d, op.site).versions)) != []
    ensures CrashPoint(d, Plan(cfg, op, Load(cfg, d, op.site)), c)
    ensures Load(cfg, c, op.site).Success? && Abs(cfg, c, op.site) != Abs(cfg, d, op.site)
    ensures Abs(cfg, c, op.site) != Step(cfg.cipher, cfg.maxVersions, op, Abs(cfg, d, op.site))
  {
    var s, id, idx := op.site, StoredID(op), Load(cfg, d, op.site).value;
    var list, h := StoredList(op, idx.versions), Abs(cfg, d, op.site);
    var x := Dropped(cfg.maxVersions, list)[0].versionID;
    c := BeforeSave(cfg, s, list, id, StoredBlob(cfg.cipher, op), d);
    BeforeSaveIsCrashPoint(cfg, s, idx, list, id, StoredBlob(cfg.cipher, op), d);
    BeforeSaveLoses(cfg, s, list, id, StoredBlob(cfg.cipher, op), d, x);
    DroppedWasListed(cfg.maxVersions, op, h, x);
    assert Load(cfg, c, s) == Load(cfg, d, s);
    assert x in h.blobs && x !in Abs(cfg, c, s).blobs;
    WrittenSurvives(h, cfg.maxVersions, op);
  }

  lemma DroppedWasListed(max: int, op: Op, h: History, x: string)
    requires WellFormed(h, max) && Fresh(op, h) && (op.Write? || op.WriteRaw?)
    requires x in Ids(Dropped(max, StoredList(op, h.versions)))
    ensures x in Ids(h.versions)
  {
    WrittenSurvives(h, max, op);
    PrunedMeans(max, StoredList(op, h.versions));
  }

  /** Wherever the operation is stopped, the old or the new history is found. */
  ghost predicate CrashAtomic(cfg: Config, op: Op, d: Disk)
    requires IsDigest(cfg.sha) && Load(cfg, d, op.site).Success?
  {
    forall c :: CrashPoint(d, Plan(cfg, op, Load(cfg, d, op.site)), c) ==>
      Load(cfg, c, op.site).Success?
      && (Abs(cfg, c, op.site) == Abs(cfg, d, op.site)
          || Abs(cfg, c, op.site) == Step(cfg.cipher, cfg.maxVersions, op, Abs(cfg, d, op.site)))
  }

  // ---- A listed version stored again ----

  /** The disk while the file of a version is being overwritten. */
  function Overwriting(cfg: Config, op: Op, n: nat, d: Disk): Disk
    requires op.Write? || op.WriteRaw?
    requires n <= |StoredBlob(cfg.cipher, op)|
  {
    d[BlobPath(cfg.sha, Name(op.site, StoredID(op))) := StoredBlob(cfg.cipher, op)[..n]]
  }

  /** Every stage of the overwriting is a crash point, and reloads as the old history with that much of the new blob. */
  lemma OverwritingIsCrashPoint(cfg: Config, u: Universe, op: Op, n: nat, d: Disk)
    requires Apart(cfg.sha, u) && OpInUse(u, op) && KeptAt(cfg, u, d, op.site)
    requires op.Write? || (op.WriteRaw? && op.meta.versionID != "")
    requires n <= |StoredBlob(cfg.cipher, op)| && StoredID(op) in Ids(Abs(cfg, d, op.site).versions)
    ensures CrashPoint(d, Plan(cfg, op, Load(cfg, d, op.site)), Overwriting(cfg, op, n, d))
    ensures Load(cfg, Overwriting(cfg, op, n, d), op.site).Success?
    ensures var h := Abs(cfg, d, op.site);
            Abs(cfg, Overwriting(cfg, op, n, d), op.site) ==
            h.(blobs := h.blobs[StoredID(op) := StoredBlob(cfg.cipher, op)[..n]])
  {
    var s, id, blob := op.site, StoredID(op), StoredBlob(cfg.cipher, op);
    var plan, c := Plan(cfg, op, Load(cfg, d, s)), Overwriting(cfg, op, n, d);
    assert plan[0] == Put(BlobPath(cfg.sha, Name(s, id)), blob);
    assert Midway(d, plan[0], c);
    var put := [Put(BlobPath(cfg.sha, Name(s, id)), blob[..n])];
    OneMicro(d, put[0]);
    PutRefines(cfg, u, s, id, blob[..n], d);
  }

  /** Storing a listed version again changes nothing but its blob. */
  ghost predicate SameEntry(op: Op, h: History)
    requires op.WriteRaw?
  {
    op.clean ==> op.meta in h.versions && h.latest == op.meta.versionID
  }

  /**
   * What overwriting a listed blob must be for no crash to show: the new blob is empty, or a single byte over an
   * empty one, and either the blob or everything else stays as it was.
   */
  ghost predicate Unnoticed(op: Op, h: History)
    requires op.WriteRaw? && op.meta.versionID in h.blobs
  {
    var was := h.blobs[op.meta.versionID];
    (op.data == [] || (|op.data| == 1 && was == [])) && (op.data == was || SameEntry(op, h))
  }

  /** The list after a listed version is stored again: as long as it was, and the same if the entry is. */
  lemma RestoredList(max: int, versions: seq<VersionEntry>, meta: VersionEntry)
    requires Unique(versions) && meta.versionID in Ids(versions) && (max > 0 ==> |versions| <= max)
    ensures Pruned(max, Upsert(versions, meta)) == Upsert(versions, meta)
    ensures Upsert(versions, meta) == versions <==> meta in versions
  {
    var i := IndexOf(versions, meta.versionID);
    if meta in versions {
      FindsItself(versions, meta);
    }
    assert Upsert(versions, meta)[i] == meta;
  }

  lemma RestoredBlobs(h: History, kept: seq<VersionEntry>, id: string, blob: Bytes)
    requires Complete(h) && id in h.blobs && Ids(kept) == Ids(h.versions)
    ensures KeptBlobs(kept, h.blobs, id, blob) == h.blobs[id := blob]
  {
  }

  /** The history after a listed version is stored again. */
  lemma RestoredHistory(c: Cipher, max: int, op: Op, h: History, h': History)
    requires WellFormed(h, max) && op.WriteRaw? && op.meta.versionID in Ids(h.versions) && h' == Step(c, max, op, h)
    requires Complete(h)
    ensures h'.blobs == h.blobs[op.meta.versionID := op.data]
    ensures h'.versions == h.versions && h'.latest == h.latest <==> SameEntry(op, h)
  {
    if op.clean {
      RestoredList(max, h.versions, op.meta);
      SameIds(h.versions, op.meta);
      RestoredWhole(Upsert(h.versions, op.meta), op.meta.versionID, op.data, h, h');
    }
  }

  lemma SameIds(versions: seq<VersionEntry>, meta: VersionEntry)
    requires meta.versionID in Ids(versions)
    ensures Ids(Upsert(versions, meta)) == Ids(versions)
  {
    UpsertMeans(versions, meta);
  }

  lemma RestoredWhole(kept: seq<VersionEntry>, id: string, data: Bytes, h: History, h': History)
    requires Complete(h) && id in Ids(h.versions) && Ids(kept) == Ids(h.versions)
    requires h' == History(kept, id, KeptBlobs(kept, h.blobs, id, data))
    ensures h'.blobs == h.blobs[id := data]
  {
    RestoredBlobs(h, kept, id, data);
  }

  /** If it would be noticed, some stage of the overwriting is neither the old nor the new history. */
  lemma NoticedAtSomeStage(c: Cipher, max: int, op: Op, h: History, h': History) returns (n: nat)
    requires WellFormed(h, max) && Complete(h) && op.WriteRaw? && op.meta.versionID in h.blobs
    requires h' == Step(c, max, op, h)
    requires !Unnoticed(op, h)
    ensures n <= |op.data|
    ensures var stage := h.(blobs := h.blobs[op.meta.versionID := op.data[..n]]); stage != h && stage != h'
  {
    RestoredHistory(c, max, op, h, h');
    var id, was := op.meta.versionID, h.blobs[op.meta.versionID];
    if |op.data| >= 1 && was != [] {
      n := 0;
    } else if |op.data| >= 2 {
      n := 1;
    } else {
      n := |op.data|;
      assert op.data[..n] == op.data;
    }
    assert h.blobs[id := op.data[..n]][id] == op.data[..n];
    assert h'.blobs[id] == op.data;
  }

  lemma UnnoticedThroughout(c: Cipher, max: int, op: Op, h: History, h': History, n: nat)
    requires WellFormed(h, max) && Complete(h) && op.WriteRaw? && op.meta.versionID in h.blobs
    requires h' == Step(c, max, op, h)
    requires Unnoticed(op, h) && n <= |op.data|
    ensures var stage := h.(blobs := h.blobs[op.meta.versionID := op.data[..n]]); stage == h || stage == h'
  {
    RestoredHistory(c, max, op, h, h');
    var id := op.meta.versionID;
    if n < |op.data| {
      assert op.data[..n] == h.blobs[id];
      assert h.blobs[id := op.data[..n]] == h.blobs;
    } else {
      assert op.data[..n] == op.data;
      if op.data == h.blobs[id] {
        assert h.blobs[id := op.data[..n]] == h.blobs;
      }
    }
  }

  /** Stopped anywhere, storing a listed version again leaves the new disk or a stage of the overwriting. */
  lemma RestoringStages(cfg: Config, u: Universe, op: Op, d: Disk, c: Disk) returns (n: nat)
    requires Apart(cfg.sha, u) && Sound(cfg) && OpInUse(u, op) && KeptAt(cfg, u, d, op.site) && op.WriteRaw?
    requires op.meta.versionID in Ids(Abs(cfg, d, op.site).versions)
    requires CrashPoint(d, Plan(cfg, op, Load(cfg, d, op.site)), c) && c != RunOp(cfg, op, d)
    ensures Load(cfg, c, op.site) == Load(cfg, d, op.site) && n <= |op.data|
    ensures var h := Abs(cfg, d, op.site);
            Abs(cfg, c, op.site) == h || Abs(cfg, c, op.site) == h.(blobs := h.blobs[op.meta.versionID := op.data[..n]])
  {
    var s, id, h := op.site, op.meta.versionID, Abs(cfg, d, op.site);
    WriteCrash(cfg, u, op, d, c);
    assert Dropped(cfg.maxVersions, StoredList(op, h.versions)) == [];
    assert Load(cfg, c, s) == Load(cfg, d, s);
    n := 0;
    forall x | x in Ids(h.versions) && x != id ensures Untouched(cfg, s, d, c, x) {
      assert Name(s, x) in u.names;
    }
    if Untouched(cfg, s, d, c, id) {
      SameBlobsUnlessTouched(cfg, s, d, c);
    } else {
      n :| n <= |op.data| && At(c, BlobPath(cfg.sha, Name(s, id))) == Some(op.data[..n]);
      SameBlobsBut(cfg, s, d, c, Ids(h.versions), id, Some(op.data[..n]));
    }
  }

  lemma RestoringIsCrashAtomicIff(cfg: Config, u: Universe, op: Op, d: Disk)
    requires Apart(cfg.sha, u) && Sound(cfg) && OpInUse(u, op) && KeptAt(cfg, u, d, op.site) && op.WriteRaw?
    requires Complete(Abs(cfg, d, op.site)) && op.meta.versionID in Ids(Abs(cfg, d, op.site).versions)
    ensures CrashAtomic(cfg, op, d) <==> Unnoticed(op, Abs(cfg, d, op.site))
  {
    var s, h := op.site, Abs(cfg, d, op.site);
    var h' := Step(cfg.cipher, cfg.maxVersions, op, h);
    assert op.meta.versionID != "";
    OpRefines(cfg, u, op, d);
    if Unnoticed(op, h) {
      forall c | CrashPoint(d, Plan(cfg, op, Load(cfg, d, s)), c)
        ensures Load(cfg, c, s).Success? && (Abs(cfg, c, s) == h || Abs(cfg, c, s) == h')
      {
        if c != RunOp(cfg, op, d) {
          var n := RestoringStages(cfg, u, op, d, c);
          UnnoticedThroughout(cfg.cipher, cfg.maxVersions, op, h, h', n);
        }
      }
    } else {
      var n := NoticedAtSomeStage(cfg.cipher, cfg.maxVersions, op, h, h');
      OverwritingIsCrashPoint(cfg, u, op, n, d);
      var c := Overwriting(cfg, op, n, d);
      assert CrashPoint(d, Plan(cfg, op, Load(cfg, d, s)), c);
    }
  }

  lemma NewIsCrashAtomicIff(cfg: Config, u: Universe, op: Op, d: Disk)
    requires Apart(cfg.sha, u) && Sound(cfg) && OpInUse(u, op)
    requires op.Write? || (op.WriteRaw? && op.meta.versionID != "")
    requires KeptAt(cfg, u, d, op.site) && Fresh(op, Abs(cfg, d, op.site)) && Complete(Abs(cfg, d, op.site))
    requires StoredID(op) !in Ids(Abs(cfg, d, op.site).versions)
    ensures CrashAtomic(cfg, op, d) <==>
            (op.clean ==> Dropped(cfg.maxVersions, StoredList(op, Abs(cfg, d, op.site).versions)) == [])
  {
    var h := Abs(cfg, d, op.site);
    if op.clean && Dropped(cfg.maxVersions, StoredList(op, h.versions)) != [] {
      var c := PruningIsNotCrashAtomic(cfg, u, op, d);
    } else {
      forall c | CrashPoint(d, Plan(cfg, op, Load(cfg, d, op.site)), c)
        ensures Load(cfg, c, op.site).Success?
        ensures Abs(cfg, c, op.site) == h || Abs(cfg, c, op.site) == Step(cfg.cipher, cfg.maxVersions, op, h)
      {
        WriteIsCrashAtomic(cfg, u, op, d, c);
      }
    }
  }

  /**
   * Exactly when a write is crash atomic, for every write. A version not yet listed: if and only if, should the
   * source end cleanly, retention drops nothing. A version stored again: if and only if its new blob is empty, or
   * is a single byte over an empty one, and either the blob or the index stays as it was; so never for blobs that
   * carry the cipher's header.
   */
  lemma WriteIsCrashAtomicIff(cfg: Config, u: Universe, op: Op, d: Disk)
    requires Apart(cfg.sha, u) && Sound(cfg) && OpInUse(u, op)
    requires op.Write? || (op.WriteRaw? && op.meta.versionID != "")
    requires KeptAt(cfg, u, d, op.site) && Fresh(op, Abs(cfg, d, op.site)) && Complete(Abs(cfg, d, op.site))
    ensures var h := Abs(cfg, d, op.site);
            CrashAtomic(cfg, op, d) <==>
            if op.WriteRaw? && op.meta.versionID in Ids(h.versions) then Unnoticed(op, h)
            else op.clean ==> Dropped(cfg.maxVersions, StoredList(op, h.versions)) == []
  {
    if StoredID(op) in Ids(Abs(cfg, d, op.site).versions) {
      RestoringIsCrashAtomicIff(cfg, u, op, d);
    } else {
      NewIsCrashAtomicIff(cfg, u, op, d);
    }
  }

  /** The index is unchanged and no blob is missing besides that of one version. */
  ghost predicate LosesAtMost(cfg: Config, s: Site, d: Disk, c: Disk, ids: set<string>, id: string) {
    && At(c, IndexPath(cfg.sha, s)) == At(d, IndexPath(cfg.sha, s))
    && forall x :: x in ids ==> Untouched(cfg, s, d, c, x) || (x == id && Gone(cfg, s, c, x))
  }

  lemma CrashInWipe(cfg: Config, u: Universe, s: Site, id: string, ids: set<string>, d: Disk, c: Disk)
    requires Apart(cfg.sha, u) && Name(s, id) in u.names && forall x :: x in ids ==> Name(s, x) in u.names
    requires Midway(d, Wipe(BucketPath(cfg.sha, Name(s, id))), c)
    ensures LosesAtMost(cfg, s, d, c, ids, id)
  {
    IndexOutsideBuckets(cfg.sha, Name(s, id), s, s);
    forall x | x in ids ensures Untouched(cfg, s, d, c, x) || (x == id && Gone(cfg, s, c, x)) {
      BucketHolds(cfg.sha, Name(s, id), Name(s, x));
      BucketsDiffer(cfg.sha, u, Name(s, id), Name(s, x));
    }
  }

  lemma CrashInSave(cfg: Config, s: Site, after: VersionIndex, d: Disk, d1: Disk, c: Disk, ids: set<string>, id: string)
    requires IsDigest(cfg.sha) && LosesAtMost(cfg, s, d, d1, ids, id)
    requires CrashPoint(d1, SavePlan(cfg, s, after), c) && c != Exec(d1, SavePlan(cfg, s, after))
    ensures LosesAtMost(cfg, s, d, c, ids, id)
  {
    IndexOutsideBuckets(cfg.sha, Name(s, id), s, s);
    ReplaceIsAtomic(d1, TmpPath(cfg.sha, s), IndexPath(cfg.sha, s), cfg.encode(after), c);
    forall x ensures Untouched(cfg, s, d1, c, x) {
      BlobsBesideIndex(cfg.sha, Name(s, x), s);
    }
    forall x | x in ids ensures Untouched(cfg, s, d, c, x) || (x == id && Gone(cfg, s, c, x)) {
      assert Untouched(cfg, s, d1, c, x);
    }
  }

  lemma LosingOne(cfg: Config, s: Site, d: Disk, c: Disk, id: string)
    requires IsDigest(cfg.sha) && Load(cfg, d, s).Success?
    requires LosesAtMost(cfg, s, d, c, Ids(Load(cfg, d, s).value.versions), id)
    ensures Load(cfg, c, s) == Load(cfg, d, s)
    ensures Abs(cfg, c, s).blobs == Abs(cfg, d, s).blobs || Abs(cfg, c, s).blobs == Abs(cfg, d, s).blobs - {id}
  {
    assert Load(cfg, c, s) == Load(cfg, d, s);
    if Untouched(cfg, s, d, c, id) {
      SameBlobsUnlessTouched(cfg, s, d, c);
    } else {
      forall x | x in Ids(Load(cfg, d, s).value.versions)
        ensures At(c, BlobPath(cfg.sha, Name(s, x))) == if x == id then None else At(d, BlobPath(cfg.sha, Name(s, x)))
      {
        assert Untouched(cfg, s, d, c, x) || (x == id && Gone(cfg, s, c, x));
      }
      assert Abs(cfg, c, s).blobs == Abs(cfg, d, s).blobs - {id};
    }
  }

  /** Deleting one version: until the index is saved, that version alone can be listed without its blob. */
  lemma DropCrash(cfg: Config, u: Universe, s: Site, id: string, d: Disk, c: Disk)
    requires Apart(cfg.sha, u) && KeptAt(cfg, u, d, s)
    requires CrashPoint(d, Plan(cfg, DropVersion(s, id), Load(cfg, d, s)), c)
    ensures c == RunOp(cfg, DropVersion(s, id), d)
         || (Load(cfg, c, s) == Load(cfg, d, s)
             && (Abs(cfg, c, s).blobs == Abs(cfg, d, s).blobs || Abs(cfg, c, s).blobs == Abs(cfg, d, s).blobs - {id}))
  {
    var idx := Load(cfg, d, s).value;
    if id in Ids(idx.versions) {
      var (rest, latest) := AfterDrop(idx.versions, idx.latest, id);
      var m := Wipe(BucketPath(cfg.sha, Name(s, id)));
      var after := VersionIndex(idx.key, latest, rest);
      assert Plan(cfg, DropVersion(s, id), Success(idx)) == [m] + SavePlan(cfg, s, after);
      CrashConcat(d, [m], SavePlan(cfg, s, after), c);
      ExecConcat(d, [m], SavePlan(cfg, s, after));
      OneMicro(d, m);
      CrashInWipe(cfg, u, s, id, Ids(idx.versions), d, Apply(d, m));
      if Midway(d, m, c) {
        CrashInWipe(cfg, u, s, id, Ids(idx.versions), d, c);
        LosingOne(cfg, s, d, c, id);
      } else if c != RunOp(cfg, DropVersion(s, id), d) {
        CrashInSave(cfg, s, after, d, Apply(d, m), c, Ids(idx.versions), id);
        LosingOne(cfg, s, d, c, id);
      }
    }
  }

  /** The same list and latest, and every blob still there is as it was. */
  ghost predicate OldListFewerBlobs(h: History, h': History) {
    && h'.versions == h.versions && h'.latest == h.latest
    && forall x <- h'.blobs :: x in h.blobs && h'.blobs[x] == h.blobs[x]
  }

  /** While all blobs are being removed the index is as it was, and so is each blob that is left. */
  lemma DuringDropAll(cfg: Config, s: Site, versions: seq<VersionEntry>, d: Disk, c: Disk)
    requires IsDigest(cfg.sha) && CrashPoint(d, WipePlan(cfg, s, versions), c)
    ensures At(c, IndexPath(cfg.sha, s)) == At(d, IndexPath(cfg.sha, s))
    ensures forall x :: Untouched(cfg, s, d, c, x) || Gone(cfg, s, c, x)
  {
    forall x ensures !(BucketPath(cfg.sha, Name(s, x)) <= IndexPath(cfg.sha, s)) {
      IndexOutsideBuckets(cfg.sha, Name(s, x), s, s);
    }
    CrashInWipes(cfg, s, versions, d, c, IndexPath(cfg.sha, s));
    forall x ensures Untouched(cfg, s, d, c, x) || Gone(cfg, s, c, x) {
      CrashInWipes(cfg, s, versions, d, c, BlobPath(cfg.sha, Name(s, x)));
    }
  }

  lemma FewerBlobsLeft(cfg: Config, s: Site, d: Disk, c: Disk)
    requires IsDigest(cfg.sha) && Load(cfg, d, s).Success?
    requires At(c, IndexPath(cfg.sha, s)) == At(d, IndexPath(cfg.sha, s))
    requires forall x :: Untouched(cfg, s, d, c, x) || Gone(cfg, s, c, x)
    ensures Load(cfg, c, s) == Load(cfg, d, s) && OldListFewerBlobs(Abs(cfg, d, s), Abs(cfg, c, s))
  {
    assert Load(cfg, c, s) == Load(cfg, d, s);
    forall x | x in Abs(cfg, c, s).blobs
      ensures x in Abs(cfg, d, s).blobs && Abs(cfg, c, s).blobs[x] == Abs(cfg, d, s).blobs[x]
    {
      assert Untouched(cfg, s, d, c, x);
    }
  }

  /** Deleting everything: nothing at all, or the old list with every blob still there as it was. */
  lemma DropAllCrash(cfg: Config, s: Site, d: Disk, c: Disk)
    requires IsDigest(cfg.sha) && Load(cfg, d, s).Success?
    requires CrashPoint(d, Plan(cfg, DropAll(s), Load(cfg, d, s)), c)
    ensures Load(cfg, c, s).Success?
    ensures Abs(cfg, c, s) == EMPTY || OldListFewerBlobs(Abs(cfg, d, s), Abs(cfg, c, s))
  {
    var idx := Load(cfg, d, s).value;
    var wipes, rm := WipePlan(cfg, s, idx.versions), [Remove(IndexPath(cfg.sha, s))];
    CrashConcat(d, wipes, rm, c);
    OneMicro(Exec(d, wipes), rm[0]);
    CrashConcat(d, wipes, [], Exec(d, wipes));
    assert wipes + [] == wipes;
    if CrashPoint(d, wipes, c) {
      DuringDropAll(cfg, s, idx.versions, d, c);
      FewerBlobsLeft(cfg, s, d, c);
    } else if c == Exec(d, wipes) {
      DuringDropAll(cfg, s, idx.versions, d, c);
      FewerBlobsLeft(cfg, s, d, c);
    } else {
      assert Abs(cfg, c, s).blobs == map[];
    }
  }

  /** A crash inside one operation never shows in another logical file. */
  lemma CrashFrame(cfg: Config, u: Universe, op: Op, d: Disk, c: Disk, t: Site)
    requires Apart(cfg.sha, u) && OpInUse(u, op) && t in u.sites && t != op.site
    requires KeptAt(cfg, u, d, op.site) && KeptAt(cfg, u, d, t)
    requires CrashPoint(d, Plan(cfg, op, Load(cfg, d, op.site)), c)
    ensures KeptAt(cfg, u, c, t) && Abs(cfg, c, t) == Abs(cfg, d, t)
  {
    PlanIsLocal(cfg, u, op, Load(cfg, d, op.site).value);
    CrashStaysLocal(cfg.sha, u, op.site, d, Plan(cfg, op, Load(cfg, d, op.site)), c);
    forall p | Owns(cfg.sha, u, t, p) ensures At(d, p) == At(c, p) {
      if Owns(cfg.sha, u, op.site, p) {
        OwnersDiffer(cfg.sha, u, op.site, t, p);
      }
    }
    AbsIsLocal(cfg, u, t, d, c);
  }
}
