/**
 * Goroutines calling store operations at the same time. Each takes the lock of its logical file, then
 * loads the index, then carries out its file operations one by one, and releases, while others do the same.
 */
module Concurrency {
  import opened Base
  import opened Files
  import opened Versions
  import opened Layout
  import opened Histories
  import opened Plans
  import opened Refinement

  datatype Thread =
    | Waiting(op: Op)
    | Holding(op: Op)
    | Running(op: Op, plan: seq<Micro>, at: nat, returned: Result<Option<VersionEntry>>)
    | Finished(op: Op, returned: Result<Option<VersionEntry>>)

  /** `locks` is the lock table, `order` the threads in the order they released. */
  datatype State = State(disk: Disk, threads: seq<Thread>, locks: map<string, nat>, order: seq<nat>)

  /** lockForKey. Two logical files may share a name, and then merely share a lock. */
  function LockName(s: Site): string {
    s.node + ":" + s.key
  }

  ghost predicate Acquire(a: State, i: nat, b: State) {
    && i < |a.threads| && a.threads[i].Waiting? && LockName(a.threads[i].op.site) !in a.locks
    && var op := a.threads[i].op;
       b == a.(threads := a.threads[i := Holding(op)], locks := a.locks[LockName(op.site) := i])
  }

  /** loadIndex, at some moment after the lock was taken: what the call will do and return is settled here. */
  ghost predicate Start(cfg: Config, a: State, i: nat, b: State)
    requires IsDigest(cfg.sha)
  {
    && i < |a.threads| && a.threads[i].Holding?
    && var op := a.threads[i].op;
       var plan := Plan(cfg, op, Load(cfg, a.disk, op.site));
       b == a.(threads := a.threads[i := Running(op, plan, 0, OpResult(cfg, op, a.disk))])
  }

  ghost predicate Work(a: State, i: nat, b: State) {
    && i < |a.threads| && a.threads[i].Running? && a.threads[i].at < |a.threads[i].plan|
    && var t := a.threads[i];
       b == a.(disk := Apply(a.disk, t.plan[t.at]), threads := a.threads[i := t.(at := t.at + 1)])
  }

  ghost predicate Release(a: State, i: nat, b: State) {
    && i < |a.threads| && a.threads[i].Running? && a.threads[i].at == |a.threads[i].plan|
    && var t := a.threads[i];
       b == State(a.disk, a.threads[i := Finished(t.op, t.returned)], a.locks - {LockName(t.op.site)}, a.order + [i])
  }

  ghost predicate Next(cfg: Config, a: State, b: State)
    requires IsDigest(cfg.sha)
  {
    exists i: nat :: Acquire(a, i, b) || Start(cfg, a, i, b) || Work(a, i, b) || Release(a, i, b)
  }

  ghost predicate Initial(a: State, d: Disk) {
    a.disk == d && a.locks == map[] && a.order == [] && forall t <- a.threads :: t.Waiting?
  }

  // ---- The serial execution kept alongside ----

  function OpsOf(threads: seq<Thread>, order: seq<nat>): seq<Op>
    requires forall k :: 0 <= k < |order| ==> order[k] < |threads|
  {
    seq(|order|, k requires 0 <= k < |order| => threads[order[k]].op)
  }

  ghost predicate Ordered(a: State) {
    && (forall k :: 0 <= k < |a.order| ==> a.order[k] < |a.threads|)
    && (forall j, k :: 0 <= j < k < |a.order| ==> a.order[j] != a.order[k])
    && (forall i :: 0 <= i < |a.threads| ==> (a.threads[i].Finished? <==> i in a.order))
  }

  /** The disk after the finished operations, one after the other. */
  ghost function Serial(cfg: Config, a: State, d: Disk): Disk
    requires IsDigest(cfg.sha) && Ordered(a)
  {
    RunOps(cfg, OpsOf(a.threads, a.order), d)
  }

  function Progress(t: Thread): seq<Micro>
    requires t.Running? && t.at <= |t.plan|
  {
    t.plan[..t.at]
  }

  /** A thread holding its lock sees and changes its own part of the serial disk as if it were alone. */
  ghost predicate InStep(cfg: Config, u: Universe, disk: Disk, serial: Disk, t: Thread)
    requires IsDigest(cfg.sha) && t.Running?
  {
    && t.at <= |t.plan|
    && t.plan == Plan(cfg, t.op, Load(cfg, serial, t.op.site))
    && t.returned == OpResult(cfg, t.op, serial)
    && AllLocal(cfg.sha, u, t.op.site, t.plan)
    && SameFor(cfg.sha, u, t.op.site, disk, Exec(serial, Progress(t)))
  }

  ghost predicate Idle(cfg: Config, u: Universe, a: State, p: Path)
    requires IsDigest(cfg.sha)
  {
    forall i :: 0 <= i < |a.threads| && a.threads[i].Running? ==> !Owns(cfg.sha, u, a.threads[i].op.site, p)
  }

  /** Whatever an index lists is in use. */
  ghost predicate Tame(cfg: Config, u: Universe, d: Disk) {
    forall s <- u.sites :: Load(cfg, d, s).Success? ==> InUse(u, s, Load(cfg, d, s).value.versions)
  }

  predicate Inside(t: Thread) {
    t.Holding? || t.Running?
  }

  /** The lock table says exactly who is inside, and on which logical file. */
  ghost predicate Locked(a: State) {
    && (forall i :: 0 <= i < |a.threads| && Inside(a.threads[i]) ==>
          LockName(a.threads[i].op.site) in a.locks && a.locks[LockName(a.threads[i].op.site)] == i)
    && (forall name <- a.locks :: HeldBy(a, name, a.locks[name]))
  }

  ghost predicate HeldBy(a: State, name: string, i: nat) {
    i < |a.threads| && Inside(a.threads[i]) && LockName(a.threads[i].op.site) == name
  }

  ghost predicate AllInStep(cfg: Config, u: Universe, a: State, serial: Disk)
    requires IsDigest(cfg.sha)
  {
    forall i :: 0 <= i < |a.threads| && a.threads[i].Running? ==> InStep(cfg, u, a.disk, serial, a.threads[i])
  }

  /** Where no running thread may write, the disk is the serial disk. */
  ghost predicate IdleSame(cfg: Config, u: Universe, a: State, serial: Disk)
    requires IsDigest(cfg.sha)
  {
    forall p :: Idle(cfg, u, a, p) ==> At(a.disk, p) == At(serial, p)
  }

  /** Each finished call returned what it returns at its place in the serial execution. */
  ghost predicate Results(cfg: Config, a: State, d: Disk)
    requires IsDigest(cfg.sha) && Ordered(a)
  {
    forall k :: 0 <= k < |a.order| ==> ResultAt(cfg, a, d, k)
  }

  ghost predicate ResultAt(cfg: Config, a: State, d: Disk, k: nat)
    requires IsDigest(cfg.sha) && Ordered(a) && k < |a.order|
  {
    a.threads[a.order[k]].Finished?
    && a.threads[a.order[k]].returned == OpResult(cfg, a.threads[a.order[k]].op,
                                                  RunOps(cfg, OpsOf(a.threads, a.order)[..k], d))
  }

  ghost predicate ThreadsInUse(u: Universe, a: State) {
    forall i :: 0 <= i < |a.threads| ==> OpInUse(u, a.threads[i].op)
  }

  ghost predicate Inv(cfg: Config, u: Universe, a: State, d: Disk)
    requires IsDigest(cfg.sha)
  {
    && Ordered(a) && ThreadsInUse(u, a) && Locked(a)
    && Tame(cfg, u, Serial(cfg, a, d))
    && AllInStep(cfg, u, a, Serial(cfg, a, d))
    && IdleSame(cfg, u, a, Serial(cfg, a, d))
    && Results(cfg, a, d)
  }

  // ---- Preservation ----

  lemma {:induction false} RunOpsSnoc(cfg: Config, ops: seq<Op>, op: Op, d: Disk)
    requires IsDigest(cfg.sha)
    ensures RunOps(cfg, ops + [op], d) == RunOp(cfg, op, RunOps(cfg, ops, d))
    decreases |ops|
  {
    if ops == [] {
      assert ops + [op] == [op];
      assert [op][1..] == [];
      assert RunOps(cfg, [op], d) == RunOps(cfg, [], RunOp(cfg, op, d));
    } else {
      assert (ops + [op])[1..] == ops[1..] + [op];
      RunOpsSnoc(cfg, ops[1..], op, RunOp(cfg, ops[0], d));
    }
  }

  lemma IndexIsOwned(cfg: Config, u: Universe, s: Site, d: Disk, e: Disk)
    requires IsDigest(cfg.sha) && SameFor(cfg.sha, u, s, d, e)
    ensures Load(cfg, d, s) == Load(cfg, e, s)
  {
    assert At(d, IndexPath(cfg.sha, s)) == At(e, IndexPath(cfg.sha, s));
  }

  lemma RunOpTame(cfg: Config, u: Universe, op: Op, d: Disk)
    requires Apart(cfg.sha, u) && Sound(cfg) && Tame(cfg, u, d) && OpInUse(u, op)
    ensures Tame(cfg, u, RunOp(cfg, op, d))
  {
    var e := RunOp(cfg, op, d);
    forall s | s in u.sites && Load(cfg, e, s).Success? ensures InUse(u, s, Load(cfg, e, s).value.versions) {
      if s == op.site {
        OwnIndexTame(cfg, u, op, d);
      } else {
        OpsFrame(cfg, u, op, d, s);
        IndexIsOwned(cfg, u, s, d, e);
      }
    }
  }

  lemma OwnIndexTame(cfg: Config, u: Universe, op: Op, d: Disk)
    requires Apart(cfg.sha, u) && Sound(cfg) && OpInUse(u, op)
    requires Load(cfg, d, op.site).Success? ==> InUse(u, op.site, Load(cfg, d, op.site).value.versions)
    requires Load(cfg, RunOp(cfg, op, d), op.site).Success?
    ensures InUse(u, op.site, Load(cfg, RunOp(cfg, op, d), op.site).value.versions)
  {
    var s, loaded := op.site, Load(cfg, d, op.site);
    if loaded.Success? {
      var idx := loaded.value;
      match op
      case Write(_, id, _, _, plain, iv, clean) =>
        AppendMeans(idx.versions, NewEntry(op, idx.versions));
        if clean {
          CommitIndex(cfg, s, idx, idx.versions + [NewEntry(op, idx.versions)], id, Encoded(cfg.cipher, iv, plain), d);
        } else {
          PutIndex(cfg, s, id, Encoded(cfg.cipher, iv, plain), d);
        }
      case WriteRaw(_, meta, data, clean) =>
        UpsertMeans(idx.versions, meta);
        if meta.versionID != "" {
          if clean {
            CommitIndex(cfg, s, idx, Upsert(idx.versions, meta), meta.versionID, data, d);
          } else {
            PutIndex(cfg, s, meta.versionID, data, d);
          }
        }
      case DropVersion(_, id) =>
        if id in Ids(idx.versions) {
          var (rest, latest) := AfterDrop(idx.versions, idx.latest, id);
          WithoutMeans(idx.versions, id);
          var wipe, save := [Wipe(BucketPath(cfg.sha, Name(s, id)))], SavePlan(cfg, s,
                                                                               VersionIndex(idx.key, latest, rest));
          ExecConcat(d, wipe, save);
          ExecSave(cfg, s, VersionIndex(idx.key, latest, rest), Exec(d, wipe));
        }
      case DropAll(_) =>
        var wipes, rm := WipePlan(cfg, s, idx.versions), Remove(IndexPath(cfg.sha, s));
        ExecConcat(d, wipes, [rm]);
        OneMicro(Exec(d, wipes), rm);
    }
  }

  lemma CommitIndex(cfg: Config, s: Site, idx: VersionIndex, versions: seq<VersionEntry>, id: string, blob: Bytes,
                    d: Disk)
    requires IsDigest(cfg.sha) && Sound(cfg)
    ensures var e := Exec(d, CommitPlan(cfg, s, idx, versions, id, blob));
            Load(cfg, e, s).Success? && Ids(Load(cfg, e, s).value.versions) <= Ids(versions)
  {
    var kept, dropped := Pruned(cfg.maxVersions, versions), Dropped(cfg.maxVersions, versions);
    var first := [Put(BlobPath(cfg.sha, Name(s, id)), blob)] + WipePlan(cfg, s, dropped);
    ExecConcat(d, first, SavePlan(cfg, s, VersionIndex(idx.key, id, kept)));
    ExecSave(cfg, s, VersionIndex(idx.key, id, kept), Exec(d, first));
    PrunedMeans(cfg.maxVersions, versions);
  }

  lemma PutIndex(cfg: Config, s: Site, id: string, blob: Bytes, d: Disk)
    requires IsDigest(cfg.sha)
    ensures Load(cfg, Exec(d, [Put(BlobPath(cfg.sha, Name(s, id)), blob)]), s) == Load(cfg, d, s)
  {
    OneMicro(d, Put(BlobPath(cfg.sha, Name(s, id)), blob));
    BlobsBesideIndex(cfg.sha, Name(s, id), s);
  }

  /** Two threads that hold their locks at the same time are on different logical files. */
  lemma RunnersDiffer(a: State, i: nat, j: nat)
    requires Locked(a)
    requires i < |a.threads| && j < |a.threads| && i != j && Inside(a.threads[i]) && Inside(a.threads[j])
    ensures a.threads[i].op.site != a.threads[j].op.site
  {
  }

  /** What one logical file owns is untouched by a change confined to another. */
  lemma SparesOthers(sha: Digest, u: Universe, s: Site, t: Site, d: Disk, e: Disk)
    requires Apart(sha, u) && s in u.sites && t in u.sites && s != t && SameBeyond(sha, u, s, d, e)
    ensures SameFor(sha, u, t, d, e)
  {
    forall p | Owns(sha, u, t, p) ensures At(d, p) == At(e, p) {
      if Owns(sha, u, s, p) {
        OwnersDiffer(sha, u, s, t, p);
      }
    }
  }

  /** A step that finishes no thread leaves the serial execution as it is. */
  lemma SameOrder(cfg: Config, a: State, i: nat, t: Thread, b: State, d: Disk)
    requires IsDigest(cfg.sha) && Ordered(a) && i < |a.threads| && !a.threads[i].Finished? && !t.Finished?
    requires b.order == a.order && b.threads == a.threads[i := t] && t.op == a.threads[i].op
    ensures Ordered(b) && Serial(cfg, a, d) == Serial(cfg, b, d)
    ensures Results(cfg, a, d) ==> Results(cfg, b, d)
  {
    assert OpsOf(a.threads, a.order) == OpsOf(b.threads, b.order);
    if Results(cfg, a, d) {
      forall k | 0 <= k < |b.order| ensures ResultAt(cfg, b, d, k) {
        assert ResultAt(cfg, a, d, k);
        assert a.threads[a.order[k]] == b.threads[b.order[k]];
      }
    }
  }

  /** What nobody is running on is as in the serial execution. */
  lemma FreeIsSerial(cfg: Config, u: Universe, a: State, s: Site, serial: Disk)
    requires Apart(cfg.sha, u) && ThreadsInUse(u, a) && IdleSame(cfg, u, a, serial) && s in u.sites
    requires forall j :: 0 <= j < |a.threads| && a.threads[j].Running? ==> a.threads[j].op.site != s
    ensures SameFor(cfg.sha, u, s, a.disk, serial)
  {
    forall p | Owns(cfg.sha, u, s, p) ensures At(a.disk, p) == At(serial, p) {
      forall j | 0 <= j < |a.threads| && a.threads[j].Running? ensures !Owns(cfg.sha, u, a.threads[j].op.site, p) {
        if Owns(cfg.sha, u, a.threads[j].op.site, p) {
          OwnersDiffer(cfg.sha, u, s, a.threads[j].op.site, p);
        }
      }
      assert Idle(cfg, u, a, p);
    }
  }

  lemma StartsInStep(cfg: Config, u: Universe, disk: Disk, serial: Disk, op: Op, plan: seq<Micro>)
    requires Apart(cfg.sha, u) && OpInUse(u, op) && Tame(cfg, u, serial) && SameFor(cfg.sha, u, op.site, disk, serial)
    requires plan == Plan(cfg, op, Load(cfg, disk, op.site))
    ensures InStep(cfg, u, disk, serial, Running(op, plan, 0, OpResult(cfg, op, disk)))
  {
    IndexIsOwned(cfg, u, op.site, disk, serial);
    if Load(cfg, serial, op.site).Success? {
      PlanIsLocal(cfg, u, op, Load(cfg, serial, op.site).value);
    }
    assert Progress(Running(op, plan, 0, OpResult(cfg, op, disk))) == [];
  }

  lemma AcquireKeeps(cfg: Config, u: Universe, a: State, i: nat, b: State, serial: Disk)
    requires Apart(cfg.sha, u) && Acquire(a, i, b)
    requires Locked(a) && AllInStep(cfg, u, a, serial) && IdleSame(cfg, u, a, serial)
    ensures Locked(b) && AllInStep(cfg, u, b, serial) && IdleSame(cfg, u, b, serial)
  {
    AcquireLocks(a, i, b);
    forall p | Idle(cfg, u, b, p) ensures Idle(cfg, u, a, p) {
      forall j | 0 <= j < |a.threads| && a.threads[j].Running? ensures !Owns(cfg.sha, u, a.threads[j].op.site, p) {
        assert b.threads[j] == a.threads[j];
      }
    }
  }

  lemma AcquireLocks(a: State, i: nat, b: State)
    requires Locked(a) && Acquire(a, i, b)
    ensures Locked(b)
  {
    forall name | name in b.locks ensures HeldBy(b, name, b.locks[name]) {
      if name in a.locks {
        assert HeldBy(a, name, a.locks[name]);
      }
    }
  }

  /** A step inside the lock leaves the lock table true. */
  lemma StillLocked(a: State, i: nat, b: State)
    requires Locked(a) && b.locks == a.locks && i < |a.threads| == |b.threads|
    requires b.threads == a.threads[i := b.threads[i]]
    requires Inside(a.threads[i]) && Inside(b.threads[i]) && b.threads[i].op == a.threads[i].op
    ensures Locked(b)
  {
    forall name | name in b.locks ensures HeldBy(b, name, b.locks[name]) {
      assert HeldBy(a, name, a.locks[name]);
    }
  }

  lemma StartKeeps(cfg: Config, u: Universe, a: State, i: nat, b: State, serial: Disk)
    requires Apart(cfg.sha, u) && Start(cfg, a, i, b) && ThreadsInUse(u, a) && Tame(cfg, u, serial)
    requires Locked(a) && AllInStep(cfg, u, a, serial) && IdleSame(cfg, u, a, serial)
    ensures Locked(b) && AllInStep(cfg, u, b, serial) && IdleSame(cfg, u, b, serial)
  {
    var op := a.threads[i].op;
    StillLocked(a, i, b);
    FreeIsSerial(cfg, u, a, op.site, serial);
    StartsInStep(cfg, u, a.disk, serial, op, Plan(cfg, op, Load(cfg, a.disk, op.site)));
    IdleShrinks(cfg, u, a, i, b);
  }

  /** A thread that is or starts running leaves no more paths idle than before. */
  lemma IdleShrinks(cfg: Config, u: Universe, a: State, i: nat, b: State)
    requires IsDigest(cfg.sha) && i < |a.threads| == |b.threads| && b.threads == a.threads[i := b.threads[i]]
    requires b.threads[i].Running? && b.threads[i].op == a.threads[i].op
    ensures forall p :: Idle(cfg, u, b, p) ==> Idle(cfg, u, a, p) && !Owns(cfg.sha, u, b.threads[i].op.site, p)
  {
    forall p | Idle(cfg, u, b, p) ensures Idle(cfg, u, a, p) {
      forall j | 0 <= j < |a.threads| && a.threads[j].Running? ensures !Owns(cfg.sha, u, a.threads[j].op.site, p) {
        assert b.threads[j].op == a.threads[j].op && b.threads[j].Running?;
      }
    }
  }

  lemma OthersUnmoved(cfg: Config, u: Universe, a: State, i: nat, b: State, serial: Disk, j: nat)
    requires Apart(cfg.sha, u) && Work(a, i, b) && ThreadsInUse(u, a) && Locked(a)
    requires SameBeyond(cfg.sha, u, a.threads[i].op.site, a.disk, b.disk)
    requires j < |a.threads| && j != i && a.threads[j].Running? && InStep(cfg, u, a.disk, serial, a.threads[j])
    ensures InStep(cfg, u, b.disk, serial, a.threads[j])
  {
    RunnersDiffer(a, i, j);
    SparesOthers(cfg.sha, u, a.threads[i].op.site, a.threads[j].op.site, a.disk, b.disk);
    OtherInStep(cfg, u, a.disk, b.disk, serial, serial, a.threads[j]);
  }

  lemma WorkKeeps(cfg: Config, u: Universe, a: State, i: nat, b: State, serial: Disk)
    requires Apart(cfg.sha, u) && Work(a, i, b) && ThreadsInUse(u, a)
    requires Locked(a) && AllInStep(cfg, u, a, serial) && IdleSame(cfg, u, a, serial)
    ensures Locked(b) && AllInStep(cfg, u, b, serial) && IdleSame(cfg, u, b, serial)
  {
    var t := a.threads[i];
    StillLocked(a, i, b);
    assert t.plan[t.at] in t.plan;
    ApplyStaysLocal(cfg.sha, u, t.op.site, a.disk, a.disk, t.plan[t.at]);
    StepForward(cfg, u, a.disk, serial, t);
    forall j | 0 <= j < |b.threads| && b.threads[j].Running? ensures InStep(cfg, u, b.disk, serial, b.threads[j]) {
      if j != i {
        OthersUnmoved(cfg, u, a, i, b, serial, j);
      }
    }
    IdleShrinks(cfg, u, a, i, b);
  }

  lemma ExecNext(d: Disk, plan: seq<Micro>, at: nat)
    requires at < |plan|
    ensures Exec(d, plan[..at + 1]) == Apply(Exec(d, plan[..at]), plan[at])
  {
    assert plan[..at + 1] == plan[..at] + [plan[at]];
    ExecConcat(d, plan[..at], [plan[at]]);
    OneMicro(Exec(d, plan[..at]), plan[at]);
  }

  lemma StepForward(cfg: Config, u: Universe, disk: Disk, serial: Disk, t: Thread)
    requires IsDigest(cfg.sha) && t.Running? && t.at < |t.plan| && InStep(cfg, u, disk, serial, t)
    ensures InStep(cfg, u, Apply(disk, t.plan[t.at]), serial, t.(at := t.at + 1))
  {
    assert t.plan[t.at] in t.plan;
    ApplyStaysLocal(cfg.sha, u, t.op.site, disk, Exec(serial, Progress(t)), t.plan[t.at]);
    ExecNext(serial, t.plan, t.at);
  }

  /** A thread stays in step while the disk and the serial disk change only outside what it owns. */
  lemma OtherInStep(cfg: Config, u: Universe, d: Disk, e: Disk, serial: Disk, serial': Disk, t: Thread)
    requires Apart(cfg.sha, u) && t.Running? && InStep(cfg, u, d, serial, t)
    requires SameFor(cfg.sha, u, t.op.site, d, e) && SameFor(cfg.sha, u, t.op.site, serial, serial')
    ensures InStep(cfg, u, e, serial', t)
  {
    var s := t.op.site;
    IndexIsOwned(cfg, u, s, serial, serial');
    ExecStaysLocal(cfg.sha, u, s, serial, serial', Progress(t));
    forall p | Owns(cfg.sha, u, s, p) ensures At(e, p) == At(Exec(serial', Progress(t)), p) {
      assert At(d, p) == At(e, p);
      assert At(d, p) == At(Exec(serial, Progress(t)), p);
    }
  }

  lemma ReleaseKeeps(cfg: Config, u: Universe, a: State, i: nat, b: State, serial: Disk)
    requires Apart(cfg.sha, u) && Release(a, i, b) && ThreadsInUse(u, a)
    requires Locked(a) && AllInStep(cfg, u, a, serial) && IdleSame(cfg, u, a, serial)
    ensures var serial' := RunOp(cfg, a.threads[i].op, serial);
            Locked(b) && AllInStep(cfg, u, b, serial') && IdleSame(cfg, u, b, serial')
  {
    var t := a.threads[i];
    var serial' := RunOp(cfg, t.op, serial);
    assert Progress(t) == t.plan;
    ExecStaysLocal(cfg.sha, u, t.op.site, serial, serial, t.plan);
    forall j | 0 <= j < |b.threads| && b.threads[j].Running? ensures InStep(cfg, u, b.disk, serial', b.threads[j]) {
      RunnersDiffer(a, i, j);
      SparesOthers(cfg.sha, u, t.op.site, a.threads[j].op.site, serial, serial');
      OtherInStep(cfg, u, a.disk, b.disk, serial, serial', a.threads[j]);
    }
    forall p | Idle(cfg, u, b, p) ensures At(b.disk, p) == At(serial', p) {
      if !Owns(cfg.sha, u, t.op.site, p) {
        forall j | 0 <= j < |a.threads| && a.threads[j].Running? ensures !Owns(cfg.sha, u, a.threads[j].op.site, p) {
          if j != i { assert b.threads[j] == a.threads[j]; }
        }
        assert Idle(cfg, u, a, p);
      }
    }
    LocksAfterRelease(a, i, b);
  }

  lemma LocksAfterRelease(a: State, i: nat, b: State)
    requires Locked(a) && Release(a, i, b)
    ensures Locked(b)
  {
    forall j | 0 <= j < |b.threads| && Inside(b.threads[j])
      ensures LockName(b.threads[j].op.site) in b.locks && b.locks[LockName(b.threads[j].op.site)] == j
    {
      assert a.threads[j] == b.threads[j];
    }
    forall name | name in b.locks ensures HeldBy(b, name, b.locks[name]) {
      assert HeldBy(a, name, a.locks[name]);
    }
  }

  lemma ReleaseOrders(cfg: Config, a: State, i: nat, b: State, d: Disk)
    requires IsDigest(cfg.sha) && Ordered(a) && Release(a, i, b)
    ensures Ordered(b)
    ensures OpsOf(b.threads, b.order) == OpsOf(a.threads, a.order) + [a.threads[i].op]
    ensures Serial(cfg, b, d) == RunOp(cfg, a.threads[i].op, Serial(cfg, a, d))
  {
    forall k | 0 <= k < |a.order| ensures a.order[k] != i {
      assert a.order[k] in a.order;
    }
    forall j | 0 <= j < |b.threads| ensures b.threads[j].Finished? <==> j in b.order {
      assert j in b.order <==> j in a.order || j == i;
    }
    var n, was, now := |a.order|, OpsOf(a.threads, a.order), OpsOf(b.threads, b.order);
    forall k | 0 <= k < n ensures now[k] == was[k] {
      assert b.order[k] == a.order[k] && b.threads[a.order[k]] == a.threads[a.order[k]];
    }
    assert now == was + [a.threads[i].op];
    RunOpsSnoc(cfg, was, a.threads[i].op, d);
  }

  lemma ResultsAfterRelease(cfg: Config, a: State, i: nat, b: State, d: Disk)
    requires IsDigest(cfg.sha) && Ordered(a) && Results(cfg, a, d) && Release(a, i, b)
    requires a.threads[i].returned == OpResult(cfg, a.threads[i].op, Serial(cfg, a, d))
    ensures Ordered(b) && Results(cfg, b, d)
  {
    ReleaseOrders(cfg, a, i, b, d);
    var n, was, now := |a.order|, OpsOf(a.threads, a.order), OpsOf(b.threads, b.order);
    forall k | 0 <= k < |b.order| ensures ResultAt(cfg, b, d, k) {
      assert now[..k] == was[..k];
      if k == n {
        assert was[..n] == was;
      } else {
        assert ResultAt(cfg, a, d, k);
        assert a.order[k] in a.order;
        assert b.threads[a.order[k]] == a.threads[a.order[k]];
      }
    }
  }

  // ---- The theorems ----

  /** A step that finishes no call keeps the invariant if it keeps what is said of the disk and the locks. */
  lemma StillInv(cfg: Config, u: Universe, a: State, i: nat, b: State, d: Disk, serial: Disk)
    requires IsDigest(cfg.sha) && Inv(cfg, u, a, d) && serial == Serial(cfg, a, d)
    requires i < |a.threads| == |b.threads| && b.threads == a.threads[i := b.threads[i]] && b.order == a.order
    requires !a.threads[i].Finished? && !b.threads[i].Finished? && b.threads[i].op == a.threads[i].op
    requires Locked(b) && AllInStep(cfg, u, b, serial) && IdleSame(cfg, u, b, serial)
    ensures Inv(cfg, u, b, d)
  {
    SameOrder(cfg, a, i, b.threads[i], b, d);
  }

  lemma AcquireKeepsInv(cfg: Config, u: Universe, a: State, i: nat, b: State, d: Disk)
    requires Apart(cfg.sha, u) && Inv(cfg, u, a, d) && Acquire(a, i, b)
    ensures Inv(cfg, u, b, d)
  {
    AcquireKeeps(cfg, u, a, i, b, Serial(cfg, a, d));
    StillInv(cfg, u, a, i, b, d, Serial(cfg, a, d));
  }

  lemma StartKeepsInv(cfg: Config, u: Universe, a: State, i: nat, b: State, d: Disk)
    requires Apart(cfg.sha, u) && Inv(cfg, u, a, d) && Start(cfg, a, i, b)
    ensures Inv(cfg, u, b, d)
  {
    StartKeeps(cfg, u, a, i, b, Serial(cfg, a, d));
    StillInv(cfg, u, a, i, b, d, Serial(cfg, a, d));
  }

  lemma WorkKeepsInv(cfg: Config, u: Universe, a: State, i: nat, b: State, d: Disk)
    requires Apart(cfg.sha, u) && Inv(cfg, u, a, d) && Work(a, i, b)
    ensures Inv(cfg, u, b, d)
  {
    WorkKeeps(cfg, u, a, i, b, Serial(cfg, a, d));
    StillInv(cfg, u, a, i, b, d, Serial(cfg, a, d));
  }

  lemma ReleaseKeepsInv(cfg: Config, u: Universe, a: State, i: nat, b: State, d: Disk)
    requires Apart(cfg.sha, u) && Sound(cfg) && Inv(cfg, u, a, d) && Release(a, i, b)
    ensures Inv(cfg, u, b, d)
  {
    var serial := Serial(cfg, a, d);
    assert InStep(cfg, u, a.disk, serial, a.threads[i]);
    ReleaseOrders(cfg, a, i, b, d);
    ResultsAfterRelease(cfg, a, i, b, d);
    ReleaseKeeps(cfg, u, a, i, b, serial);
    RunOpTame(cfg, u, a.threads[i].op, serial);
  }

  lemma NextKeeps(cfg: Config, u: Universe, a: State, b: State, d: Disk)
    requires Apart(cfg.sha, u) && Sound(cfg) && Inv(cfg, u, a, d) && Next(cfg, a, b)
    ensures Inv(cfg, u, b, d)
  {
    var i: nat :| Acquire(a, i, b) || Start(cfg, a, i, b) || Work(a, i, b) || Release(a, i, b);
    if Acquire(a, i, b) {
      AcquireKeepsInv(cfg, u, a, i, b, d);
    } else if Start(cfg, a, i, b) {
      StartKeepsInv(cfg, u, a, i, b, d);
    } else if Work(a, i, b) {
      WorkKeepsInv(cfg, u, a, i, b, d);
    } else {
      ReleaseKeepsInv(cfg, u, a, i, b, d);
    }
  }

  ghost predicate Execution(cfg: Config, states: seq<State>, d: Disk)
    requires IsDigest(cfg.sha)
  {
    && states != [] && Initial(states[0], d)
    && forall k :: 0 <= k < |states| - 1 ==> Next(cfg, states[k], states[k + 1])
  }

  lemma InitialInv(cfg: Config, u: Universe, a: State, d: Disk)
    requires IsDigest(cfg.sha) && Tame(cfg, u, d) && Initial(a, d) && ThreadsInUse(u, a)
    ensures Inv(cfg, u, a, d)
  {
    forall i | 0 <= i < |a.threads| ensures a.threads[i].Waiting? {
      assert a.threads[i] in a.threads;
    }
  }

  lemma StepOfExecution(cfg: Config, u: Universe, states: seq<State>, d: Disk, k: nat)
    requires Apart(cfg.sha, u) && Sound(cfg) && Execution(cfg, states, d) && 0 < k < |states|
    requires Inv(cfg, u, states[k - 1], d)
    ensures Inv(cfg, u, states[k], d)
  {
    assert Next(cfg, states[k - 1], states[k - 1 + 1]);
    NextKeeps(cfg, u, states[k - 1], states[k], d);
  }

  lemma {:induction false} ExecutionKeeps(cfg: Config, u: Universe, states: seq<State>, d: Disk, n: nat)
    requires Apart(cfg.sha, u) && Sound(cfg) && Tame(cfg, u, d) && Execution(cfg, states, d) && n < |states|
    requires ThreadsInUse(u, states[0])
    ensures Inv(cfg, u, states[n], d)
  {
    if n == 0 {
      InitialInv(cfg, u, states[0], d);
    } else {
      ExecutionKeeps(cfg, u, states, d, n - 1);
      StepOfExecution(cfg, u, states, d, n);
    }
  }

  /**
   * Serialisability. When every call has returned, the disk is that of the calls run one after the other
   * in the order they released their locks, each call exactly once, and each returned what it returns
   * there. Nothing is lost.
   */
  lemma Serialisable(cfg: Config, u: Universe, states: seq<State>, d: Disk)
    requires Apart(cfg.sha, u) && Sound(cfg) && Tame(cfg, u, d) && Execution(cfg, states, d)
    requires ThreadsInUse(u, states[0])
    requires forall t <- states[|states| - 1].threads :: t.Finished?
    ensures var last := states[|states| - 1];
            Ordered(last)
            && (forall i :: 0 <= i < |last.threads| ==> i in last.order)
            && last.disk == RunOps(cfg, OpsOf(last.threads, last.order), d)
            && Results(cfg, last, d)
  {
    var last := states[|states| - 1];
    ExecutionKeeps(cfg, u, states, d, |states| - 1);
    var serial := Serial(cfg, last, d);
    forall i | 0 <= i < |last.threads| ensures last.threads[i].Finished? {
      assert last.threads[i] in last.threads;
    }
    forall p ensures At(last.disk, p) == At(serial, p) {
      assert Idle(cfg, u, last, p);
    }
    SameEverywhere(last.disk, serial);
  }

  // ---- Progress ----

  function Rank(t: Thread): nat {
    match t
    case Waiting(_) => 3
    case Holding(_) => 2
    case Running(_, _, _, _) => 1
    case Finished(_, _) => 0
  }

  function Remaining(t: Thread): nat {
    if t.Running? && t.at <= |t.plan| then |t.plan| - t.at else 0
  }

  /** How far the calls are from having returned: stages ahead of them, then file operations. */
  function Stages(threads: seq<Thread>): nat {
    if threads == [] then 0 else Rank(threads[0]) + Stages(threads[1..])
  }

  function Left(threads: seq<Thread>): nat {
    if threads == [] then 0 else Remaining(threads[0]) + Left(threads[1..])
  }

  /** The calls are nearer to their end in one state than in another. */
  predicate Nearer(b: State, a: State) {
    Stages(b.threads) < Stages(a.threads)
    || (Stages(b.threads) == Stages(a.threads) && Left(b.threads) < Left(a.threads))
  }

  lemma {:induction false} OneThreadMoves(threads: seq<Thread>, i: nat, t: Thread)
    requires i < |threads|
    ensures Stages(threads[i := t]) == Stages(threads) - Rank(threads[i]) + Rank(t)
    ensures Left(threads[i := t]) == Left(threads) - Remaining(threads[i]) + Remaining(t)
    decreases |threads|
  {
    if i == 0 {
      assert threads[i := t][1..] == threads[1..];
    } else {
      assert threads[i := t][1..] == threads[1..][i - 1 := t];
      OneThreadMoves(threads[1..], i - 1, t);
    }
  }

  /** Every step brings the calls nearer to their end, so no execution goes on for ever. */
  lemma StepsRunOut(cfg: Config, a: State, b: State)
    requires IsDigest(cfg.sha) && Next(cfg, a, b)
    ensures Nearer(b, a)
  {
    var i: nat :| Acquire(a, i, b) || Start(cfg, a, i, b) || Work(a, i, b) || Release(a, i, b);
    ThreadAdvances(cfg, a, i, b);
    OneThreadMoves(a.threads, i, b.threads[i]);
  }

  lemma ThreadAdvances(cfg: Config, a: State, i: nat, b: State)
    requires IsDigest(cfg.sha) && (Acquire(a, i, b) || Start(cfg, a, i, b) || Work(a, i, b) || Release(a, i, b))
    ensures i < |a.threads| == |b.threads| && b.threads == a.threads[i := b.threads[i]]
    ensures Rank(b.threads[i]) < Rank(a.threads[i])
            || (Rank(b.threads[i]) == Rank(a.threads[i]) && Remaining(b.threads[i]) < Remaining(a.threads[i]))
  {
  }

  /** A thread that holds its lock can take its next step whatever the others do. */
  lemma InsideMoves(cfg: Config, u: Universe, a: State, d: Disk, i: nat) returns (b: State)
    requires IsDigest(cfg.sha) && Inv(cfg, u, a, d) && i < |a.threads| && Inside(a.threads[i])
    ensures Next(cfg, a, b)
  {
    var t := a.threads[i];
    if t.Holding? {
      var plan := Plan(cfg, t.op, Load(cfg, a.disk, t.op.site));
      b := a.(threads := a.threads[i := Running(t.op, plan, 0, OpResult(cfg, t.op, a.disk))]);
      assert Start(cfg, a, i, b);
    } else {
      assert InStep(cfg, u, a.disk, Serial(cfg, a, d), t);
      if t.at < |t.plan| {
        b := a.(disk := Apply(a.disk, t.plan[t.at]), threads := a.threads[i := t.(at := t.at + 1)]);
        assert Work(a, i, b);
      } else {
        b := State(a.disk, a.threads[i := Finished(t.op, t.returned)], a.locks - {LockName(t.op.site)}, a.order + [i]);
        assert Release(a, i, b);
      }
    }
  }

  /** No deadlock: while a call has not returned, some thread can take a step. */
  lemma SomeoneMoves(cfg: Config, u: Universe, a: State, d: Disk, i: nat) returns (b: State)
    requires IsDigest(cfg.sha) && Inv(cfg, u, a, d) && i < |a.threads| && !a.threads[i].Finished?
    ensures Next(cfg, a, b)
  {
    if Inside(a.threads[i]) {
      b := InsideMoves(cfg, u, a, d, i);
    } else {
      var name := LockName(a.threads[i].op.site);
      if name in a.locks {
        assert HeldBy(a, name, a.locks[name]);
        b := InsideMoves(cfg, u, a, d, a.locks[name]);
      } else {
        b := a.(threads := a.threads[i := Holding(a.threads[i].op)], locks := a.locks[name := i]);
        assert Acquire(a, i, b);
      }
    }
  }

  lemma ColonInside(short: string, k: string, long: string, rest: string)
    requires short + ":" + k == long + rest && |short| < |long|
    ensures ':' in long
  {
    assert (short + ":" + k)[|short|] == ':' && (long + rest)[|short|] == long[|short|];
  }

  lemma SameSplit(a: string, k: string, b: string, l: string)
    requires a + ":" + k == b + ":" + l && |a| == |b|
    ensures a == b && k == l
  {
    var x := a + ":" + k;
    assert x[..|a|] == a && x[..|b|] == b && x[|a| + 1..] == k && x[|b| + 1..] == l;
  }

  /** Files have locks of their own if node names contain no colon. */
  lemma LockNamesTell(s: Site, t: Site)
    requires ':' !in s.node && ':' !in t.node
    ensures LockName(s) == LockName(t) <==> s == t
  {
    if LockName(s) == LockName(t) {
      assert s.node + ":" + s.key == t.node + (":" + t.key) && t.node + ":" + t.key == s.node + (":" + s.key);
      if |s.node| < |t.node| {
        ColonInside(s.node, s.key, t.node, ":" + t.key);
      } else if |t.node| < |s.node| {
        ColonInside(t.node, t.key, s.node, ":" + s.key);
      } else {
        SameSplit(s.node, s.key, t.node, t.key);
      }
    }
  }

  /** A call waits only for another call on the same file. */
  lemma OnlyOwnFileBlocks(a: State, i: nat) returns (b: State)
    requires Locked(a) && i < |a.threads| && a.threads[i].Waiting? && forall t <- a.threads :: ':' !in t.op.site.node
    requires forall j :: 0 <= j < |a.threads| && Inside(a.threads[j]) ==> a.threads[j].op.site != a.threads[i].op.site
    ensures Acquire(a, i, b)
  {
    var op := a.threads[i].op;
    assert a.threads[i] in a.threads;
    if LockName(op.site) in a.locks {
      var j := a.locks[LockName(op.site)];
      assert HeldBy(a, LockName(op.site), j);
      assert a.threads[j] in a.threads;
      LockNamesTell(a.threads[j].op.site, op.site);
      assert false;
    }
    b := a.(threads := a.threads[i := Holding(op)], locks := a.locks[LockName(op.site) := i]);
  }

  lemma LongerExecution(cfg: Config, states: seq<State>, d: Disk, b: State)
    requires IsDigest(cfg.sha) && Execution(cfg, states, d) && Next(cfg, states[|states| - 1], b)
    ensures Execution(cfg, states + [b], d)
  {
    var more := states + [b];
    forall k | 0 <= k < |more| - 1 ensures Next(cfg, more[k], more[k + 1]) {
      if k < |states| - 1 {
        assert Next(cfg, states[k], states[k + 1]);
      }
    }
  }

  lemma OneStepMore(cfg: Config, u: Universe, states: seq<State>, d: Disk, i: nat) returns (b: State)
    requires Apart(cfg.sha, u) && Sound(cfg) && Tame(cfg, u, d) && Execution(cfg, states, d)
    requires ThreadsInUse(u, states[0])
    requires i < |states[|states| - 1].threads| && !states[|states| - 1].threads[i].Finished?
    ensures Execution(cfg, states + [b], d) && Nearer(b, states[|states| - 1])
  {
    ExecutionKeeps(cfg, u, states, d, |states| - 1);
    b := SomeoneMoves(cfg, u, states[|states| - 1], d, i);
    StepsRunOut(cfg, states[|states| - 1], b);
    LongerExecution(cfg, states, d, b);
  }

  /** From wherever an execution has got to, every call can still return. */
  lemma {:induction false} EveryCallCanReturn(cfg: Config, u: Universe, states: seq<State>, last: State, d: Disk)
    returns (more: seq<State>)
    requires Apart(cfg.sha, u) && Sound(cfg) && Tame(cfg, u, d) && Execution(cfg, states, d)
    requires ThreadsInUse(u, states[0]) && last == states[|states| - 1]
    ensures Execution(cfg, more, d) && states <= more
    ensures forall t <- more[|more| - 1].threads :: t.Finished?
    decreases Stages(last.threads), Left(last.threads)
  {
    if i: nat :| i < |last.threads| && !last.threads[i].Finished? {
      var b := OneStepMore(cfg, u, states, d, i);
      more := EveryCallCanReturn(cfg, u, states + [b], b, d);
    } else {
      more := states;
    }
  }

  lemma SameEverywhere(d: Disk, e: Disk)
    requires forall p :: At(d, p) == At(e, p)
    ensures d == e
  {
    forall p ensures p in d <==> p in e {
      assert At(d, p) == At(e, p);
    }
    forall p | p in d ensures d[p] == e[p] {
      assert At(d, p) == At(e, p);
    }
  }

  /** Calls on different logical files commute. */
  lemma DifferentFilesCommute(cfg: Config, u: Universe, x: Op, y: Op, d: Disk)
    requires Apart(cfg.sha, u) && Sound(cfg) && Tame(cfg, u, d) && OpInUse(u, x) && OpInUse(u, y) && x.site != y.site
    ensures RunOp(cfg, x, RunOp(cfg, y, d)) == RunOp(cfg, y, RunOp(cfg, x, d))
  {
    var dx, dy := RunOp(cfg, x, d), RunOp(cfg, y, d);
    RunOpTame(cfg, u, x, d);
    RunOpTame(cfg, u, y, d);
    OneSide(cfg, u, x, y, d);
    OneSide(cfg, u, y, x, d);
    var dxy, dyx := RunOp(cfg, x, dy), RunOp(cfg, y, dx);
    forall p ensures At(dxy, p) == At(dyx, p) {
      if Owns(cfg.sha, u, x.site, p) {
        assert At(dxy, p) == At(dx, p);
        assert At(dx, p) == At(dyx, p);
      } else if Owns(cfg.sha, u, y.site, p) {
        assert At(dyx, p) == At(dy, p);
        assert At(dy, p) == At(dxy, p);
      } else {
        assert At(dxy, p) == At(dy, p) && At(dy, p) == At(d, p);
        assert At(dyx, p) == At(dx, p) && At(dx, p) == At(d, p);
      }
    }
    SameEverywhere(dxy, dyx);
  }

  lemma OneSide(cfg: Config, u: Universe, x: Op, y: Op, d: Disk)
    requires Apart(cfg.sha, u) && Tame(cfg, u, d) && Tame(cfg, u, RunOp(cfg, y, d))
    requires OpInUse(u, x) && OpInUse(u, y) && x.site != y.site
    ensures SameFor(cfg.sha, u, x.site, RunOp(cfg, x, RunOp(cfg, y, d)), RunOp(cfg, x, d))
    ensures SameBeyond(cfg.sha, u, x.site, RunOp(cfg, y, d), RunOp(cfg, x, RunOp(cfg, y, d)))
    ensures SameBeyond(cfg.sha, u, x.site, d, RunOp(cfg, x, d))
    ensures SameFor(cfg.sha, u, y.site, RunOp(cfg, x, RunOp(cfg, y, d)), RunOp(cfg, y, d))
  {
    var dy := RunOp(cfg, y, d);
    OpsFrame(cfg, u, y, d, x.site);
    OpsFrame(cfg, u, x, d, y.site);
    OpsFrame(cfg, u, x, dy, y.site);
    IndexIsOwned(cfg, u, x.site, d, dy);
    var loaded := Load(cfg, d, x.site);
    if loaded.Success? {
      PlanIsLocal(cfg, u, x, loaded.value);
      ExecStaysLocal(cfg.sha, u, x.site, dy, d, Plan(cfg, x, loaded));
      forall p | Owns(cfg.sha, u, x.site, p) ensures At(dy, p) == At(d, p) {
        assert At(d, p) == At(dy, p);
      }
    }
  }
}
