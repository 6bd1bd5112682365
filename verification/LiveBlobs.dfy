/**
 * The refinement under a weaker hypothesis: at each operation only the versions listed at that moment, and
 * the one being written, must differ within the first five digits of their digests. Buckets has the exact condition.
 */
module LiveBlobs {
  import opened Files
  import opened Versions
  import opened Layout
  import opened Histories
  import opened Plans
  import opened Refinement

  function ListedAt(cfg: Config, d: Disk, s: Site): set<string> {
    if Load(cfg, d, s).Success? then Ids(Load(cfg, d, s).value.versions) else {}
  }

  /** The version an operation writes. */
  function Written(op: Op): set<Name> {
    if op.Write? then {Name(op.site, op.id)}
    else if op.WriteRaw? && op.meta.versionID != "" then {Name(op.site, op.meta.versionID)}
    else {}
  }

  /** The versions listed on a disk and those about to be written. */
  function Live(cfg: Config, sites: set<Site>, d: Disk, written: set<Name>): Universe {
    Universe(sites, (set s, x | s in sites && x in ListedAt(cfg, d, s) :: Name(s, x)) + written)
  }

  /** The disk of a store that has only been used through its operations. */
  ghost predicate WellKept(cfg: Config, sites: set<Site>, d: Disk) {
    forall s <- sites :: Load(cfg, d, s).Success? && WellFormed(Abs(cfg, d, s), cfg.maxVersions)
  }

  ghost function AbsAt(cfg: Config, sites: set<Site>, d: Disk): map<Site, History>
    requires WellKept(cfg, sites, d)
  {
    map s | s in sites :: Abs(cfg, d, s)
  }

  /** No two live blobs of a node collide when an operation runs, nor do the digests of two keys. */
  ghost predicate ApartFor(cfg: Config, sites: set<Site>, op: Op, d: Disk) {
    op.site in sites && Apart(cfg.sha, Live(cfg, sites, d, Written(op)))
  }

  ghost predicate ApartThroughout(cfg: Config, sites: set<Site>, ops: seq<Op>, d: Disk)
    requires IsDigest(cfg.sha)
    decreases |ops|
  {
    ops == [] || (ApartFor(cfg, sites, ops[0], d) && ApartThroughout(cfg, sites, ops[1..], RunOp(cfg, ops[0], d)))
  }

  lemma LiveIsKept(cfg: Config, sites: set<Site>, d: Disk, written: set<Name>)
    requires WellKept(cfg, sites, d)
    ensures Kept(cfg, Live(cfg, sites, d, written), d)
  {
    var u := Live(cfg, sites, d, written);
    forall s | s in sites ensures InUse(u, s, Load(cfg, d, s).value.versions) {
      forall x | x in Ids(Load(cfg, d, s).value.versions) ensures Name(s, x) in u.names {
        assert x in ListedAt(cfg, d, s);
      }
    }
  }

  lemma KeptIsWellKept(cfg: Config, u: Universe, d: Disk)
    requires Kept(cfg, u, d)
    ensures WellKept(cfg, u.sites, d) && AbsAt(cfg, u.sites, d) == AbsAll(cfg, u, d)
  {
  }

  /** One operation and one step of its history, if its blob and the live ones differ. */
  lemma StepWhileApart(cfg: Config, sites: set<Site>, op: Op, d: Disk, hs: map<Site, History>)
    requires Sound(cfg) && WellKept(cfg, sites, d) && ApartFor(cfg, sites, op, d)
    requires hs == AbsAt(cfg, sites, d) && Fresh(op, hs[op.site])
    ensures WellKept(cfg, sites, RunOp(cfg, op, d))
    ensures AbsAt(cfg, sites, RunOp(cfg, op, d)) == hs[op.site := Step(cfg.cipher, cfg.maxVersions, op, hs[op.site])]
  {
    var u := Live(cfg, sites, d, Written(op));
    LiveIsKept(cfg, sites, d, Written(op));
    KeptIsWellKept(cfg, u, d);
    OneStep(cfg, u, op, d);
    KeptIsWellKept(cfg, u, RunOp(cfg, op, d));
  }

  /**
   * For every sequence of operations during which no two live blobs of a node share a first path
   * component, the disk and the abstract store stay in step.
   */
  lemma {:induction false} RunRefinesWhileApart(cfg: Config, sites: set<Site>, ops: seq<Op>, d: Disk)
    requires Sound(cfg) && WellKept(cfg, sites, d) && ApartThroughout(cfg, sites, ops, d)
    requires FreshAll(cfg.cipher, cfg.maxVersions, ops, AbsAt(cfg, sites, d))
    ensures WellKept(cfg, sites, RunOps(cfg, ops, d))
    ensures AbsAt(cfg, sites, RunOps(cfg, ops, d)) == RunAll(cfg.cipher, cfg.maxVersions, ops, AbsAt(cfg, sites, d))
    decreases |ops|
  {
    if ops != [] {
      StepWhileApart(cfg, sites, ops[0], d, AbsAt(cfg, sites, d));
      RunRefinesWhileApart(cfg, sites, ops[1..], RunOp(cfg, ops[0], d));
    }
  }
}
