/**
 * The network run on real disks: every node has a disk with its indexes and blobs, every protocol step
 * carries out at most one store operation on one of them, and the logs of the protocol are at all times
 * what those disks hold.
 */
module Realisation {
  import opened Base
  import opened Files
  import opened Versions
  import opened Layout
  import opened Histories
  import opened Plans
  import opened LiveBlobs
  import opened Transfers
  import opened Exchanges
  import opened Protocol
  import opened Agreement
  import opened Consistency
  import opened EveryRun
  import opened Recovery

  datatype Node = Node(cfg: Config, disk: Disk)

  /** The logs one node keeps, file by file. */
  ghost function LogsOf(w: World, n: string, sites: set<Site>): map<Site, History> {
    map s | s in sites :: LogAt(w, Place(n, s))
  }

  /** A node is set up as the network says. */
  ghost predicate Fit(net: Net, n: string, cfg: Config) {
    Sound(cfg) && cfg.cipher == Some(net.keystream(n)) && cfg.maxVersions == net.max(n)
  }

  /** The disk of a node holds its logs. */
  ghost predicate RealisedAt(net: Net, w: World, sites: set<Site>, n: string, node: Node) {
    && Fit(net, n, node.cfg) && WellKept(node.cfg, sites, node.disk)
    && AbsAt(node.cfg, sites, node.disk) == LogsOf(w, n, sites)
  }

  ghost predicate Realised(net: Net, w: World, sites: set<Site>, nodes: map<string, Node>) {
    forall n <- nodes :: RealisedAt(net, w, sites, n, nodes[n])
  }

  lemma OpIsFresh(net: Net, w: World, a: Action)
    requires Rough(net, w) && Enabled(net, w, a) && OpOf(w, a).Some?
    ensures Fresh(OpOf(w, a).value.1, LogAt(w, OpOf(w, a).value.0))
  {
    var (p, op) := OpOf(w, a).value;
    assert RoughHistory(w.made, p.site, net.max(p.holder), LogAt(w, p));
    forall e | e in LogAt(w, p).versions ensures Name(p.site, e.versionID) in w.made {
      assert EntryTrue(w.made, p.site, e);
    }
  }

  /** A node after one store operation was carried out somewhere. */
  ghost function Carried(o: Option<(Place, Op)>, n: string, node: Node): Node {
    match o
    case None => node
    case Some((p, op)) =>
      if n == p.holder && IsDigest(node.cfg.sha) then node.(disk := RunOp(node.cfg, op, node.disk)) else node
  }

  ghost function Played(w: World, a: Action, nodes: map<string, Node>): map<string, Node> {
    map n | n in nodes :: Carried(OpOf(w, a), n, nodes[n])
  }

  /**
   * On the disk it is carried out on, the blob of an operation and those listed at that moment differ in their
   * first digits.
   */
  ghost predicate NodeApart(sites: set<Site>, o: Option<(Place, Op)>, n: string, node: Node) {
    match o
    case None => true
    case Some((p, op)) => p.site in sites && (n == p.holder ==> ApartFor(node.cfg, sites, op, node.disk))
  }

  ghost predicate StepApart(w: World, sites: set<Site>, a: Action, nodes: map<string, Node>) {
    forall n <- nodes :: NodeApart(sites, OpOf(w, a), n, nodes[n])
  }

  lemma LogsChange(w: World, p: Place, h: History, w': World, n: string, sites: set<Site>)
    requires w'.logs == w.logs[p := h] && p.site in sites
    ensures LogsOf(w', n, sites) == if n == p.holder then LogsOf(w, n, sites)[p.site := h] else LogsOf(w, n, sites)
  {
    forall s | s in sites
      ensures LogAt(w', Place(n, s)) == if n == p.holder && s == p.site then h else LogAt(w, Place(n, s))
    {
      assert Place(n, s) == p <==> n == p.holder && s == p.site;
    }
  }

  lemma LogsStay(w: World, w': World, n: string, sites: set<Site>)
    requires w'.logs == w.logs
    ensures LogsOf(w', n, sites) == LogsOf(w, n, sites)
  {
  }

  lemma NodeSteps(net: Net, w: World, sites: set<Site>, p: Place, op: Op, node: Node, w': World)
    requires RealisedAt(net, w, sites, p.holder, node) && op.site == p.site && ApartFor(node.cfg, sites, op, node.disk)
    requires Fresh(op, LogAt(w, p)) && w'.logs == w.logs[p := Do(net, p, op, LogAt(w, p))]
    ensures RealisedAt(net, w', sites, p.holder, node.(disk := RunOp(node.cfg, op, node.disk)))
  {
    assert Place(p.holder, p.site) == p;
    StepWhileApart(node.cfg, sites, op, node.disk, LogsOf(w, p.holder, sites));
    LogsChange(w, p, Do(net, p, op, LogAt(w, p)), w', p.holder, sites);
  }

  lemma NodeFollows(net: Net, w: World, sites: set<Site>, o: Option<(Place, Op)>, n: string, node: Node, w': World)
    requires RealisedAt(net, w, sites, n, node) && NodeApart(sites, o, n, node)
    requires match o
             case None => w'.logs == w.logs
             case Some((p, op)) =>
               op.site == p.site && Fresh(op, LogAt(w, p)) && w'.logs == w.logs[p := Do(net, p, op, LogAt(w, p))]
    ensures RealisedAt(net, w', sites, n, Carried(o, n, node))
  {
    match o
    case None =>
      LogsStay(w, w', n, sites);
    case Some((p, op)) =>
      if n == p.holder {
        NodeSteps(net, w, sites, p, op, node, w');
      } else {
        LogsChange(w, p, Do(net, p, op, LogAt(w, p)), w', n, sites);
      }
  }

  /**
   * One step of the protocol and one store operation on the disk of the node that takes it keep logs and disks
   * in step.
   */
  lemma StepRealised(net: Net, w: World, sites: set<Site>, a: Action, nodes: map<string, Node>, w': World)
    requires Rough(net, w) && Enabled(net, w, a) && w' == Next(net, w, a)
    requires Realised(net, w, sites, nodes) && StepApart(w, sites, a, nodes)
    ensures Realised(net, w', sites, Played(w, a, nodes))
  {
    StepIsOp(net, w, a, w');
    var o := OpOf(w, a);
    if o.Some? {
      OpIsFresh(net, w, a);
    }
    forall n | n in nodes ensures RealisedAt(net, w', sites, n, Carried(o, n, nodes[n])) {
      NodeFollows(net, w, sites, o, n, nodes[n], w');
    }
  }

  /** The nodes after a run. */
  ghost function Play(net: Net, trail: Trail, nodes: map<string, Node>): map<string, Node>
    requires Possible(net, trail)
  {
    match trail
    case Begin => nodes
    case Then(before, a) => Played(After(net, before), a, Play(net, before, nodes))
  }

  /** At no moment of the run do two live blobs on one disk share a first path component. */
  ghost predicate RunApart(net: Net, sites: set<Site>, trail: Trail, nodes: map<string, Node>)
    requires Possible(net, trail)
  {
    match trail
    case Begin => true
    case Then(before, a) =>
      RunApart(net, sites, before, nodes) && StepApart(After(net, before), sites, a, Play(net, before, nodes))
  }

  ghost predicate SetUp(net: Net, nodes: map<string, Node>) {
    forall n <- nodes :: Fit(net, n, nodes[n].cfg) && nodes[n].disk == map[]
  }

  lemma EmptyRealises(net: Net, sites: set<Site>, nodes: map<string, Node>)
    requires SetUp(net, nodes)
    ensures Realised(net, START, sites, nodes)
  {
    forall n | n in nodes ensures RealisedAt(net, START, sites, n, nodes[n]) {
      forall s | s in sites ensures Load(nodes[n].cfg, map[], s).Success? && Abs(nodes[n].cfg, map[], s) == EMPTY {
        assert Abs(nodes[n].cfg, map[], s).blobs == map[];
      }
    }
  }

  /** After every run from empty disks, whatever went wrong in it, the disks hold exactly the logs. */
  lemma {:induction false} TrailRealised(net: Net, sites: set<Site>, nodes: map<string, Node>, trail: Trail)
    requires Possible(net, trail) && RunApart(net, sites, trail, nodes) && SetUp(net, nodes)
    ensures Realised(net, After(net, trail), sites, Play(net, trail, nodes))
  {
    match trail
    case Begin =>
      EmptyRealises(net, sites, nodes);
    case Then(before, a) =>
      TrailRealised(net, sites, nodes, before);
      EveryRunIsRough(net, before);
      StepRealised(net, After(net, before), sites, a, Play(net, before, nodes), After(net, trail));
  }

  /** The versions peers answer with. */
  function Offered(s: Site, answers: seq<Answer>): set<Name> {
    set a | a in answers && a.Found? :: Name(s, a.entry.versionID)
  }

  /** The versions offered and those listed on the disk differ in their first digits. */
  ghost predicate GetApart(sites: set<Site>, s: Site, answers: seq<Answer>, node: Node) {
    s in sites && Apart(node.cfg.sha, Live(node.cfg, sites, node.disk, Offered(s, answers)))
  }

  lemma NodeGets(net: Net, w: World, sites: set<Site>, s: Site, node: Node, id: string, answers: seq<Answer>)
    requires RealisedAt(net, w, sites, s.node, node) && GetApart(sites, s, answers, node)
    ensures DiskGet(node.cfg, s, id, answers, node.disk).1 ==
            Get(CipherOf(net, Own(s)), net.max(s.node), s, LogAt(w, Own(s)), id, answers).1
  {
    var u := Live(node.cfg, sites, node.disk, Offered(s, answers));
    LiveIsKept(node.cfg, sites, node.disk, Offered(s, answers));
    KeptIsWellKept(node.cfg, u, node.disk);
    GetRefines(node.cfg, u, s, id, answers, node.disk);
    assert Place(s.node, s) == Own(s);
    assert AbsAt(node.cfg, sites, node.disk)[s] == LogsOf(w, s.node, sites)[s];
  }

  /** At the end of a run from empty disks, with the origin among the nodes, a get on its disk is a get on its log. */
  lemma RunGets(net: Net, sites: set<Site>, nodes: map<string, Node>, trail: Trail, s: Site, id: string,
                answers: seq<Answer>)
    requires Possible(net, trail) && RunApart(net, sites, trail, nodes) && SetUp(net, nodes)
    requires s.node in Play(net, trail, nodes) && GetApart(sites, s, answers, Play(net, trail, nodes)[s.node])
    ensures var w, node := After(net, trail), Play(net, trail, nodes)[s.node];
            && IsDigest(node.cfg.sha)
            && DiskGet(node.cfg, s, id, answers, node.disk).1 ==
               Get(CipherOf(net, Own(s)), net.max(s.node), s, LogAt(w, Own(s)), id, answers).1
  {
    TrailRealised(net, sites, nodes, trail);
    assert RealisedAt(net, After(net, trail), sites, s.node, Play(net, trail, nodes)[s.node]);
    NodeGets(net, After(net, trail), sites, s, Play(net, trail, nodes)[s.node], id, answers);
  }

  /**
   * Recovery on the disk: what RecoversAfterAnyRun promises is what GetVersion returns from the origin's
   * own disk and its peers' streams.
   */
  lemma RecoversOnDisk(net: Net, sites: set<Site>, nodes: map<string, Node>, trail: Trail, s: Site, id: string,
                       peers: seq<string>, answers: seq<Answer>, i: nat)
    requires Safe(net, trail) && RunApart(net, sites, trail, nodes) && SetUp(net, nodes)
    requires s.node in Play(net, trail, nodes) && GetApart(sites, s, answers, Play(net, trail, nodes)[s.node])
    requires id != "" && !Unsettled(After(net, trail).windows, Own(s), id)
    requires Answering(After(net, trail), s, id, peers, answers)
    requires i < |peers| && answers[i].Found? && |answers[i].delivered| == answers[i].promised
    ensures var w, node := After(net, trail), Play(net, trail, nodes)[s.node];
            && IsDigest(node.cfg.sha) && Name(s, id) in w.made
            && var plain := w.made[Name(s, id)].plain;
               DiskGet(node.cfg, s, id, answers, node.disk).1 == Success((|plain|, plain))
  {
    RunGets(net, sites, nodes, trail, s, id, answers);
    RecoversAfterAnyRun(net, trail, s, id, peers, answers, i);
  }

  /** The same for a get that names no version. */
  lemma RecoversLatestOnDisk(net: Net, sites: set<Site>, nodes: map<string, Node>, trail: Trail, s: Site,
                             peers: seq<string>, answers: seq<Answer>, i: nat) returns (id: string)
    requires Safe(net, trail) && RunApart(net, sites, trail, nodes) && SetUp(net, nodes)
    requires s.node in Play(net, trail, nodes) && GetApart(sites, s, answers, Play(net, trail, nodes)[s.node])
    requires Answering(After(net, trail), s, "", peers, answers)
    requires var w := After(net, trail);
             if LogAt(w, Own(s)).versions != [] then !Unsettled(w.windows, Own(s), LogAt(w, Own(s)).latest)
             else i < |answers| && answers[i].Found? && |answers[i].delivered| == answers[i].promised
    ensures var w, node := After(net, trail), Play(net, trail, nodes)[s.node];
            && IsDigest(node.cfg.sha) && Name(s, id) in w.made
            && var plain := w.made[Name(s, id)].plain;
               DiskGet(node.cfg, s, "", answers, node.disk).1 == Success((|plain|, plain))
  {
    RunGets(net, sites, nodes, trail, s, "", answers);
    id := RecoversLatest(net, trail, s, peers, answers, i, LogAt(After(net, trail), Own(s)));
  }

  /** In runs with hazards too, what GetVersion returns from the disk is at worst a beginning, and its length tells. */
  lemma RecoversABeginningOnDisk(net: Net, sites: set<Site>, nodes: map<string, Node>, trail: Trail, s: Site,
                                 id: string, peers: seq<string>, answers: seq<Answer>)
    requires Possible(net, trail) && Steady(net, trail) && RunApart(net, sites, trail, nodes) && SetUp(net, nodes)
    requires s.node in Play(net, trail, nodes) && GetApart(sites, s, answers, Play(net, trail, nodes)[s.node])
    requires Name(s, id) in After(net, trail).made && |peers| == |answers|
    requires forall j :: 0 <= j < |peers| ==> AnswersInPart(After(net, trail), Place(peers[j], s), id, answers[j])
    ensures IsDigest(Play(net, trail, nodes)[s.node].cfg.sha)
    ensures var plain, node := After(net, trail).made[Name(s, id)].plain, Play(net, trail, nodes)[s.node];
            var r := DiskGet(node.cfg, s, id, answers, node.disk).1;
            r.Success? ==>
                  r.value.0 == |plain| && r.value.1 <= plain && (r.value.1 == plain <==> |r.value.1| == r.value.0)
  {
    var w := After(net, trail);
    RunGets(net, sites, nodes, trail, s, id, answers);
    var (h', r) := Get(CipherOf(net, Own(s)), net.max(s.node), s, LogAt(w, Own(s)), id, answers);
    RecoversABeginning(net, trail, s, id, peers, answers, h', r);
  }

  /** In every run whatever, what GetVersion returns from the disk begins the plaintext of some version of the file. */
  lemma GetsSomeBeginningOnDisk(net: Net, sites: set<Site>, nodes: map<string, Node>, trail: Trail, s: Site,
                                id: string, answers: seq<Answer>) returns (n: Name)
    requires Possible(net, trail) && RunApart(net, sites, trail, nodes) && SetUp(net, nodes)
    requires s.node in Play(net, trail, nodes) && GetApart(sites, s, answers, Play(net, trail, nodes)[s.node])
    requires forall a <- answers :: RoughAnswer(After(net, trail).made, s, a)
    ensures var w, node := After(net, trail), Play(net, trail, nodes)[s.node];
            && IsDigest(node.cfg.sha)
            && var r := DiskGet(node.cfg, s, id, answers, node.disk).1;
               r.Success? ==> n in w.made && n.site == s && r.value.1 <= w.made[n].plain
  {
    var w := After(net, trail);
    RunGets(net, sites, nodes, trail, s, id, answers);
    var (h', r) := Get(CipherOf(net, Own(s)), net.max(s.node), s, LogAt(w, Own(s)), id, answers);
    n := GetsSomeBeginning(net, trail, s, id, answers, h', r);
  }
}
