/**
 * A handler's work on its own disk and the protocol's steps: taking in a transfer is the step Receive and then the
 * step Check, or Abort alone, on the same disk and in the same world.
 */
module Intake {
  import opened Base
  import opened Files
  import opened Versions
  import opened Layout
  import opened Histories
  import opened Plans
  import opened LiveBlobs
  import opened Transfers
  import opened Exchanges
  import opened Protocol
  import opened Agreement
  import opened EveryRun
  import opened Realisation
  import opened Handover
  import opened Server
  import opened EndToEnd
  import Codec

  /** A run going on with what a node does when `arrived` bytes of a transfer reach it on a stream. */
  function Handling(trail: Trail, t: Transfer, arrived: nat, clean: bool): Trail {
    if clean || arrived >= |t.bytes| then Then(Then(trail, Receive(t, arrived)), Check(BlobWindow(t, arrived)))
    else Then(trail, Abort(t, arrived))
  }

  // ---- What is live does not grow ----

  lemma FewerLive(cfg: Config, sites: set<Site>, d: Disk, written: set<Name>, d1: Disk)
    requires Apart(cfg.sha, Live(cfg, sites, d, written))
    requires forall s, x :: s in sites && x in ListedAt(cfg, d1, s) ==>
               x in ListedAt(cfg, d, s) || Name(s, x) in written
    ensures Apart(cfg.sha, Live(cfg, sites, d1, {}))
  {
    forall n | n in Live(cfg, sites, d1, {}).names ensures n in Live(cfg, sites, d, written).names {
      assert n.id in ListedAt(cfg, d1, n.site);
    }
  }

  lemma ListedNext(c: Cipher, max: int, op: Op, h: History, h': History)
    requires (op.Write? || op.WriteRaw?) && h' == Step(c, max, op, h)
    ensures Ids(h'.versions) <= Ids(h.versions) + {StoredID(op)}
  {
    OpAdds(c, max, op, h, h');
  }

  lemma ListedOf(cfg: Config, sites: set<Site>, d: Disk, hs: map<Site, History>, s: Site)
    requires WellKept(cfg, sites, d) && hs == AbsAt(cfg, sites, d) && s in sites
    ensures ListedAt(cfg, d, s) == Ids(hs[s].versions)
  {
  }

  lemma ListedAfterPut(cfg: Config, sites: set<Site>, op: Op, d: Disk, d1: Disk, hs: map<Site, History>,
                       hs1: map<Site, History>, s: Site)
    requires (op.Write? || op.WriteRaw?) && op.site in hs && s in sites && op.site in hs1
    requires WellKept(cfg, sites, d) && hs == AbsAt(cfg, sites, d)
    requires WellKept(cfg, sites, d1) && hs1 == AbsAt(cfg, sites, d1)
    requires hs1 == hs[op.site := hs1[op.site]]
    requires Ids(hs1[op.site].versions) <= Ids(hs[op.site].versions) + {StoredID(op)}
    ensures forall x <- ListedAt(cfg, d1, s) ::
              x in ListedAt(cfg, d, s) || (s == op.site && x == StoredID(op))
  {
    ListedOf(cfg, sites, d, hs, s);
    ListedOf(cfg, sites, d1, hs1, s);
  }

  lemma ApartAfterPut(cfg: Config, sites: set<Site>, op: Op, d: Disk, d1: Disk)
    requires Sound(cfg) && WellKept(cfg, sites, d) && (op.Write? || op.WriteRaw?) && StoredID(op) != ""
    requires op.site in sites && Fresh(op, Abs(cfg, d, op.site))
    requires ApartFor(cfg, sites, op, d) && d1 == RunOp(cfg, op, d)
    ensures Apart(cfg.sha, Live(cfg, sites, d1, {}))
  {
    var hs := AbsAt(cfg, sites, d);
    StepWhileApart(cfg, sites, op, d, hs);
    var hs1 := AbsAt(cfg, sites, d1);
    ListedNext(cfg.cipher, cfg.maxVersions, op, hs[op.site], hs1[op.site]);
    forall s, x | s in sites && x in ListedAt(cfg, d1, s)
      ensures x in ListedAt(cfg, d, s) || Name(s, x) in Written(op)
    {
      ListedAfterPut(cfg, sites, op, d, d1, hs, hs1, s);
    }
    FewerLive(cfg, sites, d, Written(op), d1);
  }

  // ---- One node's disk ----

  /** What a handler does with the bytes of a transfer that arrive. */
  function Arriving(t: Transfer, arrived: nat, clean: bool): Answer {
    Found(t.entry, |t.bytes|, Prefix(t.bytes, arrived), clean)
  }

  function Confirmation(t: Transfer): Ack {
    Ack(Place(t.to, t.site), t.entry, t.bytes, None)
  }

  lemma WhatIsStored(t: Transfer, arrived: nat, clean: bool)
    ensures FetchOp(t.site, Arriving(t, arrived, clean)) == Protocol.Put(t, arrived, clean || arrived >= |t.bytes|)
    ensures |Prefix(t.bytes, arrived)| == |t.bytes| <==> arrived >= |t.bytes|
  {
    assert Prefix(Prefix(t.bytes, arrived), |t.bytes|) == Prefix(t.bytes, arrived);
  }

  /** The handler's disk is the disk after the operations of the steps. */
  lemma DiskTakesSteps(cfg: Config, t: Transfer, arrived: nat, clean: bool, d: Disk)
    requires IsDigest(cfg.sha) && t.entry.versionID != "" && Load(cfg, d, t.site).Success?
    ensures var (d', kept) := DiskFetch(cfg, t.site, Arriving(t, arrived, clean), d);
            var d1 := RunOp(cfg, Protocol.Put(t, arrived, clean || arrived >= |t.bytes|), d);
            && (kept <==> arrived >= |t.bytes|)
            && d' == if clean && arrived < |t.bytes| then RunOp(cfg, DropVersion(t.site, t.entry.versionID), d1) else d1
  {
    WhatIsStored(t, arrived, clean);
  }

  // ---- The run goes on ----

  lemma PlayedHere(w: World, a: Action, p: Place, op: Op, nodes: map<string, Node>)
    requires OpOf(w, a) == Some((p, op)) && p.holder in nodes && IsDigest(nodes[p.holder].cfg.sha)
    ensures var node := nodes[p.holder];
            Played(w, a, nodes) == nodes[p.holder := node.(disk := RunOp(node.cfg, op, node.disk))]
  {
  }

  lemma PlayedNowhere(w: World, a: Action, nodes: map<string, Node>)
    requires OpOf(w, a) == None
    ensures Played(w, a, nodes) == nodes
  {
  }

  lemma ReceivedAndChecked(net: Net, w: World, t: Transfer, arrived: nat, w1: World)
    requires t in w.wires && w1 == Next(net, w, Receive(t, arrived))
    ensures BlobWindow(t, arrived) in w1.windows
    ensures Next(net, w1, Check(BlobWindow(t, arrived))).acks ==
            w.acks + if arrived >= |t.bytes| then {Confirmation(t)} else {}
  {
    assert w1.windows == w.windows + multiset{BlobWindow(t, arrived)} && w1.acks == w.acks;
    if arrived >= |t.bytes| {
      assert Prefix(t.bytes, arrived) == t.bytes;
    }
  }

  lemma TwoStepsOn(net: Net, trail: Trail, a: Action, b: Action)
    requires Possible(net, trail) && Enabled(net, After(net, trail), a)
    requires Enabled(net, Next(net, After(net, trail), a), b)
    ensures Possible(net, Then(trail, a)) && Possible(net, Then(Then(trail, a), b))
    ensures After(net, Then(Then(trail, a), b)) == Next(net, Next(net, After(net, trail), a), b)
  {
  }

  lemma HandlingIsPossible(net: Net, trail: Trail, t: Transfer, arrived: nat, clean: bool)
    requires Possible(net, trail) && t in After(net, trail).wires
    ensures Possible(net, Handling(trail, t, arrived, clean))
    ensures After(net, Handling(trail, t, arrived, clean)).acks ==
            After(net, trail).acks + if arrived >= |t.bytes| then {Confirmation(t)} else {}
  {
    var w := After(net, trail);
    if clean || arrived >= |t.bytes| {
      var w1 := Next(net, w, Receive(t, arrived));
      ReceivedAndChecked(net, w, t, arrived, w1);
      TwoStepsOn(net, trail, Receive(t, arrived), Check(BlobWindow(t, arrived)));
    }
  }

  /** The version a transfer brings and those listed on the disk differ in their first digits. */
  ghost predicate TransferApart(sites: set<Site>, t: Transfer, node: Node) {
    t.site in sites && Apart(node.cfg.sha, Live(node.cfg, sites, node.disk, {Name(t.site, t.entry.versionID)}))
  }

  lemma AboutTheTransfer(net: Net, sites: set<Site>, nodes: map<string, Node>, trail: Trail, was: map<string, Node>,
                         t: Transfer)
    requires Possible(net, trail) && RunApart(net, sites, trail, nodes) && SetUp(net, nodes)
    requires was == Play(net, trail, nodes) && t in After(net, trail).wires && t.to in was && t.site in sites
    ensures var node := was[t.to];
            && t.entry.versionID != "" && Sound(node.cfg) && WellKept(node.cfg, sites, node.disk)
            && Load(node.cfg, node.disk, t.site).Success?
  {
    EveryRunIsRough(net, trail);
    TrailRealised(net, sites, nodes, trail);
    assert EntryTrue(After(net, trail).made, t.site, t.entry);
    assert RealisedAt(net, After(net, trail), sites, t.to, was[t.to]);
  }

  /** The first step of a node that takes in a transfer, on the disks. */
  lemma StoringPlays(sites: set<Site>, nodes: map<string, Node>, w: World, t: Transfer, arrived: nat, clean: bool,
                     d1: Disk)
    requires t.to in nodes && t.entry.versionID != "" && Sound(nodes[t.to].cfg)
    requires WellKept(nodes[t.to].cfg, sites, nodes[t.to].disk) && TransferApart(sites, t, nodes[t.to])
    requires d1 == RunOp(nodes[t.to].cfg, Protocol.Put(t, arrived, clean), nodes[t.to].disk)
    ensures var a := if clean then Receive(t, arrived) else Abort(t, arrived);
            && StepApart(w, sites, a, nodes)
            && Played(w, a, nodes) == nodes[t.to := nodes[t.to].(disk := d1)]
            && Apart(nodes[t.to].cfg.sha, Live(nodes[t.to].cfg, sites, d1, {}))
  {
    var p, op := Place(t.to, t.site), Protocol.Put(t, arrived, clean);
    assert Written(op) == {Name(t.site, t.entry.versionID)};
    ApartAfterPut(nodes[t.to].cfg, sites, op, nodes[t.to].disk, d1);
    PlayedHere(w, if clean then Receive(t, arrived) else Abort(t, arrived), p, op, nodes);
  }

  /** The second step, on the disks. */
  lemma CheckingPlays(sites: set<Site>, nodes: map<string, Node>, w: World, t: Transfer, arrived: nat)
    requires t.site in sites && t.to in nodes
    requires Apart(nodes[t.to].cfg.sha, Live(nodes[t.to].cfg, sites, nodes[t.to].disk, {}))
    ensures var a, node := Check(BlobWindow(t, arrived)), nodes[t.to];
            && StepApart(w, sites, a, nodes)
            && Played(w, a, nodes) ==
               if arrived >= |t.bytes| then nodes
               else nodes[t.to := node.(disk := RunOp(node.cfg, DropVersion(t.site, t.entry.versionID), node.disk))]
  {
    var a := Check(BlobWindow(t, arrived));
    if arrived >= |t.bytes| {
      PlayedNowhere(w, a, nodes);
    } else {
      PlayedHere(w, a, Place(t.to, t.site), DropVersion(t.site, t.entry.versionID), nodes);
    }
  }

  /** The disk after both steps. */
  function BothDone(t: Transfer, arrived: nat, node: Node, d1: Disk): Disk
    requires IsDigest(node.cfg.sha)
  {
    if arrived >= |t.bytes| then d1 else RunOp(node.cfg, DropVersion(t.site, t.entry.versionID), d1)
  }

  /** Both steps on the disks. */
  lemma BothPlay(sites: set<Site>, was: map<string, Node>, w: World, t: Transfer, arrived: nat, w1: World, d1: Disk)
    requires t.to in was && t.entry.versionID != "" && Sound(was[t.to].cfg)
    requires WellKept(was[t.to].cfg, sites, was[t.to].disk) && TransferApart(sites, t, was[t.to])
    requires d1 == RunOp(was[t.to].cfg, Protocol.Put(t, arrived, true), was[t.to].disk)
    ensures StepApart(w, sites, Receive(t, arrived), was)
    ensures StepApart(w1, sites, Check(BlobWindow(t, arrived)), Played(w, Receive(t, arrived), was))
    ensures Played(w1, Check(BlobWindow(t, arrived)), Played(w, Receive(t, arrived), was)) ==
            was[t.to := was[t.to].(disk := BothDone(t, arrived, was[t.to], d1))]
  {
    StoringPlays(sites, was, w, t, arrived, true, d1);
    CheckingPlays(sites, was[t.to := was[t.to].(disk := d1)], w1, t, arrived);
  }

  /** How a stream that breaks off counts only if it breaks off too early. */
  lemma EndMatters(cfg: Config, t: Transfer, arrived: nat, clean: bool, d: Disk)
    requires IsDigest(cfg.sha)
    ensures DiskFetch(cfg, t.site, Arriving(t, arrived, clean), d) ==
            DiskFetch(cfg, t.site, Arriving(t, arrived, clean || arrived >= |t.bytes|), d)
  {
    WhatIsStored(t, arrived, clean);
    WhatIsStored(t, arrived, clean || arrived >= |t.bytes|);
  }

  lemma HandlingPlays(net: Net, sites: set<Site>, nodes: map<string, Node>, trail: Trail, was: map<string, Node>,
                      t: Transfer, arrived: nat, clean: bool, d': Disk)
    requires Possible(net, trail) && RunApart(net, sites, trail, nodes) && was == Play(net, trail, nodes)
    requires t in After(net, trail).wires && t.to in was && t.entry.versionID != "" && Sound(was[t.to].cfg)
    requires WellKept(was[t.to].cfg, sites, was[t.to].disk) && TransferApart(sites, t, was[t.to])
    requires Load(was[t.to].cfg, was[t.to].disk, t.site).Success?
    requires d' == DiskFetch(was[t.to].cfg, t.site, Arriving(t, arrived, clean), was[t.to].disk).0
    requires Possible(net, Handling(trail, t, arrived, clean))
    ensures RunApart(net, sites, Handling(trail, t, arrived, clean), nodes)
    ensures Play(net, Handling(trail, t, arrived, clean), nodes) == was[t.to := was[t.to].(disk := d')]
  {
    var w := After(net, trail);
    if clean || arrived >= |t.bytes| {
      var d1 := RunOp(was[t.to].cfg, Protocol.Put(t, arrived, true), was[t.to].disk);
      EndMatters(was[t.to].cfg, t, arrived, clean, was[t.to].disk);
      DiskTakesSteps(was[t.to].cfg, t, arrived, true, was[t.to].disk);
      BothPlay(sites, was, w, t, arrived, After(net, Then(trail, Receive(t, arrived))), d1);
    } else {
      DiskTakesSteps(was[t.to].cfg, t, arrived, false, was[t.to].disk);
      StoringPlays(sites, was, w, t, arrived, false, d');
    }
  }

  /** A run goes on to a longer one whose disks and acknowledgements are those after the transfer was handled. */
  ghost predicate GoesOn(net: Net, sites: set<Site>, nodes: map<string, Node>, trail: Trail, longer: Trail, t: Transfer,
                         d': Disk, confirmed: bool)
    requires Possible(net, trail) && t.to in Play(net, trail, nodes)
  {
    var was := Play(net, trail, nodes);
    && Possible(net, longer) && RunApart(net, sites, longer, nodes)
    && Play(net, longer, nodes) == was[t.to := was[t.to].(disk := d')]
    && After(net, longer).acks == After(net, trail).acks + if confirmed then {Confirmation(t)} else {}
  }

  lemma SameNode(nodes: map<string, Node>, n: string)
    requires n in nodes
    ensures nodes[n := nodes[n].(disk := nodes[n].disk)] == nodes
  {
  }

  lemma StandsStill(net: Net, sites: set<Site>, nodes: map<string, Node>, trail: Trail, t: Transfer, d': Disk)
    requires Possible(net, trail) && RunApart(net, sites, trail, nodes) && t.to in Play(net, trail, nodes)
    requires d' == Play(net, trail, nodes)[t.to].disk
    ensures GoesOn(net, sites, nodes, trail, trail, t, d', false)
  {
    SameNode(Play(net, trail, nodes), t.to);
  }

  /**
   * Wherever a run has got to, when some bytes of a transfer reach a node and it stores and checks them on its disk,
   * the run has gone on by the steps Receive and Check, or Abort: they are possible there, the disks of all nodes
   * are those that this longer run leaves, and the transfer is accepted exactly when the protocol confirms it.
   */
  lemma TakingInIsHandling(net: Net, sites: set<Site>, nodes: map<string, Node>, trail: Trail, t: Transfer,
                           arrived: nat, clean: bool, was: map<string, Node>, d': Disk, kept: bool)
    requires Possible(net, trail) && RunApart(net, sites, trail, nodes) && SetUp(net, nodes)
    requires was == Play(net, trail, nodes) && t in After(net, trail).wires && t.to in was
    requires TransferApart(sites, t, was[t.to])
    requires (d', kept) == DiskFetch(was[t.to].cfg, t.site, Arriving(t, arrived, clean), was[t.to].disk)
    ensures GoesOn(net, sites, nodes, trail, Handling(trail, t, arrived, clean), t, d', kept)
  {
    AboutTheTransfer(net, sites, nodes, trail, was, t);
    DiskTakesSteps(was[t.to].cfg, t, arrived, clean, was[t.to].disk);
    HandlingIsPossible(net, trail, t, arrived, clean);
    HandlingPlays(net, sites, nodes, trail, was, t, arrived, clean, d');
  }

  /** What handleStore does with the part of a store request that arrives. */
  lemma RequestTakenIn(cfg: Config, codec: Codec.PayloadCodec<StoreRequest>, t: Transfer, cut: nat, clean: bool,
                       d: Disk, d': Disk, resp: Option<StoreResponse>) returns (arrived: nat)
    requires IsDigest(cfg.sha) && Codec.Lossless(codec)
    requires t.entry.versionID != "" && Load(cfg, d, t.site).Success?
    requires Fits(codec, StoreRequest(t.site.node, t.site.key, MetaFromEntry(t.entry, |t.bytes|)))
    requires cut <= |StoreBytes(codec, t.site.node, t.site.key, t.entry, t.bytes)|
    requires var arriving := StoreBytes(codec, t.site.node, t.site.key, t.entry, t.bytes)[..cut];
             (d', resp) == StoreOutcome(cfg, codec, true, arriving, clean, d)
    ensures resp == None ==> d' == d
    ensures resp != None ==>
              DiskFetch(cfg, t.site, Arriving(t, arrived, clean), d) == (d', resp == Some(StoreResponse(true, "")))
    ensures resp == Some(StoreResponse(true, "")) <==>
            cut == |StoreBytes(codec, t.site.node, t.site.key, t.entry, t.bytes)|
  {
    var arriving := StoreBytes(codec, t.site.node, t.site.key, t.entry, t.bytes)[..cut];
    var (m, rest) := Codec.Parse(codec, arriving);
    StoreRequestCrosses(codec, t.site.node, t.site.key, t.entry, t.bytes, cut);
    arrived := |rest|;
    if m.Success? {
      MetaRoundTrip(t.entry, |t.bytes|);
      assert rest == Prefix(t.bytes, |rest|);
      DiskTakesSteps(cfg, t, |rest|, clean, d);
    }
  }

  /**
   * handleStore on whatever arrives of the request that sendBlob put on the wire: nothing if it breaks off within
   * the header, otherwise the protocol's steps on that transfer, and OK exactly when all of it arrived.
   */
  lemma StoreHandlerIsHandling(net: Net, sites: set<Site>, nodes: map<string, Node>, trail: Trail, t: Transfer,
                               codec: Codec.PayloadCodec<StoreRequest>, cut: nat, clean: bool,
                               was: map<string, Node>, d': Disk, resp: Option<StoreResponse>)
    returns (arrived: nat, longer: Trail)
    requires Possible(net, trail) && RunApart(net, sites, trail, nodes) && SetUp(net, nodes)
    requires was == Play(net, trail, nodes) && t in After(net, trail).wires && t.to in was
    requires TransferApart(sites, t, was[t.to]) && Codec.Lossless(codec)
    requires Fits(codec, StoreRequest(t.site.node, t.site.key, MetaFromEntry(t.entry, |t.bytes|)))
    requires cut <= |StoreBytes(codec, t.site.node, t.site.key, t.entry, t.bytes)|
    requires var arriving := StoreBytes(codec, t.site.node, t.site.key, t.entry, t.bytes)[..cut];
             (d', resp) == StoreOutcome(was[t.to].cfg, codec, true, arriving, clean, was[t.to].disk)
    ensures longer == if resp == None then trail else Handling(trail, t, arrived, clean)
    ensures GoesOn(net, sites, nodes, trail, longer, t, d', resp == Some(StoreResponse(true, "")))
    ensures resp == Some(StoreResponse(true, "")) <==>
            cut == |StoreBytes(codec, t.site.node, t.site.key, t.entry, t.bytes)|
  {
    AboutTheTransfer(net, sites, nodes, trail, was, t);
    arrived := RequestTakenIn(was[t.to].cfg, codec, t, cut, clean, was[t.to].disk, d', resp);
    if resp == None {
      longer := trail;
      StandsStill(net, sites, nodes, trail, t, d');
    } else {
      longer := Handling(trail, t, arrived, clean);
      TakingInIsHandling(net, sites, nodes, trail, t, arrived, clean, was, d', resp == Some(StoreResponse(true, "")));
    }
  }

  // ---- A share ----

  /** A run going on with what a node does when `arrived` bytes of a share reach it. */
  ghost function Sharing(net: Net, trail: Trail, share: Share, arrived: nat, id: string, now: int, iv: Bytes): Trail
    requires Possible(net, trail)
  {
    Then(Then(trail, AcceptShare(share, arrived, id, now, iv)),
         Check(ShareWindow(net, After(net, trail), share, arrived, id, now, iv)))
  }

  /** What sendReadable puts on the wire. */
  function ShareBytes(codec: Codec.PayloadCodec<ShareRequest>, share: Share): Bytes {
    Codec.Frame(codec.encode(ShareRequest(share.key, share.message, share.size))) + share.plain
  }

  /** The new version and those listed on the recipient's disk differ in their first digits. */
  ghost predicate ShareApart(sites: set<Site>, s: Site, id: string, node: Node) {
    s in sites && Apart(node.cfg.sha, Live(node.cfg, sites, node.disk, {Name(s, id)}))
  }

  /** What is known of the recipient. */
  lemma AboutTheRecipient(net: Net, sites: set<Site>, nodes: map<string, Node>, trail: Trail, was: map<string, Node>,
                          s: Site, id: string, iv: Bytes)
    requires Possible(net, trail) && RunApart(net, sites, trail, nodes) && SetUp(net, nodes)
    requires was == Play(net, trail, nodes) && s.node in was && s in sites && NewlyDrawn(After(net, trail), id, iv)
    ensures var node := was[s.node];
            && Sound(node.cfg) && WellKept(node.cfg, sites, node.disk) && Load(node.cfg, node.disk, s).Success?
            && RealisedAt(net, After(net, trail), sites, s.node, node)
            && id !in Ids(Abs(node.cfg, node.disk, s).versions)
            && id !in Ids(LogAt(After(net, trail), Own(s)).versions)
  {
    EveryRunIsRough(net, trail);
    TrailRealised(net, sites, nodes, trail);
    assert RealisedAt(net, After(net, trail), sites, s.node, was[s.node]);
    NodeHoldsLog(net, After(net, trail), sites, s, was[s.node]);
    NewIsFresh(net, After(net, trail), s, Write(s, id, 0, "", [], iv, true));
  }

  lemma NodeHoldsLog(net: Net, w: World, sites: set<Site>, s: Site, node: Node)
    requires RealisedAt(net, w, sites, s.node, node) && s in sites
    ensures Load(node.cfg, node.disk, s).Success? && Abs(node.cfg, node.disk, s) == LogAt(w, Own(s))
  {
    assert AbsAt(node.cfg, sites, node.disk)[s] == LogsOf(w, s.node, sites)[s];
  }

  lemma ShareStores(sites: set<Site>, nodes: map<string, Node>, w: World, a: Action, s: Site, op: Op, d1: Disk)
    requires op.Write? && op.id != "" && op.site == s && OpOf(w, a) == Some((Own(s), op))
    requires s.node in nodes && Sound(nodes[s.node].cfg) && WellKept(nodes[s.node].cfg, sites, nodes[s.node].disk)
    requires ShareApart(sites, s, op.id, nodes[s.node])
    requires op.id !in Ids(Abs(nodes[s.node].cfg, nodes[s.node].disk, s).versions)
    requires d1 == RunOp(nodes[s.node].cfg, op, nodes[s.node].disk)
    ensures StepApart(w, sites, a, nodes) && Played(w, a, nodes) == nodes[s.node := nodes[s.node].(disk := d1)]
    ensures Apart(nodes[s.node].cfg.sha, Live(nodes[s.node].cfg, sites, d1, {}))
  {
    assert Written(op) == {Name(s, op.id)};
    ApartAfterPut(nodes[s.node].cfg, sites, op, nodes[s.node].disk, d1);
    PlayedHere(w, a, Own(s), op, nodes);
  }

  lemma ShareChecks(sites: set<Site>, nodes: map<string, Node>, w: World, win: Window, d': Disk)
    requires win.place.site in sites && win.place.holder in nodes
    requires var node := nodes[win.place.holder];
             && Apart(node.cfg.sha, Live(node.cfg, sites, node.disk, {}))
             && d' == if Short(win) then RunOp(node.cfg, DropVersion(win.place.site, win.entry.versionID), node.disk)
                      else node.disk
    ensures StepApart(w, sites, Check(win), nodes)
    ensures Played(w, Check(win), nodes) == nodes[win.place.holder := nodes[win.place.holder].(disk := d')]
  {
    if Short(win) {
      PlayedHere(w, Check(win), win.place, DropVersion(win.place.site, win.entry.versionID), nodes);
    } else {
      PlayedNowhere(w, Check(win), nodes);
      SameNode(nodes, win.place.holder);
    }
  }

  lemma AcceptedAndChecked(net: Net, w: World, share: Share, arrived: nat, id: string, now: int, iv: Bytes, w1: World)
    requires share in w.shares && NewlyDrawn(w, id, iv) && w1 == Next(net, w, AcceptShare(share, arrived, id, now, iv))
    ensures var win := ShareWindow(net, w, share, arrived, id, now, iv);
            && win in w1.windows
            && Next(net, w1, Check(win)).acks ==
               w.acks + if Short(win) then {} else {Ack(win.place, win.entry, win.stored, win.source)}
  {
    var win := ShareWindow(net, w, share, arrived, id, now, iv);
    assert w1.windows == w.windows + multiset{win} && w1.acks == w.acks;
  }

  lemma SharingIsPossible(net: Net, trail: Trail, share: Share, arrived: nat, id: string, now: int, iv: Bytes)
    requires Possible(net, trail) && share in After(net, trail).shares && NewlyDrawn(After(net, trail), id, iv)
    ensures Possible(net, Then(trail, AcceptShare(share, arrived, id, now, iv)))
    ensures var win := ShareWindow(net, After(net, trail), share, arrived, id, now, iv);
            && Possible(net, Sharing(net, trail, share, arrived, id, now, iv))
            && After(net, Sharing(net, trail, share, arrived, id, now, iv)).acks ==
               After(net, trail).acks + if Short(win) then {} else {Ack(win.place, win.entry, win.stored, win.source)}
  {
    var w, a := After(net, trail), AcceptShare(share, arrived, id, now, iv);
    AcceptedAndChecked(net, w, share, arrived, id, now, iv, Next(net, w, a));
    TwoStepsOn(net, trail, a, Check(ShareWindow(net, w, share, arrived, id, now, iv)));
  }

  /** What the recipient's handler does with the bytes that arrive. */
  lemma ShareTakesSteps(cfg: Config, op: Op, promised: nat, d: Disk)
    requires IsDigest(cfg.sha) && op.Write? && Load(cfg, d, op.site).Success?
    ensures var (d', kept) := DiskTake(cfg, op, promised, d);
            && (kept <==> op.clean && |op.plain| == promised)
            && var d1 := RunOp(cfg, op, d);
               d' == if op.clean && |op.plain| != promised then RunOp(cfg, DropVersion(op.site, op.id), d1) else d1
  {
  }

  lemma ShareRequestCrosses(codec: Codec.PayloadCodec<ShareRequest>, share: Share, cut: nat)
    requires Codec.Lossless(codec) && Fits(codec, ShareRequest(share.key, share.message, share.size))
    requires cut <= |ShareBytes(codec, share)|
    ensures var (m, rest) := Codec.Parse(codec, ShareBytes(codec, share)[..cut]);
            m.Failure? || (m == Success(ShareRequest(share.key, share.message, share.size))
                           && rest == Prefix(share.plain, |rest|) && |rest| <= |share.plain|)
  {
    Codec.CutMessageThenBody(codec, ShareRequest(share.key, share.message, share.size), share.plain, cut);
  }

  lemma ReplacedTwice(nodes: map<string, Node>, n: string, d1: Disk, d2: Disk)
    requires n in nodes
    ensures var once := nodes[n := nodes[n].(disk := d1)];
            once[n := once[n].(disk := d2)] == nodes[n := nodes[n].(disk := d2)]
  {
  }

  /** Both steps on the disks. */
  lemma BothSharesPlay(sites: set<Site>, was: map<string, Node>, w: World, a: Action, s: Site, op: Op, win: Window,
                       w1: World, d': Disk)
    requires op.Write? && op.id != "" && op.clean && op.site == s && OpOf(w, a) == Some((Own(s), op))
    requires s.node in was && Sound(was[s.node].cfg) && WellKept(was[s.node].cfg, sites, was[s.node].disk)
    requires ShareApart(sites, s, op.id, was[s.node]) && Load(was[s.node].cfg, was[s.node].disk, s).Success?
    requires op.id !in Ids(Abs(was[s.node].cfg, was[s.node].disk, s).versions)
    requires win.place == Own(s) && win.entry.versionID == op.id && win.arrived == |op.plain|
    requires d' == DiskTake(was[s.node].cfg, op, win.promised, was[s.node].disk).0
    ensures StepApart(w, sites, a, was) && StepApart(w1, sites, Check(win), Played(w, a, was))
    ensures Played(w1, Check(win), Played(w, a, was)) == was[s.node := was[s.node].(disk := d')]
  {
    var d1 := RunOp(was[s.node].cfg, op, was[s.node].disk);
    ShareTakesSteps(was[s.node].cfg, op, win.promised, was[s.node].disk);
    ShareStores(sites, was, w, a, s, op, d1);
    ReplacedTwice(was, s.node, d1, d');
    ShareChecks(sites, was[s.node := was[s.node].(disk := d1)], w1, win, d');
  }

  lemma OneStepPlays(net: Net, sites: set<Site>, nodes: map<string, Node>, trail: Trail, a: Action,
                     was: map<string, Node>)
    requires Possible(net, trail) && Possible(net, Then(trail, a)) && RunApart(net, sites, trail, nodes)
    requires was == Play(net, trail, nodes) && StepApart(After(net, trail), sites, a, was)
    ensures RunApart(net, sites, Then(trail, a), nodes)
    ensures Play(net, Then(trail, a), nodes) == Played(After(net, trail), a, was)
  {
  }

  lemma TwoStepsPlay(net: Net, sites: set<Site>, nodes: map<string, Node>, trail: Trail, a: Action, b: Action,
                     was: map<string, Node>)
    requires Possible(net, trail) && Possible(net, Then(trail, a)) && Possible(net, Then(Then(trail, a), b))
    requires RunApart(net, sites, trail, nodes)
    requires was == Play(net, trail, nodes) && StepApart(After(net, trail), sites, a, was)
    requires StepApart(After(net, Then(trail, a)), sites, b, Played(After(net, trail), a, was))
    ensures RunApart(net, sites, Then(Then(trail, a), b), nodes)
    ensures Play(net, Then(Then(trail, a), b), nodes) ==
            Played(After(net, Then(trail, a)), b, Played(After(net, trail), a, was))
  {
    OneStepPlays(net, sites, nodes, trail, a, was);
    OneStepPlays(net, sites, nodes, Then(trail, a), b, Played(After(net, trail), a, was));
  }

  /** A share of which the promised bytes arrive, or whose stream ends cleanly, in the run. */
  lemma SharingPlays(net: Net, sites: set<Site>, nodes: map<string, Node>, trail: Trail, was: map<string, Node>,
                     s: Site, op: Op, a: Action, win: Window, d': Disk)
    requires Possible(net, trail) && Possible(net, Then(trail, a)) && Possible(net, Then(Then(trail, a), Check(win)))
    requires RunApart(net, sites, trail, nodes) && SetUp(net, nodes) && was == Play(net, trail, nodes) && s.node in was
    requires op.Write? && op.site == s && op.clean && OpOf(After(net, trail), a) == Some((Own(s), op))
    requires NewlyDrawn(After(net, trail), op.id, op.iv) && ShareApart(sites, s, op.id, was[s.node])
    requires win.place == Own(s) && win.entry.versionID == op.id && win.arrived == |op.plain|
    requires IsDigest(was[s.node].cfg.sha) && d' == DiskTake(was[s.node].cfg, op, win.promised, was[s.node].disk).0
    ensures var longer := Then(Then(trail, a), Check(win));
            RunApart(net, sites, longer, nodes) && Play(net, longer, nodes) == was[s.node := was[s.node].(disk := d')]
  {
    AboutTheRecipient(net, sites, nodes, trail, was, s, op.id, op.iv);
    BothSharesPlay(sites, was, After(net, trail), a, s, op, win, After(net, Then(trail, a)), d');
    TwoStepsPlay(net, sites, nodes, trail, a, Check(win), was);
  }

  lemma TornIsNothing(net: Net, p: Place, op: Op, h: History)
    requires op.Write? && !op.clean && op.id !in Ids(h.versions)
    ensures Do(net, p, op, h) == h
  {
  }

  lemma SameLogs(w: World, p: Place, w': World, n: string, sites: set<Site>)
    requires w'.logs == w.logs[p := LogAt(w, p)]
    ensures LogsOf(w', n, sites) == LogsOf(w, n, sites)
  {
  }

  /** A share whose stream breaks off too early leaves every log on the disk as it was. */
  lemma BrokenShareStays(net: Net, w: World, sites: set<Site>, s: Site, op: Op, node: Node, d': Disk, w': World)
    requires op.Write? && op.site == s && !op.clean && op.id != "" && op.id !in Ids(LogAt(w, Own(s)).versions)
    requires RealisedAt(net, w, sites, s.node, node) && ShareApart(sites, s, op.id, node)
    requires d' == RunOp(node.cfg, op, node.disk) && w'.logs == w.logs[Own(s) := LogAt(w, Own(s))]
    ensures RealisedAt(net, w, sites, s.node, node.(disk := d'))
  {
    assert Written(op) == {Name(s, op.id)};
    TornIsNothing(net, Own(s), op, LogAt(w, Own(s)));
    NodeSteps(net, w, sites, Own(s), op, node, w');
    SameLogs(w, Own(s), w', s.node, sites);
  }

  /** The write that the recipient's handler makes of what arrives. */
  function ArrivingShare(share: Share, rest: Bytes, clean: bool, id: string, now: int, iv: Bytes): Op {
    SharedOp(share.to, ShareRequest(share.key, share.message, share.size), rest, clean, id, now, iv)
  }

  lemma ArrivingIsAccepted(share: Share, arrived: nat, clean: bool, id: string, now: int, iv: Bytes)
    requires arrived <= |share.plain| && (clean || share.size <= arrived)
    ensures ArrivingShare(share, Prefix(share.plain, arrived), clean, id, now, iv) ==
            ShareOp(share, arrived, id, now, iv)
  {
    assert Prefix(Prefix(share.plain, arrived), share.size) == Prefix(Prefix(share.plain, share.size), arrived);
  }

  /** How a share request was handled, and whether the run has gone on. */
  ghost predicate ShareHandled(net: Net, sites: set<Site>, nodes: map<string, Node>, trail: Trail, share: Share,
                               arrived: nat, clean: bool, id: string, now: int, iv: Bytes, was: map<string, Node>,
                               d': Disk, ok: bool)
    requires Possible(net, trail) && share.to in was
  {
    if clean || share.size <= arrived then
      var longer := Sharing(net, trail, share, arrived, id, now, iv);
      var win := ShareWindow(net, After(net, trail), share, arrived, id, now, iv);
      && Possible(net, longer) && RunApart(net, sites, longer, nodes)
      && Play(net, longer, nodes) == was[share.to := was[share.to].(disk := d')]
      && (ok <==> !Short(win))
      && After(net, longer).acks ==
         After(net, trail).acks + if ok then {Ack(win.place, win.entry, win.stored, win.source)} else {}
    else !ok && RealisedAt(net, After(net, trail), sites, share.to, was[share.to].(disk := d'))
  }

  lemma WindowOfShare(net: Net, w: World, share: Share, arrived: nat, id: string, now: int, iv: Bytes)
    ensures var win, op := ShareWindow(net, w, share, arrived, id, now, iv), ShareOp(share, arrived, id, now, iv);
            && win.place == Own(op.site) && win.entry.versionID == id
            && win.arrived == |op.plain| && win.promised == share.size
            && OpOf(w, AcceptShare(share, arrived, id, now, iv)) == Some((Own(op.site), op))
  {
  }

  lemma AcceptedPlays(net: Net, sites: set<Site>, nodes: map<string, Node>, trail: Trail, share: Share, arrived: nat,
                      id: string, now: int, iv: Bytes, was: map<string, Node>, d': Disk)
    requires Possible(net, trail) && RunApart(net, sites, trail, nodes) && SetUp(net, nodes)
    requires was == Play(net, trail, nodes) && share in After(net, trail).shares && share.to in was
    requires NewlyDrawn(After(net, trail), id, iv) && ShareApart(sites, Site(share.to, share.key), id, was[share.to])
    requires d' == DiskTake(was[share.to].cfg, ShareOp(share, arrived, id, now, iv), share.size, was[share.to].disk).0
    ensures var longer := Sharing(net, trail, share, arrived, id, now, iv);
            && Possible(net, longer) && RunApart(net, sites, longer, nodes)
            && Play(net, longer, nodes) == was[share.to := was[share.to].(disk := d')]
  {
    var s, op, w := Site(share.to, share.key), ShareOp(share, arrived, id, now, iv), After(net, trail);
    var a, win := AcceptShare(share, arrived, id, now, iv), ShareWindow(net, w, share, arrived, id, now, iv);
    SharingIsPossible(net, trail, share, arrived, id, now, iv);
    WindowOfShare(net, w, share, arrived, id, now, iv);
    SharingPlays(net, sites, nodes, trail, was, s, op, a, win, d');
  }

  lemma AcceptedIsHandled(net: Net, sites: set<Site>, nodes: map<string, Node>, trail: Trail, share: Share,
                          arrived: nat, clean: bool, id: string, now: int, iv: Bytes, was: map<string, Node>, d': Disk,
                          ok: bool)
    requires Possible(net, trail) && RunApart(net, sites, trail, nodes) && SetUp(net, nodes)
    requires was == Play(net, trail, nodes) && share in After(net, trail).shares && share.to in was
    requires NewlyDrawn(After(net, trail), id, iv) && ShareApart(sites, Site(share.to, share.key), id, was[share.to])
    requires arrived <= |share.plain| && (clean || share.size <= arrived)
    requires var op := ShareOp(share, arrived, id, now, iv);
             (d', ok) == DiskTake(was[share.to].cfg, op, share.size, was[share.to].disk)
    ensures ShareHandled(net, sites, nodes, trail, share, arrived, clean, id, now, iv, was, d', ok)
  {
    var s, op := Site(share.to, share.key), ShareOp(share, arrived, id, now, iv);
    AboutTheRecipient(net, sites, nodes, trail, was, s, id, iv);
    ShareTakesSteps(was[share.to].cfg, op, share.size, was[share.to].disk);
    SharingIsPossible(net, trail, share, arrived, id, now, iv);
    AcceptedPlays(net, sites, nodes, trail, share, arrived, id, now, iv, was, d');
  }

  lemma BrokenIsHandled(net: Net, sites: set<Site>, nodes: map<string, Node>, trail: Trail, share: Share,
                        arrived: nat, id: string, now: int, iv: Bytes, was: map<string, Node>, d': Disk, ok: bool)
    requires Possible(net, trail) && RunApart(net, sites, trail, nodes) && SetUp(net, nodes)
    requires was == Play(net, trail, nodes) && share.to in was
    requires NewlyDrawn(After(net, trail), id, iv) && ShareApart(sites, Site(share.to, share.key), id, was[share.to])
    requires arrived < share.size && arrived <= |share.plain|
    requires var op := ArrivingShare(share, Prefix(share.plain, arrived), false, id, now, iv);
             (d', ok) == DiskTake(was[share.to].cfg, op, share.size, was[share.to].disk)
    ensures ShareHandled(net, sites, nodes, trail, share, arrived, false, id, now, iv, was, d', ok)
  {
    var s, w := Site(share.to, share.key), After(net, trail);
    var op := ArrivingShare(share, Prefix(share.plain, arrived), false, id, now, iv);
    AboutTheRecipient(net, sites, nodes, trail, was, s, id, iv);
    ShareTakesSteps(was[share.to].cfg, op, share.size, was[share.to].disk);
    BrokenShareStays(net, w, sites, s, op, was[share.to], d', w.(logs := w.logs[Own(s) := LogAt(w, Own(s))]));
  }

  lemma ShareRequestTaken(cfg: Config, codec: Codec.PayloadCodec<ShareRequest>, share: Share, cut: nat, clean: bool,
                          id: string, now: int, iv: Bytes, d: Disk, d': Disk, resp: Option<ShareResponse>)
    returns (arrived: nat)
    requires IsDigest(cfg.sha) && Codec.Lossless(codec)
    requires Fits(codec, ShareRequest(share.key, share.message, share.size)) && cut <= |ShareBytes(codec, share)|
    requires (d', resp) ==
             ShareOutcome(cfg, codec, share.to, true, ShareBytes(codec, share)[..cut], clean, id, now, iv, d)
    ensures resp == None ==> d' == d
    ensures resp != None ==> arrived <= |share.plain|
    ensures resp != None ==>
              DiskTake(cfg, ArrivingShare(share, Prefix(share.plain, arrived), clean, id, now, iv), share.size, d) ==
              (d', resp.value.ok)
  {
    var (m, rest) := Codec.Parse(codec, ShareBytes(codec, share)[..cut]);
    arrived := |rest|;
    ShareRequestCrosses(codec, share, cut);
  }

  /**
   * handleShare on whatever arrives of the request that sendReadable put on the wire: nothing if it breaks off within
   * the header; the protocol's steps AcceptShare and Check if all of the file arrives or the stream ends cleanly, and
   * OK exactly when the protocol confirms it; otherwise no log changes, and no OK.
   */
  lemma ShareHandlerIsHandling(net: Net, sites: set<Site>, nodes: map<string, Node>, trail: Trail, share: Share,
                               codec: Codec.PayloadCodec<ShareRequest>, cut: nat, clean: bool, id: string, now: int,
                               iv: Bytes, was: map<string, Node>, d': Disk, resp: Option<ShareResponse>)
    returns (arrived: nat)
    requires Possible(net, trail) && RunApart(net, sites, trail, nodes) && SetUp(net, nodes)
    requires was == Play(net, trail, nodes) && share in After(net, trail).shares && share.to in was
    requires NewlyDrawn(After(net, trail), id, iv) && ShareApart(sites, Site(share.to, share.key), id, was[share.to])
    requires Codec.Lossless(codec) && Fits(codec, ShareRequest(share.key, share.message, share.size))
    requires cut <= |ShareBytes(codec, share)|
    requires var arriving := ShareBytes(codec, share)[..cut];
             (d', resp) == ShareOutcome(was[share.to].cfg, codec, share.to, true, arriving, clean, id, now, iv,
                                        was[share.to].disk)
    ensures resp == None ==> d' == was[share.to].disk
    ensures resp != None ==>
              ShareHandled(net, sites, nodes, trail, share, arrived, clean, id, now, iv, was, d', resp.value.ok)
  {
    var node := was[share.to];
    arrived := ShareRequestTaken(node.cfg, codec, share, cut, clean, id, now, iv, node.disk, d', resp);
    if resp != None {
      if clean || share.size <= arrived {
        ArrivingIsAccepted(share, arrived, clean, id, now, iv);
        AcceptedIsHandled(net, sites, nodes, trail, share, arrived, clean, id, now, iv, was, d', resp.value.ok);
      } else {
        BrokenIsHandled(net, sites, nodes, trail, share, arrived, id, now, iv, was, d', resp.value.ok);
      }
    }
  }
}
