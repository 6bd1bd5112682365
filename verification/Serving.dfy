/**
 * The custodian's side of a get, on its own disk, is the protocol's steps LookUp and Serve; and what GetVersion makes
 * of streams from such custodians is the file.
 */
module Serving {
  import opened Base
  import opened Files
  import opened Versions
  import opened Layout
  import opened Histories
  import opened Plans
  import opened Refinement
  import opened LiveBlobs
  import opened Transfers
  import opened Exchanges
  import opened Protocol
  import opened Agreement
  import opened Consistency
  import opened EveryRun
  import opened Recovery
  import opened Realisation
  import opened Server
  import opened EndToEnd
  import Codec

  // ---- One node's disk and its logs ----

  lemma {:induction false} EarlierApart(net: Net, sites: set<Site>, nodes: map<string, Node>, longer: Trail,
                                        trail: Trail)
    requires Possible(net, longer) && RunApart(net, sites, longer, nodes) && Extends(longer, trail)
    ensures Possible(net, trail) && RunApart(net, sites, trail, nodes)
  {
    if longer != trail {
      EarlierApart(net, sites, nodes, longer.before, trail);
    }
  }

  lemma {:induction false} SameNodes(net: Net, nodes: map<string, Node>, trail: Trail)
    requires Possible(net, trail)
    ensures Play(net, trail, nodes).Keys == nodes.Keys
    ensures forall n <- nodes :: Play(net, trail, nodes)[n].cfg == nodes[n].cfg
  {
    if trail.Then? {
      SameNodes(net, nodes, trail.before);
    }
  }

  /** Looking a version up and reading it on a node's disk are doing so in its log. */
  lemma DiskReadsLog(net: Net, w: World, sites: set<Site>, q: string, node: Node, s: Site, id: string)
    requires RealisedAt(net, w, sites, q, node) && s in sites
    ensures DiskReadRaw(node.cfg, node.disk, s, id) == ReadRaw(LogAt(w, Place(q, s)), id)
    ensures DiskReadPlain(node.cfg, node.disk, s, id) == ReadPlain(node.cfg.cipher, LogAt(w, Place(q, s)), id)
    ensures DiskInfo(node.cfg, node.disk, s, id) ==
            Resolve(LogAt(w, Place(q, s)).versions, LogAt(w, Place(q, s)).latest, id)
  {
    ReadsRefine(node.cfg, node.disk, s, id);
    assert AbsAt(node.cfg, sites, node.disk)[s] == LogsOf(w, q, sites)[s];
  }

  // ---- Sending ----

  /** sendBlob reads what the step SendBlob puts under way, and fails exactly where that step cannot be taken. */
  lemma SendBlobIsSending(net: Net, w: World, sites: set<Site>, node: Node, s: Site, to: string, id: string)
    requires RealisedAt(net, w, sites, s.node, node) && s in sites
    requires to != s.node && id != "" && Name(s, id) in w.made
    ensures var read := DiskReadRaw(node.cfg, node.disk, s, id);
            && (read.Success? <==> Enabled(net, w, SendBlob(s, to, id)))
            && (read.Success? ==>
                  var t := Transfer(to, s, w.made[Name(s, id)].entry, read.value.1);
                  Next(net, w, SendBlob(s, to, id)) == w.(wires := w.wires + {t}))
  {
    DiskReadsLog(net, w, sites, s.node, node, s, id);
  }

  lemma SizeIsNatural(net: Net, w: World, s: Site, id: string)
    requires Rough(net, w) && ReadPlain(CipherOf(net, Own(s)), LogAt(w, Own(s)), id).Success?
    ensures ReadPlain(CipherOf(net, Own(s)), LogAt(w, Own(s)), id).value.0 >= 0
  {
    ReadIsRough(net, w, Own(s), id);
    var n := Name(s, ReadRaw(LogAt(w, Own(s)), id).value.0.versionID);
    assert w.made[n].entry.sizeBytes == |w.made[n].plain|;
  }

  /** The step SendReadable puts under way what was read, with the size recorded. */
  lemma SharesWhatIsRead(net: Net, w: World, s: Site, to: string, id: string, key: string, message: string)
    returns (source: Name)
    requires to != s.node && ReadPlain(CipherOf(net, Own(s)), LogAt(w, Own(s)), id).Success?
    requires ReadPlain(CipherOf(net, Own(s)), LogAt(w, Own(s)), id).value.0 >= 0
    ensures Enabled(net, w, SendReadable(s, id, to, key, message))
    ensures var (size, plain) := ReadPlain(CipherOf(net, Own(s)), LogAt(w, Own(s)), id).value;
            Next(net, w, SendReadable(s, id, to, key, message)) ==
            w.(shares := w.shares + {Share(source, to, key, message, size, plain)})
  {
    source := Name(s, ReadRaw(LogAt(w, Own(s)), id).value.0.versionID);
  }

  /** sendReadable announces and sends what that step puts under way, and fails exactly where it cannot be taken. */
  lemma SendReadableIsSharing(net: Net, w: World, sites: set<Site>, node: Node, s: Site, to: string, id: string,
                              key: string, message: string, read: Result<(int, Bytes)>) returns (source: Name)
    requires RealisedAt(net, w, sites, s.node, node) && s in sites && to != s.node && Rough(net, w)
    requires read == DiskReadPlain(node.cfg, node.disk, s, id)
    ensures read.Success? <==> Enabled(net, w, SendReadable(s, id, to, key, message))
    ensures read.Success? ==> read.value.0 >= 0
    ensures read.Success? ==>
              Next(net, w, SendReadable(s, id, to, key, message)) ==
              w.(shares := w.shares + {Share(source, to, key, message, read.value.0, read.value.1)})
  {
    DiskReadsLog(net, w, sites, s.node, node, s, id);
    source := Name(s, id);
    if read.Success? {
      SizeIsNatural(net, w, s, id);
      source := SharesWhatIsRead(net, w, s, to, id, key, message);
    }
  }

  // ---- A custodian asked ----

  /** A custodian and the moments of its two lookups. */
  datatype Custodian = Custodian(node: string, first: Trail, second: Trail, allowed: bool)

  /** Both moments are in the past of a run, in this order. */
  ghost predicate InPast(net: Net, trail: Trail, q: Custodian) {
    Possible(net, trail) && Extends(trail, q.second) && Extends(q.second, q.first)
  }

  function Request(s: Site, id: string): GetRequest {
    GetRequest(s.node, s.key, id)
  }

  /** What its handler answers a request that reaches it whole. */
  ghost function Outcome(net: Net, nodes: map<string, Node>, wording: Wording, s: Site, id: string, q: Custodian)
    : Option<(GetResponse, Bytes)>
    requires Possible(net, q.first) && Possible(net, q.second)
    requires q.node in Play(net, q.first, nodes) && q.node in Play(net, q.second, nodes)
  {
    var first, second := Play(net, q.first, nodes)[q.node], Play(net, q.second, nodes)[q.node];
    GetOutcome(first.cfg, wording.getRequest, q.allowed, Codec.Frame(wording.getRequest.encode(Request(s, id))),
               first.disk, second.disk)
  }

  lemma PastIsRealised(net: Net, sites: set<Site>, nodes: map<string, Node>, trail: Trail, q: Custodian)
    requires InPast(net, trail, q) && RunApart(net, sites, trail, nodes) && SetUp(net, nodes) && q.node in nodes
    ensures Possible(net, q.first) && Possible(net, q.second)
    ensures q.node in Play(net, q.first, nodes) && q.node in Play(net, q.second, nodes)
    ensures var first, second := Play(net, q.first, nodes)[q.node], Play(net, q.second, nodes)[q.node];
            && first.cfg == second.cfg
            && RealisedAt(net, After(net, q.first), sites, q.node, first)
            && RealisedAt(net, After(net, q.second), sites, q.node, second)
  {
    EarlierApart(net, sites, nodes, trail, q.second);
    EarlierApart(net, sites, nodes, q.second, q.first);
    TrailRealised(net, sites, nodes, q.first);
    TrailRealised(net, sites, nodes, q.second);
    SameNodes(net, nodes, q.first);
    SameNodes(net, nodes, q.second);
  }

  /** What the protocol says of it: the entry of the first moment, the bytes of the second. */
  lemma OutcomeOfLogs(net: Net, sites: set<Site>, nodes: map<string, Node>, trail: Trail, wording: Wording, s: Site,
                      id: string, q: Custodian)
    requires InPast(net, trail, q) && RunApart(net, sites, trail, nodes) && SetUp(net, nodes)
    requires q.node in nodes && s in sites
    requires Codec.Lossless(wording.getRequest) && Fits(wording.getRequest, Request(s, id))
    ensures Possible(net, q.first) && Possible(net, q.second)
    ensures q.node in Play(net, q.first, nodes) && q.node in Play(net, q.second, nodes)
    ensures var p, outcome := Place(q.node, s), Outcome(net, nodes, wording, s, id, q);
            var h1, h2 := LogAt(After(net, q.first), p), LogAt(After(net, q.second), p);
            var entry, read := Resolve(h1.versions, h1.latest, id), ReadRaw(h2, id);
            && outcome.Some?
            && (outcome.value.0.found <==> q.allowed && entry.Success? && read.Success?)
            && (outcome.value.0.found ==>
                  && outcome.value.0 == GetResponse(true, "", Some(MetaFromEntry(entry.value, |read.value.1|)))
                  && outcome.value.1 == read.value.1)
  {
    PastIsRealised(net, sites, nodes, trail, q);
    var first, second := Play(net, q.first, nodes)[q.node], Play(net, q.second, nodes)[q.node];
    DiskReadsLog(net, After(net, q.first), sites, q.node, first, s, id);
    DiskReadsLog(net, After(net, q.second), sites, q.node, second, s, id);
    var frame := Codec.Frame(wording.getRequest.encode(Request(s, id)));
    Codec.FrameRoundTrip(wording.getRequest, Request(s, id), []);
    assert frame + [] == frame;
  }

  // ---- The steps of the protocol ----

  lemma StepKeepsGlimpses(net: Net, w: World, a: Action, w': World)
    requires Enabled(net, w, a) && w' == Next(net, w, a)
    ensures w.glimpses <= w'.glimpses
  {
  }

  lemma {:induction false} GlimpsesStay(net: Net, longer: Trail, trail: Trail)
    requires Possible(net, longer) && Possible(net, trail) && Extends(longer, trail)
    ensures After(net, trail).glimpses <= After(net, longer).glimpses
  {
    if longer != trail {
      GlimpsesStay(net, longer.before, trail);
      StepKeepsGlimpses(net, After(net, longer.before), longer.action, After(net, longer));
    }
  }

  /** The step of the first lookup, if it finds anything, is part of the run up to the second. */
  ghost predicate LookedUp(net: Net, s: Site, id: string, q: Custodian)
    requires Possible(net, q.first)
  {
    var p := Place(q.node, s);
    Enabled(net, After(net, q.first), LookUp(p, id)) ==> Extends(q.second, Then(q.first, LookUp(p, id)))
  }

  lemma Glimpsed(net: Net, trail: Trail, s: Site, id: string, q: Custodian, entry: VersionEntry)
    requires InPast(net, trail, q) && Possible(net, q.first) && Possible(net, q.second)
    requires q.node != s.node && LookedUp(net, s, id, q)
    requires var h := LogAt(After(net, q.first), Place(q.node, s)); Resolve(h.versions, h.latest, id) == Success(entry)
    ensures Glimpse(Place(q.node, s), id, entry) in After(net, q.second).glimpses
  {
    var looked := Then(q.first, LookUp(Place(q.node, s), id));
    assert Possible(net, looked);
    assert Glimpse(Place(q.node, s), id, entry) in After(net, looked).glimpses;
    GlimpsesStay(net, q.second, looked);
  }

  /** What one custodian sends is what the step Serve puts under way. */
  ghost predicate Served(net: Net, w: World, p: Place, id: string, entry: Result<VersionEntry>,
                         outcome: (GetResponse, Bytes)) {
    && (outcome.0.found <==> entry.Success? && Enabled(net, w, Serve(Glimpse(p, id, entry.value))))
    && (outcome.0.found ==>
          outcome.0.meta.Some?
          && var t := Transfer(p.site.node, p.site, EntryFromMeta(outcome.0.meta.value), outcome.1);
             Next(net, w, Serve(Glimpse(p, id, entry.value))) == w.(wires := w.wires + {t}))
  }

  lemma ServedIff(net: Net, w: World, p: Place, id: string, entry: Result<VersionEntry>, outcome: (GetResponse, Bytes))
    requires entry.Success? ==> Glimpse(p, id, entry.value) in w.glimpses
    requires outcome.0.found <==> entry.Success? && ReadRaw(LogAt(w, p), id).Success?
    requires outcome.0.found ==>
               var blob := ReadRaw(LogAt(w, p), id).value.1;
               outcome == (GetResponse(true, "", Some(MetaFromEntry(entry.value, |blob|))), blob)
    ensures Served(net, w, p, id, entry, outcome)
  {
    if outcome.0.found {
      MetaRoundTrip(entry.value, |outcome.1|);
    }
  }

  /**
   * A custodian's handler and the protocol. Whatever happens on the network between its two lookups, the custodian
   * answers with a blob exactly if the protocol can take the step Serve there, and what it sends is exactly what that
   * step puts under way.
   */
  lemma GetHandlerIsServing(net: Net, sites: set<Site>, nodes: map<string, Node>, trail: Trail, wording: Wording,
                            s: Site, id: string, q: Custodian)
    requires InPast(net, trail, q) && RunApart(net, sites, trail, nodes) && SetUp(net, nodes)
    requires q.node in nodes && q.node != s.node && s in sites && q.allowed
    requires Codec.Lossless(wording.getRequest) && Fits(wording.getRequest, Request(s, id))
    requires Possible(net, q.first) && LookedUp(net, s, id, q)
    ensures Possible(net, q.second) && q.node in Play(net, q.first, nodes) && q.node in Play(net, q.second, nodes)
    ensures var h := LogAt(After(net, q.first), Place(q.node, s));
            && Outcome(net, nodes, wording, s, id, q).Some?
            && Served(net, After(net, q.second), Place(q.node, s), id, Resolve(h.versions, h.latest, id),
                      Outcome(net, nodes, wording, s, id, q).value)
  {
    OutcomeOfLogs(net, sites, nodes, trail, wording, s, id, q);
    var h := LogAt(After(net, q.first), Place(q.node, s));
    var entry := Resolve(h.versions, h.latest, id);
    if entry.Success? {
      Glimpsed(net, trail, s, id, q, entry.value);
    }
    ServedIff(net, After(net, q.second), Place(q.node, s), id, entry, Outcome(net, nodes, wording, s, id, q).value);
  }

  // ---- What custodians say is true ----

  /** The custodian lists the version at both moments and is not about to undo it at the second. */
  ghost predicate Keeps(net: Net, s: Site, id: string, q: Custodian)
    requires Possible(net, q.first) && Possible(net, q.second)
  {
    var p := Place(q.node, s);
    && id in Ids(LogAt(After(net, q.first), p).versions) && id in Ids(LogAt(After(net, q.second), p).versions)
    && !Unsettled(After(net, q.second).windows, p, id)
  }

  /** Its entry is the origin's, its bytes too if nobody is about to undo them. */
  lemma LookupsAreTrue(net: Net, trail: Trail, s: Site, id: string, q: Custodian)
    requires Safe(net, trail) && InPast(net, trail, q) && id != "" && Possible(net, q.first) && Possible(net, q.second)
    ensures var p, made := Place(q.node, s), After(net, trail).made;
            var h1, h2 := LogAt(After(net, q.first), p), LogAt(After(net, q.second), p);
            var entry, read := Resolve(h1.versions, h1.latest, id), ReadRaw(h2, id);
            && (entry.Success? ==> Name(s, id) in made && entry.value == made[Name(s, id)].entry)
            && (read.Success? && !Unsettled(After(net, q.second).windows, p, id) ==>
                  Name(s, id) in made && read.value.1 == made[Name(s, id)].raw)
            && (Keeps(net, s, id, q) ==> entry.Success? && read.Success?)
  {
    PartsOfRuns(net, trail, q.second);
    PartsOfRuns(net, q.second, q.first);
    EntryIsTrue(net, trail, s, id, q);
    BytesAreTrue(net, trail, s, id, q);
    if Keeps(net, s, id, q) {
      KeptIsFound(net, s, id, q);
    }
  }

  lemma ListedResolves(h: History, id: string)
    requires id != "" && id in Ids(h.versions)
    ensures Resolve(h.versions, h.latest, id).Success?
  {
  }

  lemma KeptIsFound(net: Net, s: Site, id: string, q: Custodian)
    requires id != "" && Possible(net, q.first) && Safe(net, q.second) && Keeps(net, s, id, q)
    ensures var h1, h2 := LogAt(After(net, q.first), Place(q.node, s)), LogAt(After(net, q.second), Place(q.node, s));
            Resolve(h1.versions, h1.latest, id).Success? && ReadRaw(h2, id).Success?
  {
    var p := Place(q.node, s);
    ListedResolves(LogAt(After(net, q.first), p), id);
    var e :| e in LogAt(After(net, q.second), p).versions && e.versionID == id;
    SafeTrailsAgree(net, q.second);
    HoldsOriginal(net, After(net, q.second), p, e);
  }

  lemma EntryIsTrue(net: Net, trail: Trail, s: Site, id: string, q: Custodian)
    requires InPast(net, trail, q) && id != "" && Possible(net, q.first) && Safe(net, q.first)
    ensures var h, made := LogAt(After(net, q.first), Place(q.node, s)), After(net, trail).made;
            var entry := Resolve(h.versions, h.latest, id);
            entry.Success? ==> Name(s, id) in made && entry.value == made[Name(s, id)].entry
  {
    var w, p := After(net, q.first), Place(q.node, s);
    var h := LogAt(w, p);
    SafeTrailsAgree(net, q.first);
    ExtendsOn(trail, q.second, q.first);
    RunsOnlyAdd(net, trail, q.first);
    assert LogGood(net, w.made, w.windows, p, h);
    var entry := Resolve(h.versions, h.latest, id);
    if entry.Success? {
      assert entry.value in h.versions && entry.value.versionID == id;
      assert Begins(w.made, s, entry.value, h.blobs[id]);
    }
  }

  lemma BytesAreTrue(net: Net, trail: Trail, s: Site, id: string, q: Custodian)
    requires InPast(net, trail, q) && id != "" && Possible(net, q.second) && Safe(net, q.second)
    ensures var h, made := LogAt(After(net, q.second), Place(q.node, s)), After(net, trail).made;
            ReadRaw(h, id).Success? && !Unsettled(After(net, q.second).windows, Place(q.node, s), id) ==>
              Name(s, id) in made && ReadRaw(h, id).value.1 == made[Name(s, id)].raw
  {
    var w, p := After(net, q.second), Place(q.node, s);
    SafeTrailsAgree(net, q.second);
    RunsOnlyAdd(net, trail, q.second);
    if ReadRaw(LogAt(w, p), id).Success? && !Unsettled(w.windows, p, id) {
      ReadIsListed(LogAt(w, p), id);
      HoldsOriginal(net, w, p, ReadRaw(LogAt(w, p), id).value.0);
    }
  }

  lemma {:induction false} ExtendsOn(longer: Trail, mid: Trail, trail: Trail)
    requires Extends(longer, mid) && Extends(mid, trail)
    ensures Extends(longer, trail)
  {
    if longer != mid {
      ExtendsOn(longer.before, mid, trail);
    }
  }

  // ---- Recovery over streams ----

  /** What a handler puts on the wire. */
  function Sent(wording: Wording, outcome: Option<(GetResponse, Bytes)>): Bytes {
    if outcome.None? || !Fits(wording.getResponse, outcome.value.0) then []
    else Codec.Frame(wording.getResponse.encode(outcome.value.0)) + outcome.value.1
  }

  /** A get hears some beginning of what a handler sends on an open stream: nothing, or an answer it does send. */
  lemma HeardIsHonest(wording: Wording, req: GetRequest, outcome: (GetResponse, Bytes), peer: Remote)
    requires Codec.Lossless(wording.getResponse) && Fits(wording.getRequest, req)
    requires peer.arriving <= Sent(wording, Some(outcome))
    requires outcome.0.found ==>
               outcome.0.meta.Some? && outcome.0.error == "" && outcome.0.meta.value.blobBytes == |outcome.1|
    ensures var a := PeerAnswer(wording, req, peer);
            && (a.Found? ==> outcome.0.found)
            && (outcome.0.found ==> Honest(a, EntryFromMeta(outcome.0.meta.value), outcome.1))
            && (outcome.0.found && peer.opens && Fits(wording.getResponse, outcome.0)
                && peer.arriving == Sent(wording, Some(outcome)) ==>
                  a == Found(EntryFromMeta(outcome.0.meta.value), |outcome.1|, outcome.1, peer.clean))
  {
    if Fits(wording.getResponse, outcome.0) {
      var sent := Codec.Frame(wording.getResponse.encode(outcome.0)) + outcome.1;
      assert peer.arriving == sent[..|peer.arriving|];
      Codec.CutMessageThenBody(wording.getResponse, outcome.0, outcome.1, |peer.arriving|);
    } else {
      assert peer.arriving == [];
    }
  }

  /** Some beginning of what a custodian's handler sends for this request arrives, or its stream does not open. */
  ghost predicate Hears(net: Net, nodes: map<string, Node>, wording: Wording, s: Site, id: string, q: Custodian,
                        peer: Remote)
  {
    && Possible(net, q.first) && Possible(net, q.second)
    && q.node in Play(net, q.first, nodes) && q.node in Play(net, q.second, nodes)
    && (peer.opens ==> peer.arriving <= Sent(wording, Outcome(net, nodes, wording, s, id, q)))
  }

  /** The custodian keeps the version and may give it, and all of what its handler sends arrives. */
  ghost predicate Supplies(net: Net, nodes: map<string, Node>, wording: Wording, s: Site, id: string, q: Custodian,
                           peer: Remote)
    requires Hears(net, nodes, wording, s, id, q, peer)
  {
    && q.allowed && Keeps(net, s, id, q) && peer.opens && Outcome(net, nodes, wording, s, id, q).Some?
    && Fits(wording.getResponse, Outcome(net, nodes, wording, s, id, q).value.0)
    && peer.arriving == Sent(wording, Outcome(net, nodes, wording, s, id, q))
  }

  lemma CustodianIsHonest(net: Net, sites: set<Site>, nodes: map<string, Node>, trail: Trail, wording: Wording, s: Site,
                          id: string, q: Custodian, peer: Remote)
    requires Safe(net, trail) && InPast(net, trail, q) && RunApart(net, sites, trail, nodes) && SetUp(net, nodes)
    requires q.node in nodes && s in sites && id != ""
    requires Codec.Lossless(wording.getRequest) && Fits(wording.getRequest, Request(s, id))
    requires Codec.Lossless(wording.getResponse) && Hears(net, nodes, wording, s, id, q, peer)
    requires !Unsettled(After(net, q.second).windows, Place(q.node, s), id)
    ensures Outcome(net, nodes, wording, s, id, q).Some?
    ensures var a, made := PeerAnswer(wording, Request(s, id), peer), After(net, trail).made;
            && (a.Found? || Supplies(net, nodes, wording, s, id, q, peer) ==> Name(s, id) in made)
            && (Name(s, id) in made ==> Honest(a, made[Name(s, id)].entry, made[Name(s, id)].raw))
            && (Supplies(net, nodes, wording, s, id, q, peer) ==> a.Found? && |a.delivered| == a.promised)
  {
    OutcomeOfLogs(net, sites, nodes, trail, wording, s, id, q);
    LookupsAreTrue(net, trail, s, id, q);
    var outcome := Outcome(net, nodes, wording, s, id, q).value;
    if peer.opens {
      if outcome.0.found {
        var h1 := LogAt(After(net, q.first), Place(q.node, s));
        MetaRoundTrip(Resolve(h1.versions, h1.latest, id).value, |outcome.1|);
      }
      HeardIsHonest(wording, Request(s, id), outcome, peer);
    }
  }

  /** Every peer is a custodian heard in part, none of them in the middle of undoing the version as it reads it. */
  ghost predicate AllHeard(net: Net, nodes: map<string, Node>, trail: Trail, wording: Wording, s: Site, id: string,
                           qs: seq<Custodian>, peers: seq<Remote>)
  {
    |qs| == |peers| && forall j :: 0 <= j < |qs| ==> HeardAt(net, nodes, trail, wording, s, id, qs[j], peers[j])
  }

  ghost predicate HeardAt(net: Net, nodes: map<string, Node>, trail: Trail, wording: Wording, s: Site, id: string,
                          q: Custodian, peer: Remote)
  {
    && InPast(net, trail, q) && q.node in nodes && Hears(net, nodes, wording, s, id, q, peer)
    && !Unsettled(After(net, q.second).windows, Place(q.node, s), id)
  }

  lemma CustodiansAreHonest(net: Net, sites: set<Site>, nodes: map<string, Node>, trail: Trail, wording: Wording,
                            s: Site, id: string, qs: seq<Custodian>, peers: seq<Remote>, i: nat)
    requires Safe(net, trail) && RunApart(net, sites, trail, nodes) && SetUp(net, nodes) && s in sites && id != ""
    requires Codec.Lossless(wording.getRequest) && Fits(wording.getRequest, Request(s, id))
    requires Codec.Lossless(wording.getResponse) && AllHeard(net, nodes, trail, wording, s, id, qs, peers)
    requires i < |qs| && Supplies(net, nodes, wording, s, id, qs[i], peers[i])
    ensures var answers, made := PeerAnswers(wording, Request(s, id), peers), After(net, trail).made;
            && Name(s, id) in made
            && (forall a <- answers :: Honest(a, made[Name(s, id)].entry, made[Name(s, id)].raw))
            && answers[i].Found? && |answers[i].delivered| == answers[i].promised
  {
    var answers, made := PeerAnswers(wording, Request(s, id), peers), After(net, trail).made;
    CustodianIsHonest(net, sites, nodes, trail, wording, s, id, qs[i], peers[i]);
    forall a | a in answers ensures Honest(a, made[Name(s, id)].entry, made[Name(s, id)].raw) {
      var j :| 0 <= j < |answers| && answers[j] == a;
      assert HeardAt(net, nodes, trail, wording, s, id, qs[j], peers[j]);
      CustodianIsHonest(net, sites, nodes, trail, wording, s, id, qs[j], peers[j]);
    }
  }

  /** The only version that honest answers offer. */
  lemma OnlyOneOffered(made: map<Name, Made>, s: Site, id: string, answers: seq<Answer>, i: nat)
    requires Name(s, id) in made && made[Name(s, id)].entry.versionID == id
    requires forall a <- answers :: Honest(a, made[Name(s, id)].entry, made[Name(s, id)].raw)
    requires i < |answers| && answers[i].Found?
    ensures Offered(s, answers) == {Name(s, id)}
  {
    assert answers[i] in answers;
    assert Name(s, answers[i].entry.versionID) in Offered(s, answers);
  }

  /** The version asked for and those listed on the origin's disk differ in their first digits. */
  ghost predicate AskedApart(sites: set<Site>, s: Site, id: string, node: Node) {
    s in sites && Apart(node.cfg.sha, Live(node.cfg, sites, node.disk, {Name(s, id)}))
  }

  lemma OriginGets(net: Net, trail: Trail, s: Site, id: string, answers: seq<Answer>, i: nat)
    requires Safe(net, trail) && id != "" && !Unsettled(After(net, trail).windows, Own(s), id)
    requires Name(s, id) in After(net, trail).made
    requires var m := After(net, trail).made[Name(s, id)]; forall a <- answers :: Honest(a, m.entry, m.raw)
    requires i < |answers| && answers[i].Found? && |answers[i].delivered| == answers[i].promised
    ensures var w := After(net, trail);
            var plain := w.made[Name(s, id)].plain;
            && w.made[Name(s, id)].entry.versionID == id
            && Get(CipherOf(net, Own(s)), net.max(s.node), s, LogAt(w, Own(s)), id, answers).1 ==
               Success((|plain|, plain))
  {
    var w := After(net, trail);
    SafeTrailsAgree(net, trail);
    if id in Ids(LogAt(w, Own(s)).versions) {
      RecoversLocally(net, w, s, id, answers);
    } else {
      RecoversFromHonest(net, w, s, id, answers, i);
    }
  }

  /**
   * Recovery end to end. After any run without hazards, a node asks its peers for a version of its own. Each peer's
   * handler looks it up on its disk at moments of its own in that run, and some beginning of what it sends arrives, or
   * no stream opens. If from one of them, which keeps the version and may give it, all of it arrives, then what
   * GetVersion makes of the node's disk and those streams is the original plaintext and its length.
   */
  lemma RecoversFromCustodians(net: Net, sites: set<Site>, nodes: map<string, Node>, trail: Trail, wording: Wording,
                               s: Site, id: string, qs: seq<Custodian>, peers: seq<Remote>, i: nat)
    requires Safe(net, trail) && RunApart(net, sites, trail, nodes) && SetUp(net, nodes) && s in sites && id != ""
    requires Codec.Lossless(wording.getRequest) && Fits(wording.getRequest, Request(s, id))
    requires Codec.Lossless(wording.getResponse) && AllHeard(net, nodes, trail, wording, s, id, qs, peers)
    requires i < |qs| && Supplies(net, nodes, wording, s, id, qs[i], peers[i])
    requires s.node in Play(net, trail, nodes) && AskedApart(sites, s, id, Play(net, trail, nodes)[s.node])
    requires !Unsettled(After(net, trail).windows, Own(s), id)
    ensures var w, node := After(net, trail), Play(net, trail, nodes)[s.node];
            && IsDigest(node.cfg.sha) && Name(s, id) in w.made
            && var plain := w.made[Name(s, id)].plain;
               DiskGet(node.cfg, s, id, PeerAnswers(wording, Request(s, id), peers), node.disk).1 ==
                   Success((|plain|, plain))
  {
    var answers := PeerAnswers(wording, Request(s, id), peers);
    CustodiansAreHonest(net, sites, nodes, trail, wording, s, id, qs, peers, i);
    OriginGets(net, trail, s, id, answers, i);
    OnlyOneOffered(After(net, trail).made, s, id, answers, i);
    RunGets(net, sites, nodes, trail, s, id, answers);
  }
}
