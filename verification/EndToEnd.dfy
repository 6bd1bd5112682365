/** Both sides of an exchange together: what one node sends, cut off anywhere, and what the other makes of it. */
module EndToEnd {
  import opened Base
  import opened Files
  import opened Versions
  import opened Layout
  import opened Histories
  import opened Plans
  import opened Refinement
  import opened Transfers
  import opened Laws
  import opened Exchanges
  import opened Server
  import opened FanOut
  import Aes
  import Codec

  /** What sendBlob puts on the wire. */
  function StoreBytes(codec: Codec.PayloadCodec<StoreRequest>, origin: string, key: string, entry: VersionEntry,
                      blob: Bytes): Bytes {
    Codec.Frame(codec.encode(StoreRequest(origin, key, MetaFromEntry(entry, |blob|)))) + blob
  }

  predicate Fits<M>(codec: Codec.PayloadCodec<M>, m: M) {
    |codec.encode(m)| <= Codec.MAX_HEADER_BYTES
  }

  /** A store request is confirmed exactly if it was readable, allowed and sound, and every promised byte arrived. */
  lemma StoreConfirmedIff(cfg: Config, codec: Codec.PayloadCodec<StoreRequest>, allowed: bool, arriving: Bytes,
                          clean: bool, d: Disk)
    requires IsDigest(cfg.sha)
    ensures var (m, rest) := Codec.Parse(codec, arriving);
            StoreOutcome(cfg, codec, allowed, arriving, clean, d).1 == Some(StoreResponse(true, "")) <==>
            m.Success? && allowed && m.value.meta.versionID != "" && 0 <= m.value.meta.blobBytes <= |rest|
            && Load(cfg, d, Site(m.value.originID, m.value.key)).Success?
  {
    var (m, rest) := Codec.Parse(codec, arriving);
    if m.Success? && m.value.meta.blobBytes >= 0 {
      var op := FetchOp(Site(m.value.originID, m.value.key),
                        Found(EntryFromMeta(m.value.meta), m.value.meta.blobBytes, rest, clean));
      assert |Payload(op)| == Min(m.value.meta.blobBytes, |rest|);
    }
  }

  /** A store request that is unreadable, refused or unsound leaves the disk as it was. */
  lemma StoreRefusedChangesNothing(cfg: Config, codec: Codec.PayloadCodec<StoreRequest>, allowed: bool,
                                   arriving: Bytes, clean: bool, d: Disk)
    requires IsDigest(cfg.sha)
    ensures var (m, rest) := Codec.Parse(codec, arriving);
            var (d', resp) := StoreOutcome(cfg, codec, allowed, arriving, clean, d);
            && (resp == None <==> m.Failure?)
            && (m.Failure? || !allowed || m.value.meta.blobBytes < 0 || m.value.meta.versionID == ""
                || Load(cfg, d, Site(m.value.originID, m.value.key)).Failure? ==>
                  d' == d && resp != Some(StoreResponse(true, "")))
  {
    var (m, rest) := Codec.Parse(codec, arriving);
    StoreConfirmedIff(cfg, codec, allowed, arriving, clean, d);
    if m.Success? && m.value.meta.blobBytes >= 0 {
      var op := FetchOp(Site(m.value.originID, m.value.key),
                        Found(EntryFromMeta(m.value.meta), m.value.meta.blobBytes, rest, clean));
      assert op.meta.versionID == m.value.meta.versionID;
    }
  }

  /**
   * A share is confirmed, with the identity it was given and the next number, exactly if its request was readable,
   * allowed and sound and every promised byte arrived; one that is unreadable, refused or unsound changes nothing.
   */
  lemma ShareConfirmedIff(cfg: Config, codec: Codec.PayloadCodec<ShareRequest>, nodeID: string, allowed: bool,
                          arriving: Bytes, clean: bool, id: string, now: int, iv: Bytes, d: Disk)
    requires IsDigest(cfg.sha)
    ensures var (m, rest) := Codec.Parse(codec, arriving);
            var (d', resp) := ShareOutcome(cfg, codec, nodeID, allowed, arriving, clean, id, now, iv, d);
            && (resp == None <==> m.Failure?)
            && (resp.Some? && resp.value.ok <==>
                m.Success? && allowed && 0 <= m.value.sizeBytes <= |rest|
                && Load(cfg, d, Site(nodeID, m.value.key)).Success?)
            && (resp.Some? && resp.value.ok ==>
                  resp.value.versionID == id
                  && resp.value.number == NextSeq(Load(cfg, d, Site(nodeID, m.value.key)).value.versions))
            && (m.Failure? || !allowed || m.value.sizeBytes < 0 || Load(cfg, d, Site(nodeID, m.value.key)).Failure? ==>
                  d' == d)
  {
    var (m, rest) := Codec.Parse(codec, arriving);
    if m.Success? && allowed && m.value.sizeBytes >= 0 {
      var op := SharedOp(nodeID, m.value, rest, clean, id, now, iv);
      assert |Payload(op)| == Min(m.value.sizeBytes, |rest|);
    }
  }

  /**
   * When a get request goes unanswered, when it is answered with a blob, and which. The metadata is what the first
   * lookup found, the length and the bytes are what the second did.
   */
  lemma GetAnsweredIff(cfg: Config, codec: Codec.PayloadCodec<GetRequest>, allowed: bool, arriving: Bytes, d: Disk,
                       later: Disk)
    ensures var m := Codec.Parse(codec, arriving).0;
            var outcome := GetOutcome(cfg, codec, allowed, arriving, d, later);
            && (outcome == None <==> m.Failure?)
            && (m.Success? ==>
                  var s, id := Site(m.value.originID, m.value.key), m.value.versionID;
                  var first, second := DiskInfo(cfg, d, s, id), DiskReadRaw(cfg, later, s, id);
                  && (outcome.value.0.found <==> allowed && first.Success? && second.Success?)
                  && (outcome.value.0.found ==>
                        && outcome.value.1 == second.value.1 && outcome.value.0.meta.Some?
                        && EntryFromMeta(outcome.value.0.meta.value) == first.value
                        && outcome.value.0.meta.value.blobBytes == |second.value.1|)
                  && (!outcome.value.0.found ==> outcome.value.0.meta == None && outcome.value.1 == []))
  {
  }

  /** The transfer the custodian takes in when `cut` bytes of what sendBlob put on the wire arrive. */
  lemma StoreRequestCrosses(codec: Codec.PayloadCodec<StoreRequest>, origin: string, key: string, entry: VersionEntry,
                            blob: Bytes, cut: nat)
    requires Codec.Lossless(codec) && Fits(codec, StoreRequest(origin, key, MetaFromEntry(entry, |blob|)))
    requires cut <= |StoreBytes(codec, origin, key, entry, blob)|
    ensures var (m, rest) := Codec.Parse(codec, StoreBytes(codec, origin, key, entry, blob)[..cut]);
            && (m.Failure? || (m.value == StoreRequest(origin, key, MetaFromEntry(entry, |blob|)) && rest <= blob))
            && (m.Success? && |rest| == |blob| <==> cut == |StoreBytes(codec, origin, key, entry, blob)|)
  {
    var req := StoreRequest(origin, key, MetaFromEntry(entry, |blob|));
    Codec.CutMessageThenBody(codec, req, blob, cut);
  }

  /**
   * Replication end to end. Whatever beginning of the origin's request reaches the custodian, it answers
   * OK exactly if that is all of it; then it holds, under the origin's name and metadata, the very bytes
   * on the origin's disk. Otherwise, if the version was not listed there and retention has room, the
   * custodian's list and blobs for that file are as they were. Its other files never change.
   */
  lemma ReplicaIsExactOrAbsent(cfg: Config, u: Universe, codec: Codec.PayloadCodec<StoreRequest>, s: Site,
                               entry: VersionEntry,
                               blob: Bytes, cut: nat, clean: bool, d: Disk, d': Disk, resp: Option<StoreResponse>)
    requires Apart(cfg.sha, u) && Sound(cfg) && Kept(cfg, u, d) && s in u.sites && Name(s, entry.versionID) in u.names
    requires Codec.Lossless(codec) && Fits(codec, StoreRequest(s.node, s.key, MetaFromEntry(entry, |blob|)))
    requires entry.versionID != ""
    requires cut <= |StoreBytes(codec, s.node, s.key, entry, blob)|
    requires (d', resp) == StoreOutcome(cfg, codec, true, StoreBytes(codec, s.node, s.key, entry, blob)[..cut], clean,
                                        d)
    ensures Kept(cfg, u, d') && forall t <- u.sites :: t != s ==> Abs(cfg, d', t) == Abs(cfg, d, t)
    ensures resp == Some(StoreResponse(true, "")) <==> cut == |StoreBytes(codec, s.node, s.key, entry, blob)|
    ensures resp == Some(StoreResponse(true, "")) ==> DiskReadRaw(cfg, d', s, entry.versionID) == Success((entry, blob))
    ensures resp != Some(StoreResponse(true, "")) && entry.versionID !in Ids(Abs(cfg, d, s).versions)
            && Roomy(cfg.maxVersions, Abs(cfg, d, s)) && Complete(Abs(cfg, d, s)) ==>
              Abs(cfg, d', s).versions == Abs(cfg, d, s).versions && Abs(cfg, d', s).blobs == Abs(cfg, d, s).blobs
  {
    var arriving := StoreBytes(codec, s.node, s.key, entry, blob)[..cut];
    var (m, rest) := Codec.Parse(codec, arriving);
    StoreRequestCrosses(codec, s.node, s.key, entry, blob, cut);
    StoreConfirmedIff(cfg, codec, true, arriving, clean, d);
    assert KeptAt(cfg, u, d, s);
    if m.Success? {
      MetaRoundTrip(entry, |blob|);
      var a := Found(entry, |blob|, rest, clean);
      TakenIn(cfg, u, s, a, blob, d, d', DiskTake(cfg, FetchOp(s, a), |blob|, d).1);
    }
  }

  /** Taking in a transfer of which a beginning of the blob arrives. */
  lemma TakenIn(cfg: Config, u: Universe, s: Site, a: Answer, blob: Bytes, d: Disk, d': Disk, kept: bool)
    requires Apart(cfg.sha, u) && Sound(cfg) && Kept(cfg, u, d) && s in u.sites && a.Found?
    requires Name(s, a.entry.versionID) in u.names
    requires a.entry.versionID != "" && Honest(a, a.entry, blob) && (d', kept) == DiskFetch(cfg, s, a, d)
    ensures Kept(cfg, u, d') && forall t <- u.sites :: t != s ==> Abs(cfg, d', t) == Abs(cfg, d, t)
    ensures kept ==> DiskReadRaw(cfg, d', s, a.entry.versionID) == Success((a.entry, blob))
    ensures !kept && a.entry.versionID !in Ids(Abs(cfg, d, s).versions)
            && Roomy(cfg.maxVersions, Abs(cfg, d, s)) && Complete(Abs(cfg, d, s)) ==>
              Abs(cfg, d', s).versions == Abs(cfg, d, s).versions && Abs(cfg, d', s).blobs == Abs(cfg, d, s).blobs
  {
    var op, h := FetchOp(s, a), Abs(cfg, d, s);
    assert KeptAt(cfg, u, d, s);
    TakeRefines(cfg, u, op, a.promised, d, h);
    var (h', kept') := Take(cfg.cipher, cfg.maxVersions, op, a.promised, h);
    assert KeptAt(cfg, u, d', s);
    ReadsRefine(cfg, d', s, a.entry.versionID);
    if kept {
      GoodFetch(cfg.cipher, cfg.maxVersions, s, h, a, a.entry, blob);
    } else if Complete(h) {
      FailedTransferRestoresIff(cfg.cipher, cfg.maxVersions, op, a.promised, h, h', kept');
    }
  }

  /** Taking in a file of which a beginning arrives. */
  lemma FileTakenIn(cfg: Config, u: Universe, op: Op, plain: Bytes, d: Disk, d': Disk, kept: bool)
    requires Apart(cfg.sha, u) && Sound(cfg) && Kept(cfg, u, d) && OpInUse(u, op) && op.Write? && |op.iv| == Aes.IV_SIZE
    requires Fresh(op, Abs(cfg, d, op.site)) && op.plain <= plain && (op.plain == plain ==> op.clean)
    requires (d', kept) == DiskTake(cfg, op, |plain|, d)
    ensures Kept(cfg, u, d') && forall t <- u.sites :: t != op.site ==> Abs(cfg, d', t) == Abs(cfg, d, t)
    ensures kept <==> op.plain == plain
    ensures kept ==> 
              DiskReadPlain(cfg, d', op.site, "") == DiskReadPlain(cfg, d', op.site, op.id) == Success((|plain|, plain))
    ensures !kept && Roomy(cfg.maxVersions, Abs(cfg, d, op.site)) && Complete(Abs(cfg, d, op.site)) ==>
              Abs(cfg, d', op.site).versions == Abs(cfg, d, op.site).versions
                  && Abs(cfg, d', op.site).blobs == Abs(cfg, d, op.site).blobs
  {
    var h := Abs(cfg, d, op.site);
    assert KeptAt(cfg, u, d, op.site);
    TakeRefines(cfg, u, op, |plain|, d, h);
    var (h', kept') := Take(cfg.cipher, cfg.maxVersions, op, |plain|, h);
    assert KeptAt(cfg, u, d', op.site);
    ReadsRefine(cfg, d', op.site, "");
    ReadsRefine(cfg, d', op.site, op.id);
    if kept {
      WrittenReadsBack(cfg.cipher, cfg.maxVersions, op, h, h');
    } else if Complete(h) {
      FailedTransferRestoresIff(cfg.cipher, cfg.maxVersions, op, |plain|, h, h', kept');
    }
  }

  /** What is recorded of a confirmed share: the recipient's identity, number and time, and the sender's message. */
  lemma SharedIsRecorded(cfg: Config, u: Universe, codec: Codec.PayloadCodec<ShareRequest>, nodeID: string,
                         arriving: Bytes, clean: bool, id: string, now: int, iv: Bytes, d: Disk, d': Disk,
                         resp: Option<ShareResponse>, req: ShareRequest, rest: Bytes)
    requires Apart(cfg.sha, u) && Sound(cfg) && Kept(cfg, u, d) && Site(nodeID, req.key) in u.sites
    requires Name(Site(nodeID, req.key), id) in u.names && id != ""
    requires id !in Ids(Abs(cfg, d, Site(nodeID, req.key)).versions)
    requires Codec.Parse(codec, arriving) == (Success(req), rest) && resp.Some? && resp.value.ok
    requires (d', resp) == ShareOutcome(cfg, codec, nodeID, true, arriving, clean, id, now, iv, d)
    ensures var s := Site(nodeID, req.key);
            var numbers := Load(cfg, d, s).value.versions;
            DiskInfo(cfg, d', s, "") == DiskInfo(cfg, d', s, id) ==
            Success(VersionEntry(id, if numbers == [] then 1 else numbers[|numbers| - 1].number + 1, now, req.sizeBytes,
                                 req.message))
  {
    var s := Site(nodeID, req.key);
    var op := SharedOp(nodeID, req, rest, clean, id, now, iv);
    ShareConfirmedIff(cfg, codec, nodeID, true, arriving, clean, id, now, iv, d);
    assert KeptAt(cfg, u, d, s);
    EveryStep(cfg, u, op, d);
    assert d' == RunOp(cfg, op, d) && |op.plain| == req.sizeBytes;
    assert KeptAt(cfg, u, d', s);
    WrittenIsRecorded(cfg.cipher, cfg.maxVersions, op, Abs(cfg, d, s));
  }

  /**
   * Sharing end to end. Whatever beginning of a share request reaches the recipient, it answers OK, with
   * the identity and number it gave, exactly if that is all of it; then its latest version reads as the
   * sender's plaintext. Otherwise, if retention has room, its list and blobs for that file are as they
   * were. Its other files never change.
   */
  lemma SharedIsReadableOrAbsent(cfg: Config, u: Universe, codec: Codec.PayloadCodec<ShareRequest>, s: Site,
                                 req: ShareRequest, plain: Bytes,
                                 cut: nat, clean: bool, id: string, now: int, iv: Bytes, d: Disk, d': Disk,
                                 resp: Option<ShareResponse>)
    requires Apart(cfg.sha, u) && Sound(cfg) && Kept(cfg, u, d) && s in u.sites && Name(s, id) in u.names
    requires id != "" && id !in Ids(Abs(cfg, d, s).versions) && |iv| == Aes.IV_SIZE
    requires Codec.Lossless(codec) && Fits(codec, req) && req.sizeBytes == |plain| && req.key == s.key
    requires cut <= |Codec.Frame(codec.encode(req)) + plain|
    requires (d', resp) ==
             ShareOutcome(cfg, codec, s.node, true, (Codec.Frame(codec.encode(req)) + plain)[..cut], clean, id, now,
                          iv, d)
    ensures Kept(cfg, u, d') && forall t <- u.sites :: t != s ==> Abs(cfg, d', t) == Abs(cfg, d, t)
    ensures (resp.Some? && resp.value.ok) <==> cut == |Codec.Frame(codec.encode(req)) + plain|
    ensures resp.Some? && resp.value.ok ==>
              resp.value.versionID == id && resp.value.number == NextSeq(Abs(cfg, d, s).versions)
              && DiskReadPlain(cfg, d', s, "") == DiskReadPlain(cfg, d', s, id) == Success((|plain|, plain))
    ensures !(resp.Some? && resp.value.ok) && Roomy(cfg.maxVersions, Abs(cfg, d, s)) && Complete(Abs(cfg, d, s)) ==>
              Abs(cfg, d', s).versions == Abs(cfg, d, s).versions && Abs(cfg, d', s).blobs == Abs(cfg, d, s).blobs
  {
    var frame := Codec.Frame(codec.encode(req));
    Codec.CutMessageThenBody(codec, req, plain, cut);
    assert KeptAt(cfg, u, d, s);
    if cut >= |frame| {
      var op := SharedOp(s.node, req, plain[..cut - |frame|], clean, id, now, iv);
      assert op.plain == plain[..cut - |frame|];
      FileTakenIn(cfg, u, op, plain, d, d', DiskTake(cfg, op, |plain|, d).1);
    }
  }

  /**
   * A fetch end to end. Whatever beginning of a peer's answer reaches the origin, and whatever other calls do
   * on the peer between its two lookups, the origin takes it for no answer, or for the metadata of the first
   * lookup and the true length of what the second found with some beginning of those bytes; if all of it
   * arrives, for all of them. For an explicit version both are of that version.
   */
  lemma AnswersAreHonest(cfg: Config, wording: Wording, allowed: bool, req: GetRequest, d: Disk, later: Disk, cut: nat,
                         clean: bool, outcome: (GetResponse, Bytes))
    requires Codec.Lossless(wording.getRequest) && Codec.Lossless(wording.getResponse) && Fits(wording.getRequest, req)
    requires GetOutcome(cfg, wording.getRequest, allowed, Codec.Frame(wording.getRequest.encode(req)), d, later) ==
             Some(outcome)
    requires Fits(wording.getResponse, outcome.0)
    requires cut <= |Codec.Frame(wording.getResponse.encode(outcome.0)) + outcome.1|
    ensures var sent := Codec.Frame(wording.getResponse.encode(outcome.0)) + outcome.1;
            var a := AnswerOf(wording.getResponse, sent[..cut], clean);
            var s := Site(req.originID, req.key);
            match (DiskInfo(cfg, d, s, req.versionID), DiskReadRaw(cfg, later, s, req.versionID))
            case (Success(entry), Success((found, blob))) =>
              && (req.versionID != "" ==> entry.versionID == found.versionID == req.versionID)
              && (if !allowed then a == Declined
                  else Honest(a, entry, blob) && (cut == |sent| ==> a == Found(entry, |blob|, blob, clean)))
            case _ => a == Declined
  {
    Codec.FrameRoundTrip(wording.getRequest, req, []);
    assert Codec.Frame(wording.getRequest.encode(req)) + [] == Codec.Frame(wording.getRequest.encode(req));
    Codec.CutMessageThenBody(wording.getResponse, outcome.0, outcome.1, cut);
    var s := Site(req.originID, req.key);
    match (DiskInfo(cfg, d, s, req.versionID), DiskReadRaw(cfg, later, s, req.versionID))
    case (Success(entry), Success((_, blob))) =>
      if allowed {
        AnswerCrossesWire(wording.getResponse, entry, blob, cut, clean);
      }
    case _ =>
  }

  /** A refusal, whatever part of it arrives, is no answer. */
  lemma RefusalIsDeclined(codec: Codec.PayloadCodec<GetResponse>, error: string, meta: Option<VersionMeta>, body: Bytes,
                          cut: nat, clean: bool)
    requires Codec.Lossless(codec) && Fits(codec, GetResponse(false, error, meta))
    requires cut <= |Codec.Frame(codec.encode(GetResponse(false, error, meta))) + body|
    ensures var sent := Codec.Frame(codec.encode(GetResponse(false, error, meta))) + body;
            AnswerOf(codec, sent[..cut], clean) == Declined
  {
    Codec.CutMessageThenBody(codec, GetResponse(false, error, meta), body, cut);
  }

  /** What a peer puts on the wire when it has the version. */
  function FoundBytes(codec: Codec.PayloadCodec<GetResponse>, entry: VersionEntry, blob: Bytes): Bytes {
    Codec.Frame(codec.encode(GetResponse(true, "", Some(MetaFromEntry(entry, |blob|))))) + blob
  }

  /**
   * What a get makes of its peers. Whatever part of a found answer arrives on an open stream is honest, and if all of
   * it does, it is taken for exactly that answer; a stream that does not open is none.
   */
  lemma PeersAreHeard(wording: Wording, req: GetRequest, peers: seq<Remote>, i: nat, entry: VersionEntry, blob: Bytes,
                      cut: nat)
    requires Codec.Lossless(wording.getResponse) && Fits(wording.getRequest, req) && i < |peers|
    requires Fits(wording.getResponse, GetResponse(true, "", Some(MetaFromEntry(entry, |blob|))))
    requires cut <= |FoundBytes(wording.getResponse, entry, blob)|
    requires peers[i].arriving == FoundBytes(wording.getResponse, entry, blob)[..cut]
    ensures |PeerAnswers(wording, req, peers)| == |peers|
    ensures var a := PeerAnswers(wording, req, peers)[i];
            && Honest(a, entry, blob)
            && (!peers[i].opens ==> a == Declined)
            && (peers[i].opens && cut == |FoundBytes(wording.getResponse, entry, blob)| ==>
                  a == Found(entry, |blob|, blob, peers[i].clean))
  {
    AnswerCrossesWire(wording.getResponse, entry, blob, cut, peers[i].clean);
  }

  // ---- Replication to many peers ----

  /** One custodian and how far its exchange with the origin gets in either direction. */
  datatype Exchange = Exchange(cfg: Config, u: Universe, disk: Disk, cut: nat, clean: bool, back: nat)

  ghost predicate Proper(x: Exchange, s: Site, entry: VersionEntry) {
    && Apart(x.cfg.sha, x.u) && Sound(x.cfg) && Kept(x.cfg, x.u, x.disk)
    && s in x.u.sites && Name(s, entry.versionID) in x.u.names
  }

  /** The custodian's disk and response once the part of the request that arrives has been handled. */
  function Handled(x: Exchange, wording: Wording, s: Site, entry: VersionEntry, blob: Bytes)
    : (Disk, Option<StoreResponse>)
    requires IsDigest(x.cfg.sha)
  {
    var sent := StoreBytes(wording.storeRequest, s.node, s.key, entry, blob);
    StoreOutcome(x.cfg, wording.storeRequest, true, Prefix(sent, x.cut), x.clean, x.disk)
  }

  /** The part of the custodian's response that gets back to the origin. */
  function Returned(x: Exchange, wording: Wording, resp: Option<StoreResponse>): Bytes {
    if resp.None? || !Fits(wording.storeResponse, resp.value) then []
    else Prefix(Codec.Frame(wording.storeResponse.encode(resp.value)), x.back)
  }

  lemma ResponseCrosses(codec: Codec.PayloadCodec<StoreResponse>, resp: StoreResponse, back: nat)
    requires Codec.Lossless(codec) && Fits(codec, resp)
    ensures Confirms(codec, Prefix(Codec.Frame(codec.encode(resp)), back)) ==> resp.ok
  {
    var frame := Codec.Frame(codec.encode(resp));
    assert frame + [] == frame;
    Codec.CutMessageThenBody(codec, resp, [], Min(back, |frame|));
  }

  /** The custodian's OK, if all of it gets back, is seen as one. */
  lemma WholeOKConfirms(codec: Codec.PayloadCodec<StoreResponse>, resp: StoreResponse, back: nat)
    requires Codec.Lossless(codec) && Fits(codec, resp) && back >= |Codec.Frame(codec.encode(resp))|
    ensures Confirms(codec, Prefix(Codec.Frame(codec.encode(resp)), back)) <==> resp.ok
  {
    var frame := Codec.Frame(codec.encode(resp));
    assert frame + [] == frame && Prefix(frame, back) == frame;
    Codec.FrameRoundTrip(codec, resp, []);
  }

  lemma OnlyOneOK(cfg: Config, codec: Codec.PayloadCodec<StoreRequest>, allowed: bool, arriving: Bytes, clean: bool,
                  d: Disk)
    requires IsDigest(cfg.sha)
    ensures var resp := StoreOutcome(cfg, codec, allowed, arriving, clean, d).1;
            resp.Some? && resp.value.ok ==> resp == Some(StoreResponse(true, ""))
  {
  }

  /** The origin gets to see this custodian's OK. */
  ghost predicate Confirmed(x: Exchange, wording: Wording, s: Site, entry: VersionEntry, blob: Bytes) {
    IsDigest(x.cfg.sha) && Confirms(wording.storeResponse, Returned(x, wording, Handled(x, wording, s, entry, blob).1))
  }

  /** This custodian's disk holds the origin's bytes under the origin's entry. */
  ghost predicate Held(x: Exchange, wording: Wording, s: Site, entry: VersionEntry, blob: Bytes) {
    && IsDigest(x.cfg.sha)
    && DiskReadRaw(x.cfg, Handled(x, wording, s, entry, blob).0, s, entry.versionID) == Success((entry, blob))
  }

  lemma ConfirmedIsHeld(x: Exchange, wording: Wording, s: Site, entry: VersionEntry, blob: Bytes)
    requires Proper(x, s, entry) && Codec.Lossless(wording.storeRequest) && Codec.Lossless(wording.storeResponse)
    requires Fits(wording.storeRequest, StoreRequest(s.node, s.key, MetaFromEntry(entry, |blob|)))
    requires entry.versionID != ""
    requires Confirmed(x, wording, s, entry, blob)
    ensures Held(x, wording, s, entry, blob)
  {
    var sent := StoreBytes(wording.storeRequest, s.node, s.key, entry, blob);
    var (d', resp) := Handled(x, wording, s, entry, blob);
    var cut := Min(x.cut, |sent|);
    OnlyOneOK(x.cfg, wording.storeRequest, true, sent[..cut], x.clean, x.disk);
    if resp.Some? && Fits(wording.storeResponse, resp.value) {
      ResponseCrosses(wording.storeResponse, resp.value, x.back);
    }
    ReplicaIsExactOrAbsent(x.cfg, x.u, wording.storeRequest, s, entry, blob, cut, x.clean, x.disk, d', resp);
  }

  /** If nothing is cut off in either direction, the origin sees the OK, whatever ended the stream. */
  lemma WholeExchangeConfirms(x: Exchange, wording: Wording, s: Site, entry: VersionEntry, blob: Bytes)
    requires Proper(x, s, entry) && Codec.Lossless(wording.storeRequest) && Codec.Lossless(wording.storeResponse)
    requires Fits(wording.storeRequest, StoreRequest(s.node, s.key, MetaFromEntry(entry, |blob|)))
    requires Fits(wording.storeResponse, StoreResponse(true, "")) && entry.versionID != ""
    requires x.cut >= |StoreBytes(wording.storeRequest, s.node, s.key, entry, blob)|
    requires x.back >= |Codec.Frame(wording.storeResponse.encode(StoreResponse(true, "")))|
    ensures Confirmed(x, wording, s, entry, blob)
  {
    var sent := StoreBytes(wording.storeRequest, s.node, s.key, entry, blob);
    var (d', resp) := Handled(x, wording, s, entry, blob);
    assert Prefix(sent, x.cut) == sent[..|sent|];
    ReplicaIsExactOrAbsent(x.cfg, x.u, wording.storeRequest, s, entry, blob, |sent|, x.clean, x.disk, d', resp);
    WholeOKConfirms(wording.storeResponse, StoreResponse(true, ""), x.back);
  }

  /**
   * Acknowledgements end to end. If each peer's outcome is what sendBlob makes of its exchange, then as many
   * custodians as the write result counts hold, each on its own disk, the origin's bytes under the origin's entry.
   */
  lemma CountedPeersHold<E>(wording: Wording, s: Site, entry: VersionEntry, blob: Bytes, peers: seq<string>,
                            xs: seq<Exchange>, outcomes: seq<Outcome<E>>) returns (where: seq<nat>)
    requires Codec.Lossless(wording.storeRequest) && Codec.Lossless(wording.storeResponse) && entry.versionID != ""
    requires Fits(wording.storeRequest, StoreRequest(s.node, s.key, MetaFromEntry(entry, |blob|)))
    requires |peers| == |xs| == |outcomes| && forall x <- xs :: Proper(x, s, entry)
    requires forall i :: 0 <= i < |xs| ==> (outcomes[i].Accepted? <==> Confirmed(xs[i], wording, s, entry, blob))
    ensures Increasing(where, |peers|) && |where| == |peers| - |Failures(peers, outcomes)|
    ensures forall j :: 0 <= j < |where| ==> Held(xs[where[j]], wording, s, entry, blob)
  {
    where := PlacementsInOrder(peers, outcomes);
    TriedIsStoredPlusFailed(peers, outcomes);
    forall j | 0 <= j < |where| ensures Held(xs[where[j]], wording, s, entry, blob) {
      assert xs[where[j]] in xs;
      ConfirmedIsHeld(xs[where[j]], wording, s, entry, blob);
    }
  }
}
