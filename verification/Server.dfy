/** internal/server/handlers.go and the requests of server.go: each side of the three exchanges. */
module Server {
  import opened Base
  import opened Files
  import opened Versions
  import opened Layout
  import opened Histories
  import opened Plans
  import opened Transfers
  import opened Exchanges
  import Codec
  import Store

  /** One stream to a peer: what it will send us, what we have sent it, and whether we reset it. */
  class Conn {
    const input: Stream
    const output: Codec.Wire
    var reset: bool

    constructor (arriving: Bytes, clean: bool)
      ensures input.rest == arriving && input.clean == clean && output.sent == [] && !reset
      ensures fresh(input) && fresh(output)
    {
      input := new Stream(arriving, clean);
      output := new Codec.Wire();
      reset := false;
    }
  }

  /** A connected peer: whether a stream to it opens, and what it would send back on it. */
  datatype Remote = Remote(opens: bool, arriving: Bytes, clean: bool)

  /** A message went out as one frame, or did not fit and the stream was reset. */
  ghost predicate Delivered<M>(codec: Codec.PayloadCodec<M>, m: M, before: Bytes, after: Bytes, reset: bool) {
    if |codec.encode(m)| <= Codec.MAX_HEADER_BYTES then after == before + Codec.Frame(codec.encode(m))
    else after == before && reset
  }

  // ---- What each handler does, by what arrives ----

  /** The disk after a store request, and the response if the request was readable. */
  function StoreOutcome(cfg: Config, codec: Codec.PayloadCodec<StoreRequest>, allowed: bool, arriving: Bytes,
                        clean: bool, d: Disk)
    : (Disk, Option<StoreResponse>)
    requires IsDigest(cfg.sha)
  {
    var (m, rest) := Codec.Parse(codec, arriving);
    match m
    case Failure(_) => (d, None)
    case Success(req) =>
      if !allowed then (d, Some(StoreResponse(false, "not authorised to store here")))
      else if req.meta.blobBytes < 0 then (d, Some(StoreResponse(false, "invalid blob size")))
      else
        var op := FetchOp(Site(req.originID, req.key), Found(EntryFromMeta(req.meta), req.meta.blobBytes, rest, clean));
        var (d', kept) := DiskTake(cfg, op, req.meta.blobBytes, d);
        if kept then (d', Some(StoreResponse(true, "")))
        else if OpFailing(cfg, op, d).Some? then (d', Some(StoreResponse(false, "could not store the blob")))
        else (d', Some(StoreResponse(false, "incomplete blob")))
  }

  /**
   * What a get request is answered with, and the blob that follows it: the metadata as looked up on one disk,
   * the bytes as read, under another acquisition of the lock, on what that disk has become by then.
   */
  function GetOutcome(cfg: Config, codec: Codec.PayloadCodec<GetRequest>, allowed: bool, arriving: Bytes, d: Disk,
                      later: Disk)
    : Option<(GetResponse, Bytes)>
  {
    match Codec.Parse(codec, arriving).0
    case Failure(_) => None
    case Success(req) =>
      if !allowed then Some((GetResponse(false, "not authorised to read that", None), []))
      else
        match (DiskInfo(cfg, d, Site(req.originID, req.key), req.versionID),
               DiskReadRaw(cfg, later, Site(req.originID, req.key), req.versionID))
        case (Success(entry), Success((_, blob))) => Some((GetResponse(true, "", Some(MetaFromEntry(entry, |blob|))),
                                                           blob))
        case _ => Some((GetResponse(false, "", None), []))
  }

  /** The write a share request leads to: the recipient mints the identity, the time and the IV. */
  function SharedOp(nodeID: string, req: ShareRequest, rest: Bytes, clean: bool, id: string, now: int, iv: Bytes): Op
    requires req.sizeBytes >= 0
  {
    Write(Site(nodeID, req.key), id, now, req.message, Prefix(rest, req.sizeBytes), iv, clean
          || req.sizeBytes <= |rest|)
  }

  function ShareOutcome(cfg: Config, codec: Codec.PayloadCodec<ShareRequest>, nodeID: string, allowed: bool,
                        arriving: Bytes, clean: bool, id: string, now: int, iv: Bytes, d: Disk)
    : (Disk, Option<ShareResponse>)
    requires IsDigest(cfg.sha)
  {
    var (m, rest) := Codec.Parse(codec, arriving);
    match m
    case Failure(_) => (d, None)
    case Success(req) =>
      if !allowed then (d, Some(ShareResponse(false, "", 0, "not authorised to share here")))
      else if req.sizeBytes < 0 then (d, Some(ShareResponse(false, "", 0, "invalid file size")))
      else
        var op := SharedOp(nodeID, req, rest, clean, id, now, iv);
        var (d', kept) := DiskTake(cfg, op, req.sizeBytes, d);
        if kept then (d', Some(ShareResponse(true, id, NewEntry(op, Load(cfg, d, op.site).value.versions).number, "")))
        else if OpFailing(cfg, op, d).Some? then (d', Some(ShareResponse(false, "", 0, "could not store the file")))
        else (d', Some(ShareResponse(false, "", 0, "incomplete file")))
  }

  /** The peer's response is an OK. */
  function Confirms(codec: Codec.PayloadCodec<StoreResponse>, arriving: Bytes): bool {
    var resp := Codec.Parse(codec, arriving).0;
    resp.Success? && resp.value.ok
  }

  /** How a peer will answer a request for a version; none if no stream opens or the request does not fit. */
  function PeerAnswer(wording: Wording, req: GetRequest, p: Remote): Answer {
    if !p.opens || |wording.getRequest.encode(req)| > Codec.MAX_HEADER_BYTES then Declined
    else AnswerOf(wording.getResponse, p.arriving, p.clean)
  }

  function PeerAnswers(wording: Wording, req: GetRequest, peers: seq<Remote>): seq<Answer> {
    seq(|peers|, i requires 0 <= i < |peers| => PeerAnswer(wording, req, peers[i]))
  }

  class FileServer {
    const nodeID: string
    const store: Store.Store
    const wording: Wording

    constructor (nodeID: string, store: Store.Store, wording: Wording)
      ensures this.nodeID == nodeID && this.store == store && this.wording == wording
    {
      this.nodeID, this.store, this.wording := nodeID, store, wording;
    }

    method Reply<M>(conn: Conn, codec: Codec.PayloadCodec<M>, m: M)
      modifies conn, conn.output
      ensures Delivered(codec, m, old(conn.output.sent), conn.output.sent, conn.reset)
      ensures old(conn.reset) ==> conn.reset
    {
      var ok := Codec.WriteMessage(conn.output, codec, m);
      if !ok {
        conn.reset := true;
      }
    }

    /** A message with a body after it, as sendBlob, sendReadable and handleGet send them. */
    method SendWithBody<M>(conn: Conn, codec: Codec.PayloadCodec<M>, m: M, body: Bytes) returns (ok: bool)
      modifies conn, conn.output
      ensures ok <==> |codec.encode(m)| <= Codec.MAX_HEADER_BYTES
      ensures ok ==> conn.output.sent == old(conn.output.sent) + (Codec.Frame(codec.encode(m)) + body)
      ensures ok ==> conn.reset == old(conn.reset)
      ensures !ok ==> conn.output.sent == old(conn.output.sent) && conn.reset
    {
      ok := Codec.WriteMessage(conn.output, codec, m);
      if !ok {
        conn.reset := true;
        return;
      }
      Store.Regroup(old(conn.output.sent), Codec.Frame(codec.encode(m)), body);
      conn.output.Write(body);
    }

    /** handleStore. */
    method HandleStore(conn: Conn, allowed: bool)
      requires IsDigest(store.cfg.sha)
      modifies conn, conn.input, conn.output, store.fs
      ensures var (d, resp) := StoreOutcome(store.cfg, wording.storeRequest, allowed, old(conn.input.rest),
                                            conn.input.clean, old(store.fs.disk));
              && store.fs.disk == d
              && (resp.None? ==> conn.output.sent == old(conn.output.sent) && conn.reset)
              && (resp.Some? ==>
                    Delivered(wording.storeResponse, resp.value, old(conn.output.sent), conn.output.sent, conn.reset))
    {
      var req := Codec.ReadMessage(conn.input, wording.storeRequest);
      if req.Failure? {
        conn.reset := true;
        return;
      }
      if !allowed {
        Reply(conn, wording.storeResponse, StoreResponse(false, "not authorised to store here"));
        return;
      }
      var meta := req.value.meta;
      if meta.blobBytes < 0 {
        Reply(conn, wording.storeResponse, StoreResponse(false, "invalid blob size"));
        return;
      }
      var body := new Store.Body.Promised(conn.input, meta.blobBytes);
      var s := Site(req.value.originID, req.value.key);
      var failed := store.WriteVersionRaw(s, EntryFromMeta(meta), body);
      if failed.Some? {
        Reply(conn, wording.storeResponse, StoreResponse(false, "could not store the blob"));
        return;
      }
      if body.n != meta.blobBytes {
        var _ := store.DeleteVersion(s, meta.versionID);
        Reply(conn, wording.storeResponse, StoreResponse(false, "incomplete blob"));
        return;
      }
      Reply(conn, wording.storeResponse, StoreResponse(true, ""));
    }

    /** handleGet. `later` is what other calls make of the disk between its two lookups. */
    method HandleGet(conn: Conn, allowed: bool, later: Disk)
      requires IsDigest(store.cfg.sha)
      modifies conn, conn.input, conn.output, store.fs
      ensures var outcome := GetOutcome(store.cfg, wording.getRequest, allowed, old(conn.input.rest),
                                        old(store.fs.disk), later);
              if outcome.None? || |wording.getResponse.encode(outcome.value.0)| > Codec.MAX_HEADER_BYTES
              then conn.output.sent == old(conn.output.sent) && conn.reset
              else
                var (resp, blob) := outcome.value;
                conn.output.sent == old(conn.output.sent) + (Codec.Frame(wording.getResponse.encode(resp)) + blob)
    {
      var req := Codec.ReadMessage(conn.input, wording.getRequest);
      if req.Failure? {
        conn.reset := true;
        return;
      }
      if !allowed {
        var _ := SendWithBody(conn, wording.getResponse, GetResponse(false, "not authorised to read that", None), []);
        return;
      }
      var s := Site(req.value.originID, req.value.key);
      var entry := store.VersionInfo(s, req.value.versionID);
      if entry.Failure? {
        var _ := SendWithBody(conn, wording.getResponse, GetResponse(false, "", None), []);
        return;
      }
      store.fs.Interleave(later);
      var blob := store.ReadVersionRaw(s, req.value.versionID);
      if blob.Failure? {
        var _ := SendWithBody(conn, wording.getResponse, GetResponse(false, "", None), []);
        return;
      }
      var resp := GetResponse(true, "", Some(MetaFromEntry(entry.value, |blob.value.1|)));
      var _ := SendWithBody(conn, wording.getResponse, resp, blob.value.1);
    }

    /** handleShare. */
    method HandleShare(conn: Conn, allowed: bool, id: string, now: int, iv: Bytes)
      requires IsDigest(store.cfg.sha)
      modifies conn, conn.input, conn.output, store.fs
      ensures var (d, resp) := ShareOutcome(store.cfg, wording.shareRequest, nodeID, allowed, old(conn.input.rest),
                                            conn.input.clean, id, now, iv, old(store.fs.disk));
              && store.fs.disk == d
              && (resp.None? ==> conn.output.sent == old(conn.output.sent) && conn.reset)
              && (resp.Some? ==>
                    Delivered(wording.shareResponse, resp.value, old(conn.output.sent), conn.output.sent, conn.reset))
    {
      var req := Codec.ReadMessage(conn.input, wording.shareRequest);
      if req.Failure? {
        conn.reset := true;
        return;
      }
      if !allowed {
        Reply(conn, wording.shareResponse, ShareResponse(false, "", 0, "not authorised to share here"));
        return;
      }
      var size := req.value.sizeBytes;
      if size < 0 {
        Reply(conn, wording.shareResponse, ShareResponse(false, "", 0, "invalid file size"));
        return;
      }
      var body := new Store.Body.Promised(conn.input, size);
      var s := Site(nodeID, req.value.key);
      var entry := store.WriteVersion(s, req.value.message, body, id, now, iv);
      if entry.Failure? {
        Reply(conn, wording.shareResponse, ShareResponse(false, "", 0, "could not store the file"));
        return;
      }
      if body.n != size {
        var _ := store.DeleteVersion(s, entry.value.versionID);
        Reply(conn, wording.shareResponse, ShareResponse(false, "", 0, "incomplete file"));
        return;
      }
      Reply(conn, wording.shareResponse, ShareResponse(true, entry.value.versionID, entry.value.number, ""));
    }

    /** sendBlob: the request, the blob as it is on disk, and whether the peer confirmed it. */
    method SendBlob(conn: Conn, key: string, entry: VersionEntry) returns (ok: bool)
      requires IsDigest(store.cfg.sha)
      modifies conn, conn.input, conn.output
      ensures match DiskReadRaw(store.cfg, store.fs.disk, Site(nodeID, key), entry.versionID)
              case Failure(_) => !ok && conn.output.sent == old(conn.output.sent)
              case Success((_, blob)) =>
                var req := StoreRequest(nodeID, key, MetaFromEntry(entry, |blob|));
                if |wording.storeRequest.encode(req)| <= Codec.MAX_HEADER_BYTES
                then conn.output.sent == old(conn.output.sent) + (Codec.Frame(wording.storeRequest.encode(req)) + blob)
                     && (ok <==> Confirms(wording.storeResponse, old(conn.input.rest)))
                else conn.output.sent == old(conn.output.sent) && !ok
    {
      var blob := store.ReadVersionRaw(Site(nodeID, key), entry.versionID);
      if blob.Failure? {
        return false;
      }
      var req := StoreRequest(nodeID, key, MetaFromEntry(entry, |blob.value.1|));
      var sent := SendWithBody(conn, wording.storeRequest, req, blob.value.1);
      if !sent {
        return false;
      }
      var resp := Codec.ReadMessage(conn.input, wording.storeResponse);
      if resp.Failure? {
        conn.reset := true;
        return false;
      }
      return resp.value.ok;
    }

    /** sendReadable: the request, the plaintext, and the version the peer says it created. */
    method SendReadable(conn: Conn, srcKey: string, versionID: string, destKey: string, message: string)
      returns (placed: Option<(string, int)>)
      requires IsDigest(store.cfg.sha)
      modifies conn, conn.input, conn.output
      ensures match DiskReadPlain(store.cfg, store.fs.disk, Site(nodeID, srcKey), versionID)
              case Failure(_) => placed == None && conn.output.sent == old(conn.output.sent)
              case Success((size, plain)) =>
                var req := ShareRequest(destKey, message, size);
                var resp := Codec.Parse(wording.shareResponse, old(conn.input.rest)).0;
                if |wording.shareRequest.encode(req)| <= Codec.MAX_HEADER_BYTES
                then conn.output.sent == old(conn.output.sent) + (Codec.Frame(wording.shareRequest.encode(req)) + plain)
                     && placed == if resp.Success?
                         && resp.value.ok then Some((resp.value.versionID, resp.value.number)) else None
                else conn.output.sent == old(conn.output.sent) && placed == None
    {
      var file := store.ReadVersion(Site(nodeID, srcKey), versionID);
      if file.Failure? {
        return None;
      }
      var sent := SendWithBody(conn, wording.shareRequest, ShareRequest(destKey, message, file.value.0), file.value.1);
      if !sent {
        return None;
      }
      var resp := Codec.ReadMessage(conn.input, wording.shareResponse);
      if resp.Failure? {
        conn.reset := true;
        return None;
      }
      if !resp.value.ok {
        return None;
      }
      return Some((resp.value.versionID, resp.value.number));
    }

    /** fetchBlob, on a stream that is open. */
    method FetchBlob(conn: Conn, key: string, versionID: string) returns (found: bool)
      requires IsDigest(store.cfg.sha)
      modifies conn, conn.input, conn.output, store.fs
      ensures var req := GetRequest(nodeID, key, versionID);
              && Delivered(wording.getRequest, req, old(conn.output.sent), conn.output.sent, conn.reset)
              && (store.fs.disk, found) ==
                 DiskFetch(store.cfg, Site(nodeID, key),
                           PeerAnswer(wording, req,
                                      Remote(true, old(conn.input.rest), conn.input.clean)), old(store.fs.disk))
    {
      var req := GetRequest(nodeID, key, versionID);
      var sent := Codec.WriteMessage(conn.output, wording.getRequest, req);
      if !sent {
        conn.reset := true;
        return false;
      }
      var resp := Codec.ReadMessage(conn.input, wording.getResponse);
      if resp.Failure? {
        conn.reset := true;
        return false;
      }
      if !resp.value.found {
        return false;
      }
      if resp.value.meta.None? || resp.value.meta.value.blobBytes < 0 {
        conn.reset := true;
        return false;
      }
      var meta := resp.value.meta.value;
      var body := new Store.Body.Promised(conn.input, meta.blobBytes);
      var failed := store.WriteVersionRaw(Site(nodeID, key), EntryFromMeta(meta), body);
      if failed.Some? {
        conn.reset := true;
        return false;
      }
      if body.n != meta.blobBytes {
        var _ := store.DeleteVersion(Site(nodeID, key), meta.versionID);
        conn.reset := true;
        return false;
      }
      return true;
    }

    /** GetVersion: locally if possible, else from the first connected peer that supplies it. */
    method GetVersion(key: string, versionID: string, peers: seq<Remote>) returns (r: Result<(int, Bytes)>)
      requires IsDigest(store.cfg.sha)
      modifies store.fs
      ensures (store.fs.disk, r) ==
              DiskGet(store.cfg, Site(nodeID, key), versionID,
                      PeerAnswers(wording, GetRequest(nodeID, key, versionID), peers), old(store.fs.disk))
    {
      var s := Site(nodeID, key);
      var has := store.Has(s);
      if has {
        var local := store.ReadVersion(s, versionID);
        if local.Success? {
          return local;
        }
      }
      ghost var answers := PeerAnswers(wording, GetRequest(nodeID, key, versionID), peers);
      ghost var d := store.fs.disk;
      var i := 0;
      while i < |peers|
        modifies store.fs
        invariant 0 <= i <= |peers|
        invariant DiskFetchFrom(store.cfg, s, answers, d) == DiskFetchFrom(store.cfg, s, answers[i..], store.fs.disk)
      {
        var found := false;
        assert answers[i..][0] == PeerAnswer(wording, GetRequest(nodeID, key, versionID), peers[i]);
        assert answers[i..][1..] == answers[i + 1..];
        if peers[i].opens {
          var conn := new Conn(peers[i].arriving, peers[i].clean);
          found := FetchBlob(conn, key, versionID);
          assert PeerAnswer(wording, GetRequest(nodeID, key, versionID),
                            Remote(true, peers[i].arriving, peers[i].clean)) == answers[i..][0];
        }
        if found {
          r := store.ReadVersion(s, versionID);
          return;
        }
        i := i + 1;
      }
      return Failure(NoPeerHolds);
    }
  }
}
