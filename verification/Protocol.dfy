/**
 * internal/server as a state machine over many nodes. A step is what happens under one acquisition of a
 * key lock: handlers let go of the lock between storing a blob and checking how much of it arrived.
 */
module Protocol {
  import opened Base
  import opened Versions
  import opened Layout
  import opened Histories
  import Aes

  /** What the nodes are set up with: the key each encrypts under and its retention limit. */
  datatype Net = Net(keystream: string -> Aes.Keystream, max: string -> int)

  /** The copies one node holds of one logical file of some origin, perhaps itself. */
  datatype Place = Place(holder: string, site: Site)

  /** What the origin produced when it created a version. */
  datatype Made = Made(entry: VersionEntry, plain: Bytes, iv: Bytes, raw: Bytes)

  /** A blob under way, with its metadata: what a reader took from its disk under the lock. */
  datatype Transfer = Transfer(to: string, site: Site, entry: VersionEntry, bytes: Bytes)

  /** A file being shared: plaintext under way to its new owner. `source` records which version was read. */
  datatype Share = Share(source: Name, to: string, key: string, message: string, size: nat, plain: Bytes)

  /** An answer to a request is looked up under one lock and its bytes are read under the next. */
  datatype Glimpse = Glimpse(place: Place, asked: string, entry: VersionEntry)

  /**
   * A receiver that has stored what arrived and has yet to compare it with what was promised. `source` is
   * the version shared, None for a blob transfer.
   */
  datatype Window =
    Window(place: Place, entry: VersionEntry, stored: Bytes, arrived: nat, promised: nat, source: Option<Name>)

  /** A receiver's confirmation, with the bytes its write had put on disk. */
  datatype Ack = Ack(place: Place, entry: VersionEntry, stored: Bytes, source: Option<Name>)

  datatype World = World(
    logs: map<Place, History>,
    made: map<Name, Made>,
    wires: set<Transfer>,
    shares: set<Share>,
    glimpses: set<Glimpse>,
    windows: multiset<Window>,
    acks: set<Ack>)

  const START := World(map[], map[], {}, {}, {}, multiset{}, {})

  datatype Action =
    | Create(site: Site, id: string, at: int, message: string, plain: Bytes, iv: Bytes)
    | SendBlob(site: Site, to: string, id: string)
    | LookUp(place: Place, id: string)
    | Serve(glimpse: Glimpse)
    | Receive(transfer: Transfer, arrived: nat)
    | Abort(transfer: Transfer, arrived: nat)
    | SendReadable(site: Site, id: string, to: string, key: string, message: string)
    | AcceptShare(share: Share, arrived: nat, id: string, at: int, iv: Bytes)
    | Check(window: Window)
    | Drop(place: Place, id: string)
    | DropEverything(place: Place)

  function LogAt(w: World, p: Place): History {
    if p in w.logs then w.logs[p] else EMPTY
  }

  function Own(s: Site): Place {
    Place(s.node, s)
  }

  function CipherOf(net: Net, p: Place): Cipher {
    Some(net.keystream(p.holder))
  }

  function Do(net: Net, p: Place, op: Op, h: History): History {
    Step(CipherOf(net, p), net.max(p.holder), op, h)
  }

  function Logged(net: Net, w: World, p: Place, op: Op): map<Place, History> {
    w.logs[p := Do(net, p, op, LogAt(w, p))]
  }

  function Put(t: Transfer, arrived: nat, clean: bool): Op {
    WriteRaw(t.site, t.entry, Prefix(t.bytes, arrived), clean)
  }

  /** What a receiver of a blob must still check once it has stored what arrived. */
  function BlobWindow(t: Transfer, arrived: nat): Window {
    Window(Place(t.to, t.site), t.entry, Prefix(t.bytes, arrived), Min(arrived, |t.bytes|), |t.bytes|, None)
  }

  function Minted(net: Net, w: World, s: Site, id: string, at: int, message: string, plain: Bytes, iv: Bytes): Made {
    var op := Write(s, id, at, message, plain, iv, true);
    Made(NewEntry(op, LogAt(w, Own(s)).versions), plain, iv, Aes.Seal(net.keystream(s.node), iv, plain))
  }

  function Creating(net: Net, w: World, s: Site, id: string, at: int, message: string, plain: Bytes, iv: Bytes): World {
    var op := Write(s, id, at, message, plain, iv, true);
    w.(logs := Logged(net, w, Own(s), op), made := w.made[Name(s, id) := Minted(net, w, s, id, at, message, plain, iv)])
  }

  /** Version identities and IVs are drawn at random and never drawn twice. */
  ghost predicate NewlyDrawn(w: World, id: string, iv: Bytes) {
    && id != "" && |iv| == Aes.IV_SIZE
    && forall n <- w.made :: n.id != id && w.made[n].iv != iv
  }

  ghost predicate Enabled(net: Net, w: World, a: Action) {
    match a
    case Create(_, id, _, _, _, iv) => NewlyDrawn(w, id, iv)
    case SendBlob(s, to, id) =>
      to != s.node && id != "" && Name(s, id) in w.made && ReadRaw(LogAt(w, Own(s)), id).Success?
    case LookUp(p, id) => p.holder != p.site.node && Resolve(LogAt(w, p).versions, LogAt(w, p).latest, id).Success?
    case Serve(g) => g in w.glimpses && ReadRaw(LogAt(w, g.place), g.asked).Success?
    case Receive(t, _) => t in w.wires
    case Abort(t, _) => t in w.wires
    case SendReadable(s, id, to, _, _) =>
      to != s.node && ReadPlain(CipherOf(net, Own(s)), LogAt(w, Own(s)), id).Success?
    case AcceptShare(share, _, id, _, iv) => share in w.shares && NewlyDrawn(w, id, iv)
    case Check(win) => win in w.windows
    case Drop(_, _) => true
    case DropEverything(_) => true
  }

  function Next(net: Net, w: World, a: Action): World
    requires Enabled(net, w, a)
  {
    match a
    // WriteVersion in the node's own namespace
    case Create(s, id, at, message, plain, iv) => Creating(net, w, s, id, at, message, plain, iv)
    // sendBlob: the entry its WriteVersion returned, the bytes as they are on disk
    case SendBlob(s, to, id) =>
      w.(wires := w.wires + {Transfer(to, s, w.made[Name(s, id)].entry, ReadRaw(LogAt(w, Own(s)), id).value.1)})
    // handleGet, asked by the origin for a version or for the latest: VersionInfo, then ReadVersionRaw
    case LookUp(p, id) =>
      w.(glimpses := w.glimpses + {Glimpse(p, id, Resolve(LogAt(w, p).versions, LogAt(w, p).latest, id).value)})
    case Serve(g) =>
      var (_, bytes) := ReadRaw(LogAt(w, g.place), g.asked).value;
      w.(wires := w.wires + {Transfer(g.place.site.node, g.place.site, g.entry, bytes)})
    // the WriteVersionRaw of handleStore and of fetchBlob
    case Receive(t, arrived) =>
      var p := Place(t.to, t.site);
      w.(logs := Logged(net, w, p, Put(t, arrived, true)),
         windows := w.windows + multiset{BlobWindow(t, arrived)})
    case Abort(t, arrived) =>
      w.(logs := Logged(net, w, Place(t.to, t.site), Put(t, arrived, false)))
    // sendReadable: the size the index records, the plaintext read
    case SendReadable(s, id, to, key, message) =>
      var (size, plain) := ReadPlain(CipherOf(net, Own(s)), LogAt(w, Own(s)), id).value;
      var source := Name(s, ReadRaw(LogAt(w, Own(s)), id).value.0.versionID);
      w.(shares := w.shares + {Share(source, to, key, message, if size < 0 then 0 else size, plain)})
    // the WriteVersion of handleShare
    case AcceptShare(share, n, id, at, iv) =>
      var s := Site(share.to, share.key);
      var arrived := Prefix(Prefix(share.plain, share.size), n);
      var w' := Creating(net, w, s, id, at, share.message, arrived, iv);
      var minted := w'.made[Name(s, id)];
      w'.(windows := w.windows + multiset{Window(Own(s), minted.entry, minted.raw, |arrived|, share.size,
                                                 Some(share.source))})
    // what each receiver does next: undo a short transfer, or answer OK
    case Check(win) =>
      if win.arrived != win.promised
      then w.(logs := Logged(net, w, win.place, DropVersion(win.place.site, win.entry.versionID)),
              windows := w.windows - multiset{win})
      else w.(acks := w.acks + {Ack(win.place, win.entry, win.stored, win.source)},
              windows := w.windows - multiset{win})
    case Drop(p, id) => w.(logs := Logged(net, w, p, DropVersion(p.site, id)))
    case DropEverything(p) => w.(logs := Logged(net, w, p, DropAll(p.site)))
  }

  /** The store operation a step carries out, and in whose copies of which file. */
  ghost function OpOf(w: World, a: Action): Option<(Place, Op)> {
    match a
    case Create(s, id, at, message, plain, iv) => Some((Own(s), Write(s, id, at, message, plain, iv, true)))
    case Receive(t, arrived) => Some((Place(t.to, t.site), Put(t, arrived, true)))
    case Abort(t, arrived) => Some((Place(t.to, t.site), Put(t, arrived, false)))
    case AcceptShare(share, n, id, at, iv) =>
      var s := Site(share.to, share.key);
      Some((Own(s), Write(s, id, at, share.message, Prefix(Prefix(share.plain, share.size), n), iv, true)))
    case Check(win) => if Short(win) then Some((win.place, DropVersion(win.place.site, win.entry.versionID))) else None
    case Drop(p, id) => Some((p, DropVersion(p.site, id)))
    case DropEverything(p) => Some((p, DropAll(p.site)))
    case _ => None
  }

  lemma StepIsOp(net: Net, w: World, a: Action, w': World)
    requires Enabled(net, w, a) && w' == Next(net, w, a)
    ensures match OpOf(w, a)
            case None => w'.logs == w.logs
            case Some((p, op)) => op.site == p.site && w'.logs == w.logs[p := Do(net, p, op, LogAt(w, p))]
  {
  }

  // ---- What holds in every reachable state ----

  ghost predicate MadeOK(net: Net, made: map<Name, Made>) {
    && (forall n <- made ::
          && n.id != "" && made[n].entry.versionID == n.id
          && |made[n].iv| == Aes.IV_SIZE && made[n].entry.sizeBytes == |made[n].plain|
          && made[n].raw == Aes.Seal(net.keystream(n.site.node), made[n].iv, made[n].plain))
    && (forall m, n :: m in made && n in made && m != n ==> m.id != n.id && made[m].iv != made[n].iv)
  }

  /** Metadata is exactly the origin's and the bytes are the beginning of the origin's. */
  ghost predicate Begins(made: map<Name, Made>, s: Site, entry: VersionEntry, bytes: Bytes) {
    && Name(s, entry.versionID) in made
    && made[Name(s, entry.versionID)].entry == entry
    && bytes <= made[Name(s, entry.versionID)].raw
  }

  /** Metadata and bytes are exactly the origin's. */
  ghost predicate Genuine(made: map<Name, Made>, s: Site, entry: VersionEntry, bytes: Bytes) {
    && Begins(made, s, entry, bytes)
    && bytes == made[Name(s, entry.versionID)].raw
  }

  ghost predicate LogOK(net: Net, made: map<Name, Made>, p: Place, h: History) {
    WellFormed(h, net.max(p.holder)) && Complete(h) && Copies(made, p.site, h)
  }

  ghost predicate Short(win: Window) {
    win.arrived != win.promised
  }

  /** A receiver of this version is between storing a short transfer and undoing it. */
  ghost predicate Unsettled(windows: multiset<Window>, p: Place, id: string) {
    exists win :: win in windows && win.place == p && win.entry.versionID == id && Short(win)
  }

  ghost predicate EntrySettled(made: map<Name, Made>, windows: multiset<Window>, p: Place, h: History,
                               e: VersionEntry) {
    Unsettled(windows, p, e.versionID) || (e.versionID in h.blobs && Genuine(made, p.site, e, h.blobs[e.versionID]))
  }

  /** A log holds what the origin made, cut short only where a receiver is about to undo it. */
  ghost predicate LogGood(net: Net, made: map<Name, Made>, windows: multiset<Window>, p: Place, h: History) {
    && LogOK(net, made, p, h)
    && forall e <- h.versions :: EntrySettled(made, windows, p, h, e)
  }

  ghost predicate LogsGood(net: Net, w: World) {
    forall p :: LogGood(net, w.made, w.windows, p, LogAt(w, p))
  }

  ghost predicate WindowOK(made: map<Name, Made>, win: Window) {
    && Begins(made, win.place.site, win.entry, win.stored)
    && (!Short(win) ==> Genuine(made, win.place.site, win.entry, win.stored))
  }

  ghost predicate WiresOK(made: map<Name, Made>, wires: set<Transfer>) {
    forall t <- wires :: Genuine(made, t.site, t.entry, t.bytes)
  }

  ghost predicate GlimpsesOK(made: map<Name, Made>, glimpses: set<Glimpse>) {
    forall g <- glimpses :: Begins(made, g.place.site, g.entry, []) && (g.asked != "" ==> g.entry.versionID == g.asked)
  }

  ghost predicate WindowsOK(made: map<Name, Made>, windows: multiset<Window>) {
    forall win :: win in windows ==> WindowOK(made, win)
  }

  ghost predicate AcksOK(made: map<Name, Made>, acks: set<Ack>) {
    forall k <- acks :: Genuine(made, k.place.site, k.entry, k.stored)
  }

  /**
   * The invariant: outside the windows of short transfers every copy anywhere is the origin's, every
   * blob under way is, and so was every blob that was acknowledged when its write returned.
   */
  ghost predicate Agreed(net: Net, w: World) {
    && MadeOK(net, w.made)
    && LogsGood(net, w)
    && WiresOK(w.made, w.wires)
    && GlimpsesOK(w.made, w.glimpses)
    && WindowsOK(w.made, w.windows)
    && AcksOK(w.made, w.acks)
  }

  /** A blob is all there exactly when it is as long as its metadata and the cipher's header say. */
  ghost predicate FullLength(entry: VersionEntry, bytes: Bytes) {
    |bytes| == entry.sizeBytes + Aes.HEADER_SIZE
  }

  /**
   * The steps that can spoil agreement, by what can be seen before they are taken: reading a blob that is
   * shorter than its metadata says, serving "latest" after the latest has changed since it was looked up,
   * and a transfer that fails half way while overwriting a listed version that nobody is about to undo.
   */
  ghost predicate Hazard(w: World, a: Action)
    requires a.Serve? ==> ReadRaw(LogAt(w, a.glimpse.place), a.glimpse.asked).Success?
    requires a.SendBlob? ==> ReadRaw(LogAt(w, Own(a.site)), a.id).Success?
  {
    match a
    case SendBlob(s, _, id) =>
      var (entry, bytes) := ReadRaw(LogAt(w, Own(s)), id).value;
      !FullLength(entry, bytes)
    case Serve(g) =>
      var (entry, bytes) := ReadRaw(LogAt(w, g.place), g.asked).value;
      !FullLength(entry, bytes) || (g.asked == "" && entry.versionID != g.entry.versionID)
    case Abort(t, arrived) =>
      var p := Place(t.to, t.site);
      arrived < |t.bytes| && t.entry.versionID in Ids(LogAt(w, p).versions)
          && !Unsettled(w.windows, p, t.entry.versionID)
    case _ => false
  }

  // ---- Lemmas about bytes ----

  lemma FullIsGenuine(net: Net, made: map<Name, Made>, s: Site, entry: VersionEntry, bytes: Bytes)
    requires MadeOK(net, made) && Begins(made, s, entry, bytes)
    ensures FullLength(entry, bytes) <==> Genuine(made, s, entry, bytes)
  {
    var m := made[Name(s, entry.versionID)];
    Aes.SealLength(net.keystream(s.node), m.iv, m.plain);
  }

  // ---- Lemmas about one log ----

  lemma ReadIsListed(h: History, id: string)
    requires ReadRaw(h, id).Success?
    ensures var (entry, bytes) := ReadRaw(h, id).value;
            entry in h.versions && entry.versionID in h.blobs && bytes == h.blobs[entry.versionID]
            && (id != "" ==> entry.versionID == id)
            && (id == "" ==> entry.versionID == h.latest)
  {
  }

  ghost predicate AfterSettling(h: History, versions: seq<VersionEntry>, entry: VersionEntry, blob: Bytes, r: History,
                                e: VersionEntry) {
    if e.versionID == entry.versionID then e == entry && e.versionID in r.blobs && r.blobs[e.versionID] == blob
    else
      && e in versions
      && (e.versionID in h.blobs ==> e.versionID in r.blobs && r.blobs[e.versionID] == h.blobs[e.versionID])
  }

  /** After a write settles, an entry is the one just written, with its blob, or one from before with its own. */
  lemma SettleEntries(h: History, max: int, versions: seq<VersionEntry>, entry: VersionEntry, blob: Bytes)
    requires Unique(versions) && entry in versions
    ensures var r := Settle(h, max, versions, entry.versionID, blob);
            forall e <- r.versions ::
              AfterSettling(h, versions, entry, blob, r, e)
  {
    var r := Settle(h, max, versions, entry.versionID, blob);
    forall e | e in r.versions
      ensures AfterSettling(h, versions, entry, blob, r, e)
    {
      assert e in versions;
      assert e.versionID in Ids(r.versions);
      FindsItself(versions, e);
      FindsItself(versions, entry);
    }
  }

  /** Every entry a log holds is the origin's, with a beginning of the origin's blob. */
  ghost predicate Copies(made: map<Name, Made>, s: Site, h: History) {
    forall e <- h.versions :: e.versionID in h.blobs && Begins(made, s, e, h.blobs[e.versionID])
  }

  lemma FromWriteCopies(made: map<Name, Made>, s: Site, h: History, h': History, entry: VersionEntry, blob: Bytes)
    requires Copies(made, s, h) && Begins(made, s, entry, blob)
    requires forall e <- h'.versions :: FromWrite(h, h', entry, blob, e)
    ensures Copies(made, s, h')
  {
    forall e | e in h'.versions ensures e.versionID in h'.blobs && Begins(made, s, e, h'.blobs[e.versionID]) {
      assert FromWrite(h, h', entry, blob, e);
    }
  }

  lemma RawWriteEntries(p: Place, c: Cipher, max: int, h: History, entry: VersionEntry, data: Bytes)
    requires Unique(h.versions) && (forall e <- h.versions :: e.versionID in h.blobs) && entry.versionID != ""
    ensures var h' := Step(c, max, WriteRaw(p.site, entry, data, true), h);
            forall e <- h'.versions :: FromWrite(h, h', entry, data, e)
  {
    var h' := Step(c, max, WriteRaw(p.site, entry, data, true), h);
    UpsertMeans(h.versions, entry);
    SettleEntries(h, max, Upsert(h.versions, entry), entry, data);
    forall e | e in h'.versions ensures FromWrite(h, h', entry, data, e) {
    }
  }

  lemma RawWriteKeepsLog(net: Net, made: map<Name, Made>, p: Place, h: History, entry: VersionEntry, data: Bytes)
    requires LogOK(net, made, p, h) && Begins(made, p.site, entry, data) && entry.versionID != ""
    ensures var h' := Do(net, p, WriteRaw(p.site, entry, data, true), h);
            LogOK(net, made, p, h') && forall e <- h'.versions :: FromWrite(h, h', entry, data, e)
  {
    var h' := Do(net, p, WriteRaw(p.site, entry, data, true), h);
    StepWellFormed(CipherOf(net, p), net.max(p.holder), WriteRaw(p.site, entry, data, true), h);
    RawWriteEntries(p, CipherOf(net, p), net.max(p.holder), h, entry, data);
    FromWriteCopies(made, p.site, h, h', entry, data);
  }

  /** An entry of a log after a write: the written one, or an older one with the blob it had. */
  ghost predicate FromWrite(h: History, h': History, entry: VersionEntry, blob: Bytes, e: VersionEntry) {
    && e.versionID in h'.blobs
    && if e.versionID == entry.versionID then e == entry && h'.blobs[e.versionID] == blob
       else e in h.versions && e.versionID in h.blobs && h'.blobs[e.versionID] == h.blobs[e.versionID]
  }

  lemma TornKeepsLog(net: Net, made: map<Name, Made>, p: Place, h: History, entry: VersionEntry, data: Bytes)
    requires LogOK(net, made, p, h) && Begins(made, p.site, entry, data) && entry.versionID != ""
    ensures LogOK(net, made, p, Do(net, p, WriteRaw(p.site, entry, data, false), h))
  {
    StepWellFormed(CipherOf(net, p), net.max(p.holder), WriteRaw(p.site, entry, data, false), h);
  }

  /** An entry that was there before, with the blob it had. */
  ghost predicate SameCopy(h: History, h': History, e: VersionEntry) {
    && e in h.versions
    && e.versionID in h.blobs && e.versionID in h'.blobs && h'.blobs[e.versionID] == h.blobs[e.versionID]
  }

  lemma DropKeepsLog(net: Net, made: map<Name, Made>, p: Place, h: History, id: string)
    requires LogOK(net, made, p, h)
    ensures var h' := Do(net, p, DropVersion(p.site, id), h);
            LogOK(net, made, p, h') && id !in Ids(h'.versions)
            && forall e <- h'.versions :: SameCopy(h, h', e)
  {
    StepWellFormed(CipherOf(net, p), net.max(p.holder), DropVersion(p.site, id), h);
    WithoutMeans(h.versions, id);
    WithoutKeeps(h.versions, id);
    var h' := Do(net, p, DropVersion(p.site, id), h);
    forall e | e in h'.versions ensures SameCopy(h, h', e) {
      assert e.versionID in Ids(h'.versions);
    }
  }

  lemma CreateEntries(c: Cipher, max: int, h: History, op: Op)
    requires op.Write? && op.clean && Unique(h.versions)
    requires forall e <- h.versions :: e.versionID in h.blobs && e.versionID != op.id
    ensures var h' := Step(c, max, op, h);
            forall e <- h'.versions :: FromWrite(h, h', NewEntry(op, h.versions), Encoded(c, op.iv, op.plain), e)
  {
    var entry, raw, h' := NewEntry(op, h.versions), Encoded(c, op.iv, op.plain), Step(c, max, op, h);
    AppendMeans(h.versions, entry);
    assert entry in h.versions + [entry];
    SettleEntries(h, max, h.versions + [entry], entry, raw);
    forall e | e in h'.versions ensures FromWrite(h, h', entry, raw, e) {
      assert e in h.versions || e == entry;
    }
  }

  lemma CreateKeepsLog(net: Net, made: map<Name, Made>, p: Place, h: History, op: Op)
    requires p == Own(p.site) && LogOK(net, made, p, h) && op.Write? && op.clean && op.site == p.site && op.id != ""
    requires forall n <- made :: n.id != op.id
    ensures var m := Made(NewEntry(op, h.versions), op.plain, op.iv,
                          Aes.Seal(net.keystream(p.site.node), op.iv, op.plain));
            var h' := Do(net, p, op, h);
            LogOK(net, made[Name(p.site, op.id) := m], p, h')
                && forall e <- h'.versions :: FromWrite(h, h', m.entry, m.raw, e)
  {
    var m := Made(NewEntry(op, h.versions), op.plain, op.iv, Aes.Seal(net.keystream(p.site.node), op.iv, op.plain));
    var made', h' := made[Name(p.site, op.id) := m], Do(net, p, op, h);
    forall e | e in h.versions ensures e.versionID != op.id && Begins(made', p.site, e, h.blobs[e.versionID]) {
      assert Begins(made, p.site, e, h.blobs[e.versionID]);
    }
    StepWellFormed(CipherOf(net, p), net.max(p.holder), op, h);
    CreateEntries(CipherOf(net, p), net.max(p.holder), h, op);
    FromWriteCopies(made', p.site, h, h', m.entry, m.raw);
  }
}
