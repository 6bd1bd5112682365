/**
 * What the hazards do, and runs in which each of them comes up: replica agreement cannot be had for all
 * runs. And a run without any in which a confirmed copy is lost.
 */
module Hazards {
  import opened Base
  import opened Versions
  import opened Layout
  import opened Histories
  import opened Transfers
  import opened Protocol
  import opened Agreement
  import Aes

  // ---- Consequences ----

  /** Storing a whole transfer and confirming it, as the world sees it. */
  lemma ReceiptChanges(net: Net, w: World, t: Transfer, w1: World, win: Window, w2: World)
    requires t in w.wires && w1 == Next(net, w, Receive(t, |t.bytes|))
    requires win == Window(Place(t.to, t.site), t.entry, t.bytes, |t.bytes|, |t.bytes|, None) && win in w1.windows
    requires w2 == Next(net, w1, Check(win))
    ensures LogAt(w2, Place(t.to, t.site)) ==
            Do(net, Place(t.to, t.site), WriteRaw(t.site, t.entry, t.bytes, true), LogAt(w, Place(t.to, t.site)))
    ensures Ack(Place(t.to, t.site), t.entry, t.bytes, None) in w2.acks && w2.windows == w.windows
  {
    assert Prefix(t.bytes, |t.bytes|) == t.bytes;
    assert w1.windows == w.windows + multiset{win};
    assert w2.windows == w1.windows - multiset{win} && w2.logs == w1.logs;
    AddedThenRemoved(w.windows, win);
  }

  lemma AddedThenRemoved(windows: multiset<Window>, win: Window)
    ensures windows + multiset{win} - multiset{win} == windows
  {
  }

  /** A transfer received whole and confirmed: its bytes are now the receiver's copy. */
  lemma WholeReceipt(net: Net, w: World, t: Transfer, w1: World, win: Window, w2: World)
    requires t in w.wires && t.entry.versionID != "" && WellFormed(LogAt(w, Place(t.to, t.site)), net.max(t.to))
    requires w1 == Next(net, w, Receive(t, |t.bytes|))
    requires win == Window(Place(t.to, t.site), t.entry, t.bytes, |t.bytes|, |t.bytes|, None) && win in w1.windows
    requires w2 == Next(net, w1, Check(win))
    ensures ReadRaw(LogAt(w2, Place(t.to, t.site)), t.entry.versionID) == Success((t.entry, t.bytes))
    ensures Ack(Place(t.to, t.site), t.entry, t.bytes, None) in w2.acks && w2.windows == w.windows
  {
    ReceiptChanges(net, w, t, w1, win, w2);
    StoredFrom(net, Place(t.to, t.site), LogAt(w, Place(t.to, t.site)), t.entry, t.bytes,
               LogAt(w2, Place(t.to, t.site)));
  }

  lemma StoredFrom(net: Net, p: Place, h: History, entry: VersionEntry, bytes: Bytes, h': History)
    requires entry.versionID != "" && WellFormed(h, net.max(p.holder))
    requires h' == Do(net, p, WriteRaw(p.site, entry, bytes, true), h)
    ensures ReadRaw(h', entry.versionID) == ReadRaw(h', "") == Success((entry, bytes))
  {
    StoredIsRead(CipherOf(net, p), net.max(p.holder), WriteRaw(p.site, entry, bytes, true), h);
  }

  /**
   * A blob read between another receiver's short write and its undoing is accepted as whole: the origin
   * reports success and now keeps a strict beginning of its own version, with nobody about to undo it.
   */
  lemma ShortCopySpreads(net: Net, trail: Trail, g: Glimpse, w: World, t: Transfer, w1: World, w2: World, win: Window,
                         w3: World)
    requires Safe(net, trail) && w == After(net, trail) && Enabled(net, w, Serve(g)) && g.asked != ""
    requires var (entry, bytes) := ReadRaw(LogAt(w, g.place), g.asked).value;
             !FullLength(entry, bytes) && t == Transfer(g.place.site.node, g.place.site, g.entry, bytes)
    requires w1 == Next(net, w, Serve(g)) && w2 == Next(net, w1, Receive(t, |t.bytes|))
    requires win == Window(Own(t.site), t.entry, t.bytes, |t.bytes|, |t.bytes|, None) && win in w2.windows
    requires w3 == Next(net, w2, Check(win))
    ensures Name(t.site, g.asked) in w.made
    ensures var m := w.made[Name(t.site, g.asked)];
            && t.bytes < m.raw && Ack(Own(t.site), m.entry, t.bytes, None) in w3.acks
            && ReadRaw(LogAt(w3, Own(t.site)), g.asked) == Success((m.entry, t.bytes))
    ensures w3.windows == w.windows
  {
    SafeTrailsAgree(net, trail);
    ReadIsListed(LogAt(w, g.place), g.asked);
    ReadBegins(net, w, g.place, g.asked);
    var (entry, bytes) := ReadRaw(LogAt(w, g.place), g.asked).value;
    FullIsGenuine(net, w.made, t.site, entry, bytes);
    assert Begins(w.made, g.place.site, g.entry, []);
    assert LogGood(net, w.made, w.windows, Own(t.site), LogAt(w, Own(t.site)));
    WholeReceipt(net, w1, t, w2, win, w3);
  }

  lemma TornIsRead(h: History, entry: VersionEntry, part: Bytes)
    requires Unique(h.versions) && entry in h.versions && entry.versionID != ""
    ensures ReadRaw(Torn(h, entry.versionID, part), entry.versionID) == Success((entry, part))
  {
    FindsItself(h.versions, entry);
  }

  /** A transfer that breaks off while it overwrites a listed version leaves its first bytes as the listed blob. */
  lemma TornCopyStays(net: Net, w: World, t: Transfer, n: nat, h: History, w1: World)
    requires Agreed(net, w) && Enabled(net, w, Abort(t, n)) && Hazard(w, Abort(t, n))
    requires h == LogAt(w, Place(t.to, t.site))
    requires w1 == Next(net, w, Abort(t, n))
    ensures var p := Place(t.to, t.site);
            && n < |t.bytes| && Genuine(w.made, t.site, t.entry, t.bytes)
            && ReadRaw(LogAt(w1, p), t.entry.versionID) == Success((t.entry, t.bytes[..n]))
            && !Unsettled(w1.windows, p, t.entry.versionID)
  {
    var p, id := Place(t.to, t.site), t.entry.versionID;
    assert LogGood(net, w.made, w.windows, p, h);
    assert Genuine(w.made, t.site, t.entry, t.bytes);
    var e :| e in h.versions && e.versionID == id;
    assert Begins(w.made, p.site, e, h.blobs[id]);
    TornIsRead(h, t.entry, t.bytes[..n]);
    assert LogAt(w1, p) == Torn(h, id, t.bytes[..n]);
  }

  /** When the latest has changed since it was looked up, one version's metadata travels with another's blob. */
  lemma LatestMixedUp(net: Net, trail: Trail, g: Glimpse, w: World, w1: World)
    requires Safe(net, trail) && w == After(net, trail) && Enabled(net, w, Serve(g)) && g.asked == ""
    requires ReadRaw(LogAt(w, g.place), "").value.0.versionID != g.entry.versionID
    requires w1 == Next(net, w, Serve(g))
    ensures var bytes := ReadRaw(LogAt(w, g.place), "").value.1;
            && Name(g.place.site, g.entry.versionID) in w.made
                && Transfer(g.place.site.node, g.place.site, g.entry, bytes) in w1.wires
            && bytes != w.made[Name(g.place.site, g.entry.versionID)].raw
  {
    SafeTrailsAgree(net, trail);
    var (entry, bytes) := ReadRaw(LogAt(w, g.place), "").value;
    ReadBegins(net, w, g.place, "");
    assert Begins(w.made, g.place.site, g.entry, []);
    NoMixUp(net, w.made, Name(g.place.site, g.entry.versionID), Name(g.place.site, entry.versionID), bytes);
  }

  // ---- Runs in which they happen ----

  lemma CreatedIsThere(net: Net, w: World, s: Site, id: string, iv: Bytes, w1: World)
    requires Agreed(net, w) && NewlyDrawn(w, id, iv) && w1 == Next(net, w, Create(s, id, 0, "", [], iv))
    ensures Name(s, id) in w1.made
    ensures var m := w1.made[Name(s, id)];
            ReadRaw(LogAt(w1, Own(s)), id) == Success((m.entry, m.raw)) && FullLength(m.entry, m.raw)
                && |m.raw| == Aes.HEADER_SIZE
  {
    var op := Write(s, id, 0, "", [], iv, true);
    OwnLogIsFresh(net, w, op);
    StoredIsRead(CipherOf(net, Own(s)), net.max(s.node), op, LogAt(w, Own(s)));
    Aes.SealLength(net.keystream(s.node), iv, []);
  }

  /** What creating a version changes besides the creator's own log. */
  lemma CreateChanges(net: Net, w: World, s: Site, id: string, iv: Bytes, w1: World)
    requires Enabled(net, w, Create(s, id, 0, "", [], iv)) && w1 == Next(net, w, Create(s, id, 0, "", [], iv))
    ensures w1.windows == w.windows && w1.glimpses == w.glimpses && w1.wires == w.wires
    ensures Name(s, id) in w1.made && w1.made == w.made[Name(s, id) := w1.made[Name(s, id)]]
    ensures w1.made[Name(s, id)].iv == iv && w1.made[Name(s, id)].entry.versionID == id
    ensures forall p :: p != Own(s) ==> LogAt(w1, p) == LogAt(w, p)
  {
  }

  lemma SendChanges(net: Net, w: World, s: Site, to: string, m: Made, w1: World)
    requires Name(s, m.entry.versionID) in w.made && w.made[Name(s, m.entry.versionID)] == m && m.entry.versionID != ""
    requires to != s.node
    requires ReadRaw(LogAt(w, Own(s)), m.entry.versionID) == Success((m.entry, m.raw))
    requires w1 == Next(net, w, SendBlob(s, to, m.entry.versionID))
    ensures w1 == w.(wires := w.wires + {Transfer(to, s, m.entry, m.raw)})
  {
  }

  /** Nobody deletes anything in the run. */
  predicate NoDeletes(trail: Trail) {
    match trail
    case Begin => true
    case Then(before, a) => NoDeletes(before) && !a.Drop? && !a.DropEverything?
  }

  lemma Creation(net: Net, trail: Trail, s: Site, id: string, iv: Bytes) returns (longer: Trail, m: Made)
    requires Safe(net, trail) && NewlyDrawn(After(net, trail), id, iv)
    ensures Safe(net, longer)
    ensures After(net, longer).made == After(net, trail).made[Name(s, id) := m] && m.iv == iv && m.entry.versionID == id
    ensures ReadRaw(LogAt(After(net, longer), Own(s)), id) == Success((m.entry, m.raw))
    ensures FullLength(m.entry, m.raw) && |m.raw| == Aes.HEADER_SIZE
    ensures After(net, longer).windows == After(net, trail).windows
            && After(net, longer).glimpses == After(net, trail).glimpses
    ensures forall p :: p != Own(s) ==> LogAt(After(net, longer), p) == LogAt(After(net, trail), p)
    ensures NoDeletes(trail) ==> NoDeletes(longer)
  {
    SafeTrailsAgree(net, trail);
    longer := Then(trail, Create(s, id, 0, "", [], iv));
    CreatedIsThere(net, After(net, trail), s, id, iv, After(net, longer));
    CreateChanges(net, After(net, trail), s, id, iv, After(net, longer));
    m := After(net, longer).made[Name(s, id)];
  }

  /** An origin creates an empty version and takes its blob to send it to a peer. */
  lemma Sending(net: Net, trail: Trail, s: Site, to: string, id: string, iv: Bytes) returns (longer: Trail, t: Transfer)
    requires Safe(net, trail) && NewlyDrawn(After(net, trail), id, iv) && to != s.node
    ensures Safe(net, longer)
    ensures t in After(net, longer).wires && t.to == to && t.site == s && t.entry.versionID == id
    ensures FullLength(t.entry, t.bytes) && |t.bytes| == Aes.HEADER_SIZE
    ensures After(net, longer).windows == After(net, trail).windows
            && After(net, longer).glimpses == After(net, trail).glimpses
    ensures exists m :: After(net, longer).made == After(net, trail).made[Name(s, id) := m] && m.iv == iv
    ensures forall p :: p != Own(s) ==> LogAt(After(net, longer), p) == LogAt(After(net, trail), p)
    ensures NoDeletes(trail) ==> NoDeletes(longer)
  {
    var created, m := Creation(net, trail, s, id, iv);
    longer, t := Then(created, SendBlob(s, to, id)), Transfer(to, s, m.entry, m.raw);
    SendChanges(net, After(net, created), s, to, m, After(net, longer));
  }

  /** What of it arrives is stored. */
  lemma Storing(net: Net, trail: Trail, t: Transfer, n: nat) returns (longer: Trail)
    requires Safe(net, trail) && t in After(net, trail).wires && t.entry.versionID != ""
    ensures longer == Then(trail, Receive(t, n)) && Safe(net, longer)
    ensures var w, w', p := After(net, trail), After(net, longer), Place(t.to, t.site);
            && w'.windows == w.windows + multiset{BlobWindow(t, n)}
            && w'.glimpses == w.glimpses && w'.made == w.made && w'.wires == w.wires
            && ReadRaw(LogAt(w', p), "") == Success((t.entry, Prefix(t.bytes, n)))
            && ReadRaw(LogAt(w', p), t.entry.versionID) == ReadRaw(LogAt(w', p), "")
  {
    longer := Then(trail, Receive(t, n));
    SafeTrailsAgree(net, trail);
    var w, p := After(net, trail), Place(t.to, t.site);
    assert LogGood(net, w.made, w.windows, p, LogAt(w, p));
    StoredFrom(net, p, LogAt(w, p), t.entry, Prefix(t.bytes, n), LogAt(After(net, longer), p));
  }

  const FILE := Site("origin", "file")

  /** Reading a copy in the window of a short transfer. */
  lemma ShortReadHappens(net: Net, iv: Bytes) returns (trail: Trail, g: Glimpse)
    requires |iv| == Aes.IV_SIZE
    ensures Safe(net, trail) && Enabled(net, After(net, trail), Serve(g))
    ensures g.asked != "" && !Agreed(net, Next(net, After(net, trail), Serve(g)))
  {
    var sent, t := Sending(net, Begin, FILE, "peer", "v", iv);
    var stored := Storing(net, sent, t, 0);
    var p := Place("peer", FILE);
    trail, g := Then(stored, LookUp(p, "v")), Glimpse(p, "v", t.entry);
    assert Prefix(t.bytes, 0) == [];
    SafeTrailsAgree(net, trail);
    StepKeepsAgreementIff(net, After(net, trail), Serve(g));
  }

  /** A second transfer of a version already stored breaks off. */
  lemma TornCopyHappens(net: Net, iv: Bytes) returns (trail: Trail, t: Transfer)
    requires |iv| == Aes.IV_SIZE
    ensures Safe(net, trail) && Enabled(net, After(net, trail), Abort(t, 0))
    ensures !Agreed(net, Next(net, After(net, trail), Abort(t, 0)))
  {
    var sent: Trail;
    sent, t := Sending(net, Begin, FILE, "peer", "v", iv);
    trail := Storing(net, sent, t, |t.bytes|);
    ReadIsListed(LogAt(After(net, trail), Place("peer", FILE)), "v");
    SafeTrailsAgree(net, trail);
    StepKeepsAgreementIff(net, After(net, trail), Abort(t, 0));
  }

  /** The latest changes between the two lookups of one request. */
  lemma LatestMixUpHappens(net: Net, iv: Bytes, iv': Bytes) returns (trail: Trail, g: Glimpse)
    requires |iv| == |iv'| == Aes.IV_SIZE && iv != iv'
    ensures Safe(net, trail) && Enabled(net, After(net, trail), Serve(g))
    ensures g.asked == "" && !Agreed(net, Next(net, After(net, trail), Serve(g)))
  {
    var sent, t := Sending(net, Begin, FILE, "peer", "v", iv);
    var stored := Storing(net, sent, t, |t.bytes|);
    var p := Place("peer", FILE);
    var asked := Then(stored, LookUp(p, ""));
    g := Glimpse(p, "", t.entry);
    var sent', t' := Sending(net, asked, FILE, "peer", "w", iv');
    trail := Storing(net, sent', t', |t'.bytes|);
    SafeTrailsAgree(net, trail);
    StepKeepsAgreementIff(net, After(net, trail), Serve(g));
  }

  // ---- A confirmed copy that goes ----

  lemma Confirming(net: Net, trail: Trail, win: Window) returns (longer: Trail)
    requires Safe(net, trail) && win in After(net, trail).windows && !Short(win)
    ensures longer == Then(trail, Check(win)) && Safe(net, longer)
    ensures Ack(win.place, win.entry, win.stored, win.source) in After(net, longer).acks
    ensures After(net, longer).windows == After(net, trail).windows - multiset{win}
  {
    longer := Then(trail, Check(win));
  }

  lemma Undoing(net: Net, trail: Trail, win: Window) returns (longer: Trail)
    requires Safe(net, trail) && win in After(net, trail).windows && Short(win)
    ensures longer == Then(trail, Check(win)) && Safe(net, longer)
    ensures After(net, longer).acks == After(net, trail).acks
    ensures win.entry.versionID !in Ids(LogAt(After(net, longer), win.place).versions)
  {
    longer := Then(trail, Check(win));
    SafeTrailsAgree(net, trail);
    var w, p := After(net, trail), win.place;
    assert LogGood(net, w.made, w.windows, p, LogAt(w, p));
    DropUnlists(CipherOf(net, p), net.max(p.holder), p.site, LogAt(w, p), win.entry.versionID);
  }

  lemma OthersRemain(windows: multiset<Window>, win: Window, other: Window)
    requires other in windows && other != win
    ensures other in windows - multiset{win}
  {
  }

  /** Nothing of a transfer arrives, then a second one of the same blob arrives whole; neither has been checked. */
  lemma Crossing(net: Net, trail: Trail, t: Transfer) returns (longer: Trail)
    requires Safe(net, trail) && NoDeletes(trail) && t in After(net, trail).wires && t.entry.versionID != ""
    ensures Safe(net, longer) && NoDeletes(longer)
    ensures BlobWindow(t, 0) in After(net, longer).windows && BlobWindow(t, |t.bytes|) in After(net, longer).windows
  {
    var short := Storing(net, trail, t, 0);
    longer := Storing(net, short, t, |t.bytes|);
  }

  /**
   * Without any hazard, delete or retention: two transfers of one version to the same node cross, the one that
   * arrives whole is confirmed, and the undo of the other, which fell short, takes the confirmed copy off the list.
   */
  lemma ConfirmedCopyGoes(net: Net, iv: Bytes) returns (trail: Trail, k: Ack)
    requires |iv| == Aes.IV_SIZE
    ensures Safe(net, trail) && NoDeletes(trail) && k in After(net, trail).acks
    ensures k.entry.versionID !in Ids(LogAt(After(net, trail), k.place).versions)
  {
    var sent, t := Sending(net, Begin, FILE, "peer", "v", iv);
    var short, whole := BlobWindow(t, 0), BlobWindow(t, |t.bytes|);
    var crossed := Crossing(net, sent, t);
    var confirmed := Confirming(net, crossed, whole);
    OthersRemain(After(net, crossed).windows, whole, short);
    trail := Undoing(net, confirmed, short);
    k := Ack(whole.place, whole.entry, whole.stored, whole.source);
  }
}
