/** Sharing: a readable file changes hands and becomes a version its new owner can read. */
module Handover {
  import opened Base
  import opened Versions
  import opened Layout
  import opened Histories
  import opened Transfers
  import opened Laws
  import opened Protocol
  import opened Agreement
  import opened Consistency
  import opened Recovery
  import Aes

  /** Where a share is filed: the recipient's own namespace. */
  function Recipient(share: Share): Place {
    Own(Site(share.to, share.key))
  }

  /** The recipient's write of what arrives within the announced size. */
  function ShareOp(share: Share, n: nat, id: string, at: int, iv: Bytes): Op {
    Write(Site(share.to, share.key), id, at, share.message, Prefix(Prefix(share.plain, share.size), n), iv, true)
  }

  /** What the recipient of a share must still check once it has stored it. */
  function ShareWindow(net: Net, w: World, share: Share, n: nat, id: string, at: int, iv: Bytes): Window {
    var op := ShareOp(share, n, id, at, iv);
    var m := Minted(net, w, op.site, id, at, share.message, op.plain, iv);
    Window(Recipient(share), m.entry, m.raw, |op.plain|, share.size, Some(share.source))
  }

  // ---- Accepting ----

  /** The recipient's log once `plain` has arrived. */
  ghost predicate Received(net: Net, r: Place, h: History, h': History, id: string, plain: Bytes) {
    var c := CipherOf(net, r);
    && h'.latest == id && ReadPlain(c, h', "") == ReadPlain(c, h', id) == Success((|plain|, plain))
    && (Roomy(net.max(r.holder), h) ==>
          h.versions < h'.versions && forall x <- Ids(h.versions) :: ReadPlain(c, h', x) == ReadPlain(c, h, x))
  }

  lemma StoredShare(net: Net, r: Place, op: Op, h: History, h': History)
    requires op.Write? && op.clean && op.id != "" && |op.iv| == Aes.IV_SIZE
    requires WellFormed(h, net.max(r.holder)) && Fresh(op, h)
    requires h' == Step(CipherOf(net, r), net.max(r.holder), op, h)
    ensures Received(net, r, h, h', op.id, op.plain)
  {
    WrittenReadsBack(CipherOf(net, r), net.max(r.holder), op, h, h');
    if Roomy(net.max(r.holder), h) {
      RoomKeepsPlaintexts(CipherOf(net, r), net.max(r.holder), op, h, h');
    }
  }

  /** Storing what arrives of a share, as the world sees it. */
  lemma AcceptChanges(net: Net, w: World, share: Share, n: nat, id: string, at: int, iv: Bytes, stored: World)
    requires Enabled(net, w, AcceptShare(share, n, id, at, iv))
    requires stored == Next(net, w, AcceptShare(share, n, id, at, iv))
    ensures var op, r := ShareOp(share, n, id, at, iv), Recipient(share);
            stored.logs == w.logs[r := Step(CipherOf(net, r), net.max(share.to), op, LogAt(w, r))]
    ensures Name(Site(share.to, share.key), id) in stored.made
    ensures stored.made[Name(Site(share.to, share.key), id)].plain == ShareOp(share, n, id, at, iv).plain
  {
  }

  /**
   * The moment a share is taken in. Whatever has become of the sender since it read the file, the recipient's
   * latest version now reads, under the recipient's own key, as what has arrived of the plaintext the shared
   * version was created from; with room left, its earlier versions are all still there and read as before.
   * Nobody else's copies change, the sender's included.
   */
  lemma AcceptedIsReadable(net: Net, w: World, share: Share, n: nat, id: string, at: int, iv: Bytes, stored: World)
    requires Consistent(net, w) && Enabled(net, w, AcceptShare(share, n, id, at, iv))
    requires stored == Next(net, w, AcceptShare(share, n, id, at, iv))
    ensures share.source in w.made && share.size == |w.made[share.source].plain|
            && share.plain <= w.made[share.source].plain
    ensures var plain := Prefix(w.made[share.source].plain, Min(n, |share.plain|));
            && Received(net, Recipient(share), LogAt(w, Recipient(share)), LogAt(stored, Recipient(share)), id, plain)
            && Name(Site(share.to, share.key), id) in stored.made
            && stored.made[Name(Site(share.to, share.key), id)].plain == plain
    ensures forall p :: p != Recipient(share) ==> LogAt(stored, p) == LogAt(w, p)
  {
    var op, r := ShareOp(share, n, id, at, iv), Recipient(share);
    assert share.size == |w.made[share.source].plain|;
    assert op.plain == Prefix(w.made[share.source].plain, Min(n, |share.plain|));
    assert LogOK(net, w.made, r, LogAt(w, r));
    if id in Ids(LogAt(w, r).versions) {
      ListedWasMade(net, w, r, id);
      assert false;
    }
    AcceptChanges(net, w, share, n, id, at, iv, stored);
    StoredShare(net, r, op, LogAt(w, r), LogAt(stored, r));
  }

  // ---- Checking ----

  lemma CheckChanges(net: Net, w: World, win: Window, after: World)
    requires Enabled(net, w, Check(win)) && after == Next(net, w, Check(win))
    ensures Short(win) ==> after.acks == w.acks
    ensures Short(win) ==>
              after.logs == w.logs[win.place := Do(net, win.place, DropVersion(win.place.site, win.entry.versionID),
                                                   LogAt(w, win.place))]
    ensures !Short(win) ==>
              after.logs == w.logs && after.acks == w.acks + {Ack(win.place, win.entry, win.stored, win.source)}
  {
  }

  /** The version is off the recipient's list and every other one there reads as before. */
  ghost predicate GoneAlone(h: History, h': History, id: string) {
    id !in Ids(h'.versions) && forall x <- Ids(h.versions) :: x != id ==> ReadRaw(h', x) == ReadRaw(h, x)
  }

  lemma DroppedAlone(net: Net, p: Place, h: History, id: string, h': History)
    requires WellFormed(h, net.max(p.holder)) && h' == Do(net, p, DropVersion(p.site, id), h)
    ensures GoneAlone(h, h', id)
  {
    StepWellFormed(CipherOf(net, p), net.max(p.holder), DropVersion(p.site, id), h);
    WithoutKeeps(h.versions, id);
    WithoutMeans(h.versions, id);
    forall x | x in Ids(h.versions) && x != id ensures ReadRaw(h', x) == ReadRaw(h, x) {
      var e :| e in h.versions && e.versionID == x;
      SameReading(h, h', net.max(p.holder), e);
    }
  }

  lemma ShortIsGone(net: Net, w: World, win: Window, after: World)
    requires WellFormed(LogAt(w, win.place), net.max(win.place.holder))
    requires Short(win) && Enabled(net, w, Check(win)) && after == Next(net, w, Check(win))
    ensures GoneAlone(LogAt(w, win.place), LogAt(after, win.place), win.entry.versionID)
  {
    CheckChanges(net, w, win, after);
    DroppedAlone(net, win.place, LogAt(w, win.place), win.entry.versionID, LogAt(after, win.place));
  }

  /** The version of a share window was made from all that the shared one was made from. */
  ghost predicate WholeShare(w: World, win: Window)
    requires win.source.Some? && win.source.value in w.made && Name(win.place.site, win.entry.versionID) in w.made
  {
    w.made[Name(win.place.site, win.entry.versionID)].plain == w.made[win.source.value].plain
  }

  /**
   * The moment a share is checked, however much has happened since it was stored. It is confirmed exactly if
   * its version was made from all of the plaintext the shared one was made from. Otherwise that version is
   * removed from the recipient's list and every other one there reads as before; nobody else's copies change.
   */
  lemma CheckedIsWholeOrGone(net: Net, w: World, win: Window, after: World)
    requires Consistent(net, w) && win.source.Some? && Enabled(net, w, Check(win)) && after == Next(net, w, Check(win))
    ensures win.source.value in w.made && Name(win.place.site, win.entry.versionID) in w.made
    ensures WholeShare(w, win) ==> after.logs == w.logs
    ensures WholeShare(w, win) ==> after.acks == w.acks + {Ack(win.place, win.entry, win.stored, win.source)}
    ensures !WholeShare(w, win) ==> after.acks == w.acks
    ensures !WholeShare(w, win) ==> GoneAlone(LogAt(w, win.place), LogAt(after, win.place), win.entry.versionID)
    ensures forall p :: p != win.place ==> LogAt(after, p) == LogAt(w, p)
  {
    assert WindowBegins(w.made, win);
    assert LogOK(net, w.made, win.place, LogAt(w, win.place));
    CheckChanges(net, w, win, after);
    if Short(win) {
      ShortIsGone(net, w, win, after);
    }
  }

  /** The recipient stores what arrives of a share and checks it with nothing in between. */
  ghost predicate Handed(net: Net, w: World, share: Share, n: nat, id: string, at: int, iv: Bytes, after: World) {
    && Enabled(net, w, AcceptShare(share, n, id, at, iv))
    && var stored := Next(net, w, AcceptShare(share, n, id, at, iv));
       var win := ShareWindow(net, w, share, n, id, at, iv);
       Enabled(net, stored, Check(win)) && after == Next(net, stored, Check(win))
  }

  lemma UndoneIsTaken(net: Net, w: World, share: Share, n: nat, id: string, at: int, iv: Bytes, after: World)
    requires Handed(net, w, share, n, id, at, iv, after) && |ShareOp(share, n, id, at, iv).plain| != share.size
    ensures var op, r := ShareOp(share, n, id, at, iv), Recipient(share);
            Take(CipherOf(net, r), net.max(share.to), op, share.size, LogAt(w, r)) == (LogAt(after, r), false)
  {
    var stored := Next(net, w, AcceptShare(share, n, id, at, iv));
    AcceptChanges(net, w, share, n, id, at, iv, stored);
    CheckChanges(net, stored, ShareWindow(net, w, share, n, id, at, iv), after);
  }

  /**
   * A short share that is checked at once leaves the recipient's list and blobs exactly as they were, if
   * retention has room.
   */
  lemma ShortShareIsUndone(net: Net, w: World, share: Share, n: nat, id: string, at: int, iv: Bytes, after: World)
    requires Consistent(net, w) && Handed(net, w, share, n, id, at, iv, after) && Min(n, |share.plain|) < share.size
    requires Roomy(net.max(share.to), LogAt(w, Recipient(share)))
    ensures LogAt(after, Recipient(share)).versions == LogAt(w, Recipient(share)).versions
    ensures LogAt(after, Recipient(share)).blobs == LogAt(w, Recipient(share)).blobs
  {
    var op, r := ShareOp(share, n, id, at, iv), Recipient(share);
    assert LogOK(net, w.made, r, LogAt(w, r));
    if id in Ids(LogAt(w, r).versions) {
      ListedWasMade(net, w, r, id);
      assert false;
    }
    UndoneIsTaken(net, w, share, n, id, at, iv, after);
    FailedTransferRestoresIff(CipherOf(net, r), net.max(share.to), op, share.size, LogAt(w, r), LogAt(after, r), false);
  }

  // ---- Over whole runs ----

  /** What a share under way carries, in every run in which no latest was served after it had changed. */
  lemma SharesAreTrue(net: Net, trail: Trail, share: Share)
    requires Possible(net, trail) && Steady(net, trail) && share in After(net, trail).shares
    ensures share.source in After(net, trail).made
    ensures var plain := After(net, trail).made[share.source].plain; share.size == |plain| && share.plain <= plain
  {
    SteadyTrailsAreConsistent(net, trail);
  }

  /**
   * A version whose share was confirmed reads, wherever it is still listed and not about to be undone, as the
   * original.
   */
  lemma ConfirmedShareReads(net: Net, trail: Trail, k: Ack)
    requires Safe(net, trail) && k in After(net, trail).acks && k.source.Some?
    requires k.entry.versionID in Ids(LogAt(After(net, trail), k.place).versions)
    requires !Unsettled(After(net, trail).windows, k.place, k.entry.versionID)
    ensures k.source.value in After(net, trail).made
    ensures var plain := After(net, trail).made[k.source.value].plain;
            ReadPlain(CipherOf(net, k.place), LogAt(After(net, trail), k.place), k.entry.versionID) ==
                Success((|plain|, plain))
  {
    var w := After(net, trail);
    SafeTrailsAgree(net, trail);
    SafeIsSteady(net, trail);
    SteadyTrailsAreConsistent(net, trail);
    assert AckBegins(w.made, k);
    ReadsWhereSettled(net, w, k.place.site, k.entry.versionID);
  }

  /** The recipient has a confirmed version of this identity, from a share of this version. */
  ghost predicate Confirmed(w: World, r: Place, id: string, source: Name) {
    exists k :: k in w.acks && k.place == r && k.entry.versionID == id && k.source == Some(source)
  }

  lemma ConfirmedIsWhole(net: Net, w: World, r: Place, id: string, source: Name)
    requires Consistent(net, w) && Confirmed(w, r, id, source)
    ensures source in w.made && Name(r.site, id) in w.made && w.made[Name(r.site, id)].plain == w.made[source].plain
  {
    var k :| k in w.acks && k.place == r && k.entry.versionID == id && k.source == Some(source);
    assert AckBegins(w.made, k);
  }

  /** Nothing made or confirmed by the first moment is different at the second. */
  ghost predicate Later(w: World, w': World) {
    w.acks <= w'.acks && forall n <- w.made :: n in w'.made && w'.made[n] == w.made[n]
  }

  /** The five moments of a share: before it is stored, after, before it is checked, after, and any later one. */
  lemma ShareFate(net: Net, w0: World, share: Share, n: nat, id: string, at: int, iv: Bytes, w1: World, w2: World,
                  w3: World, w4: World)
    requires Consistent(net, w0) && Consistent(net, w2) && Consistent(net, w4)
    requires Enabled(net, w0, AcceptShare(share, n, id, at, iv))
    requires w1 == Next(net, w0, AcceptShare(share, n, id, at, iv))
    requires Enabled(net, w2, Check(ShareWindow(net, w0, share, n, id, at, iv)))
    requires w3 == Next(net, w2, Check(ShareWindow(net, w0, share, n, id, at, iv)))
    requires Later(w0, w1) && Later(w1, w2) && Later(w2, w3) && Later(w3, w4)
    ensures share.source in w0.made && share.source in w4.made && w4.made[share.source] == w0.made[share.source]
    ensures Name(Site(share.to, share.key), id) in w4.made
    ensures var plain, r := w0.made[share.source].plain, Recipient(share);
            && w4.made[Name(r.site, id)].plain == Prefix(plain, Min(n, |share.plain|))
            && (Confirmed(w4, r, id, share.source) <==> Min(n, |share.plain|) == |plain|)
            && (!Confirmed(w4, r, id, share.source) ==> id !in Ids(LogAt(w3, r).versions))
  {
    var win, mine := ShareWindow(net, w0, share, n, id, at, iv), Name(Site(share.to, share.key), id);
    AcceptedIsReadable(net, w0, share, n, id, at, iv, w1);
    CheckedIsWholeOrGone(net, w2, win, w3);
    if Confirmed(w4, Recipient(share), id, share.source) {
      ConfirmedIsWhole(net, w4, Recipient(share), id, share.source);
    }
    if Min(n, |share.plain|) == |w0.made[share.source].plain| {
      assert Ack(win.place, win.entry, win.stored, win.source) in w4.acks;
    }
  }

  lemma LaterInRun(net: Net, longer: Trail, trail: Trail)
    requires Possible(net, longer) && Extends(longer, trail)
    ensures Possible(net, trail) && Later(After(net, trail), After(net, longer))
  {
    PartsOfRuns(net, longer, trail);
    RunsOnlyAdd(net, longer, trail);
  }

  lemma MomentsOfShare(net: Net, trail: Trail, stored: Trail, mid: Trail, checked: Trail, longer: Trail)
    requires Possible(net, longer) && Steady(net, longer) && Possible(net, trail) && Possible(net, mid)
    requires stored.Then? && stored.before == trail
    requires checked.Then? && checked.before == mid && Extends(mid, stored) && Extends(longer, checked)
    ensures Possible(net, stored) && Possible(net, checked)
    ensures Consistent(net, After(net, trail)) && Consistent(net, After(net, mid))
    ensures Consistent(net, After(net, longer))
    ensures Later(After(net, trail), After(net, stored)) && Later(After(net, stored), After(net, mid))
    ensures Later(After(net, mid), After(net, checked)) && Later(After(net, checked), After(net, longer))
  {
    PartsOfRuns(net, longer, checked);
    PartsOfRuns(net, mid, stored);
    SteadyTrailsAreConsistent(net, trail);
    SteadyTrailsAreConsistent(net, mid);
    SteadyTrailsAreConsistent(net, longer);
    LaterInRun(net, stored, trail);
    LaterInRun(net, mid, stored);
    LaterInRun(net, checked, mid);
    LaterInRun(net, longer, checked);
  }

  /** At a moment of a run without hazards: a version of this plaintext reads as it where it is listed and settled. */
  lemma ReadsAs(net: Net, trail: Trail, s: Site, id: string, plain: Bytes)
    requires Safe(net, trail) && Name(s, id) in After(net, trail).made
    requires After(net, trail).made[Name(s, id)].plain == plain
    requires id in Ids(LogAt(After(net, trail), Own(s)).versions) && !Unsettled(After(net, trail).windows, Own(s), id)
    ensures ReadPlain(CipherOf(net, Own(s)), LogAt(After(net, trail), Own(s)), id) == Success((|plain|, plain))
  {
    SafeTrailsAgree(net, trail);
    ReadsWhereSettled(net, After(net, trail), s, id);
  }

  /**
   * Share as handover. A file was read to be shared at some earlier moment of a run; later n bytes of it
   * arrive and are stored; after any further steps the recipient checks them; and the run goes on. Nothing is
   * asked of the sender after it read the file, and hazards may occur. The share is confirmed if and only if all
   * of the plaintext that the shared version was created from arrived; if it was not, checking removed it. If the
   * run is without hazards, a confirmed share reads as exactly that plaintext for as long as it is listed and not
   * being overwritten by a short transfer.
   */
  lemma ShareHandsOver(net: Net, trail: Trail, share: Share, n: nat, id: string, at: int, iv: Bytes, mid: Trail,
                       longer: Trail)
    requires Possible(net, longer) && Steady(net, longer) && Possible(net, trail) && Possible(net, mid)
    requires Extends(mid, Then(trail, AcceptShare(share, n, id, at, iv)))
    requires Extends(longer, Then(mid, Check(ShareWindow(net, After(net, trail), share, n, id, at, iv))))
    ensures share.source in After(net, trail).made
    ensures Possible(net, Then(mid, Check(ShareWindow(net, After(net, trail), share, n, id, at, iv))))
    ensures var plain, w, r := After(net, trail).made[share.source].plain, After(net, longer), Recipient(share);
            var checked := After(net, Then(mid, Check(ShareWindow(net, After(net, trail), share, n, id, at, iv))));
            && (Confirmed(w, r, id, share.source) <==> Min(n, |share.plain|) == |plain|)
            && (Harmless(net, longer) && Confirmed(w, r, id, share.source) && id in Ids(LogAt(w, r).versions)
                && !Unsettled(w.windows, r, id) ==>
                  ReadPlain(CipherOf(net, r), LogAt(w, r), id) == Success((|plain|, plain)))
            && (!Confirmed(w, r, id, share.source) ==> id !in Ids(LogAt(checked, r).versions))
  {
    var stored := Then(trail, AcceptShare(share, n, id, at, iv));
    var checked := Then(mid, Check(ShareWindow(net, After(net, trail), share, n, id, at, iv)));
    MomentsOfShare(net, trail, stored, mid, checked, longer);
    ShareFate(net, After(net, trail), share, n, id, at, iv, After(net, stored), After(net, mid), After(net, checked),
              After(net, longer));
    var plain, w, r := After(net, trail).made[share.source].plain, After(net, longer), Recipient(share);
    if Safe(net, longer) && id in Ids(LogAt(w, r).versions) && !Unsettled(w.windows, r, id)
       && Confirmed(w, r, id, share.source) {
      ReadsAs(net, longer, r.site, id, plain);
    }
  }
}
