/**
 * What holds in every run, hazards included, as long as "latest" is not served after it has changed:
 * metadata is never wrong and no copy holds anything but the beginning of the origin's blob.
 */
module Consistency {
  import opened Base
  import opened Versions
  import opened Layout
  import opened Histories
  import opened Protocol
  import opened Agreement
  import Aes

  ghost predicate LogsOK(net: Net, w: World) {
    forall p :: LogOK(net, w.made, p, LogAt(w, p))
  }

  ghost predicate WiresBegin(made: map<Name, Made>, wires: set<Transfer>) {
    forall t <- wires :: Begins(made, t.site, t.entry, t.bytes)
  }

  /** A window on a share: its version was made from the beginning, so far, of what the shared one was made from. */
  ghost predicate WindowBegins(made: map<Name, Made>, win: Window) {
    && Begins(made, win.place.site, win.entry, win.stored)
    && (win.source.Some? ==>
          && win.source.value in made && win.place == Own(win.place.site)
          && var mine, theirs := made[Name(win.place.site, win.entry.versionID)].plain, made[win.source.value].plain;
             mine <= theirs && win.arrived == |mine| && win.promised == |theirs|)
  }

  ghost predicate WindowsBegin(made: map<Name, Made>, windows: multiset<Window>) {
    forall win :: win in windows ==> WindowBegins(made, win)
  }

  /** A confirmed share: its version was made from all that the shared one was made from. */
  ghost predicate AckBegins(made: map<Name, Made>, k: Ack) {
    && Begins(made, k.place.site, k.entry, k.stored)
    && (k.source.Some? ==>
          && k.source.value in made && k.place == Own(k.place.site)
          && made[Name(k.place.site, k.entry.versionID)].plain == made[k.source.value].plain)
  }

  ghost predicate AcksBegin(made: map<Name, Made>, acks: set<Ack>) {
    forall k <- acks :: AckBegins(made, k)
  }

  /** A share under way announces the true length of the version it was read from and carries a beginning of it. */
  ghost predicate SharesOK(made: map<Name, Made>, shares: set<Share>) {
    forall share <- shares ::
      && share.source in made && share.size == |made[share.source].plain| && share.plain <= made[share.source].plain
  }

  ghost predicate Consistent(net: Net, w: World) {
    && MadeOK(net, w.made)
    && LogsOK(net, w)
    && WiresBegin(w.made, w.wires)
    && GlimpsesOK(w.made, w.glimpses)
    && WindowsBegin(w.made, w.windows)
    && AcksBegin(w.made, w.acks)
    && SharesOK(w.made, w.shares)
  }

  /** Serving the latest after it has changed since it was looked up. */
  ghost predicate MixUp(w: World, a: Action)
    requires a.Serve? ==> ReadRaw(LogAt(w, a.glimpse.place), a.glimpse.asked).Success?
  {
    a.Serve? && a.glimpse.asked == ""
    && ReadRaw(LogAt(w, a.glimpse.place), "").value.0.versionID != a.glimpse.entry.versionID
  }

  /** One log changes to a good one. */
  lemma OneLogChanges(net: Net, w: World, p: Place, h: History, w': World)
    requires Consistent(net, w) && LogOK(net, w.made, p, h)
    requires w' == w.(logs := w.logs[p := h], windows := w'.windows) && WindowsBegin(w.made, w'.windows)
    ensures Consistent(net, w')
  {
    forall q ensures LogOK(net, w'.made, q, LogAt(w', q)) {
      assert LogOK(net, w.made, q, LogAt(w, q));
    }
  }

  lemma NoLogChanges(net: Net, w: World, w': World)
    requires Consistent(net, w) && w'.logs == w.logs && w'.made == w.made
    requires WiresBegin(w.made, w'.wires) && GlimpsesOK(w.made, w'.glimpses)
    requires WindowsBegin(w.made, w'.windows) && AcksBegin(w.made, w'.acks) && SharesOK(w.made, w'.shares)
    ensures Consistent(net, w')
  {
    forall q ensures LogOK(net, w'.made, q, LogAt(w', q)) {
      assert LogOK(net, w.made, q, LogAt(w, q));
    }
  }

  lemma LogGrowsOK(net: Net, made: map<Name, Made>, n: Name, m: Made, p: Place, h: History)
    requires n !in made && LogOK(net, made, p, h)
    ensures LogOK(net, made[n := m], p, h)
  {
    forall e | e in h.versions ensures e.versionID in h.blobs && Begins(made[n := m], p.site, e, h.blobs[e.versionID]) {
      MadeGrows(made, n, m, p.site, e, h.blobs[e.versionID]);
    }
  }

  lemma RecordsGrowToo(w: World, n: Name, m: Made)
    requires n !in w.made
    requires WiresBegin(w.made, w.wires) && GlimpsesOK(w.made, w.glimpses) && WindowsBegin(w.made, w.windows)
    requires AcksBegin(w.made, w.acks) && SharesOK(w.made, w.shares)
    ensures var made := w.made[n := m];
            && WiresBegin(made, w.wires) && GlimpsesOK(made, w.glimpses) && WindowsBegin(made, w.windows)
            && AcksBegin(made, w.acks) && SharesOK(made, w.shares)
  {
  }

  lemma LogsGrowOK(net: Net, w: World, n: Name, m: Made, p: Place, h: History)
    requires LogsOK(net, w) && n !in w.made && LogOK(net, w.made[n := m], p, h)
    ensures LogsOK(net, w.(logs := w.logs[p := h], made := w.made[n := m]))
  {
    var w' := w.(logs := w.logs[p := h], made := w.made[n := m]);
    forall q ensures LogOK(net, w'.made, q, LogAt(w', q)) {
      if q != p {
        assert LogOK(net, w.made, q, LogAt(w, q));
        LogGrowsOK(net, w.made, n, m, q, LogAt(w, q));
      }
    }
  }

  lemma RecordsGrowConsistent(net: Net, w: World, n: Name, m: Made, p: Place, h: History)
    requires Consistent(net, w) && n !in w.made && MadeOK(net, w.made[n := m]) && LogOK(net, w.made[n := m], p, h)
    ensures Consistent(net, w.(logs := w.logs[p := h], made := w.made[n := m]))
  {
    RecordsGrowToo(w, n, m);
    LogsGrowOK(net, w, n, m, p, h);
  }

  lemma CreatingIsConsistent(net: Net, w: World, s: Site, id: string, at: int, message: string, plain: Bytes,
                             iv: Bytes, w': World)
    requires Consistent(net, w) && NewlyDrawn(w, id, iv) && w' == Creating(net, w, s, id, at, message, plain, iv)
    ensures Consistent(net, w')
  {
    var op, p, m := Write(s, id, at, message, plain, iv, true), Own(s), Minted(net, w, s, id, at, message, plain, iv);
    MintedOK(net, w, s, id, at, message, plain, iv);
    assert LogOK(net, w.made, p, LogAt(w, p));
    CreateKeepsLog(net, w.made, p, LogAt(w, p), op);
    RecordsGrowConsistent(net, w, Name(s, id), m, p, Do(net, p, op, LogAt(w, p)));
  }

  lemma StoringIsConsistent(net: Net, w: World, t: Transfer, arrived: nat, clean: bool, h: History, w': World)
    requires Consistent(net, w) && t in w.wires
    requires h == Do(net, Place(t.to, t.site), Put(t, arrived, clean), LogAt(w, Place(t.to, t.site)))
    requires w' == w.(logs := w.logs[Place(t.to, t.site) := h], windows := w'.windows)
    requires WindowsBegin(w.made, w'.windows)
    ensures Consistent(net, w')
  {
    var p := Place(t.to, t.site);
    assert LogOK(net, w.made, p, LogAt(w, p));
    if clean {
      RawWriteKeepsLog(net, w.made, p, LogAt(w, p), t.entry, Prefix(t.bytes, arrived));
    } else {
      TornKeepsLog(net, w.made, p, LogAt(w, p), t.entry, Prefix(t.bytes, arrived));
    }
    OneLogChanges(net, w, p, h, w');
  }

  lemma DroppingIsConsistent(net: Net, w: World, p: Place, id: string, h: History, w': World)
    requires Consistent(net, w) && h == Do(net, p, DropVersion(p.site, id), LogAt(w, p))
    requires w' == w.(logs := w.logs[p := h], windows := w'.windows) && w'.windows <= w.windows
    ensures Consistent(net, w')
  {
    assert LogOK(net, w.made, p, LogAt(w, p));
    DropKeepsLog(net, w.made, p, LogAt(w, p), id);
    OneLogChanges(net, w, p, h, w');
  }

  lemma AcceptingIsConsistent(net: Net, w: World, share: Share, n: nat, id: string, at: int, iv: Bytes, w': World)
    requires Consistent(net, w) && Enabled(net, w, AcceptShare(share, n, id, at, iv))
    requires w' == Next(net, w, AcceptShare(share, n, id, at, iv))
    ensures Consistent(net, w')
  {
    var s, arrived := Site(share.to, share.key), Prefix(Prefix(share.plain, share.size), n);
    var w1 := Creating(net, w, s, id, at, share.message, arrived, iv);
    CreatingIsConsistent(net, w, s, id, at, share.message, arrived, iv, w1);
    var m := w1.made[Name(s, id)];
    assert share.source in w.made && share.source != Name(s, id);
    SameConsistentLogs(net, w1, Window(Own(s), m.entry, m.raw, |arrived|, share.size, Some(share.source)));
  }

  lemma SameConsistentLogs(net: Net, w: World, win: Window)
    requires Consistent(net, w) && WindowBegins(w.made, win)
    ensures Consistent(net, w.(windows := w.windows + multiset{win}))
  {
    NoLogChanges(net, w, w.(windows := w.windows + multiset{win}));
  }

  lemma ReadingBegins(net: Net, w: World, p: Place, id: string)
    requires Consistent(net, w) && ReadRaw(LogAt(w, p), id).Success?
    ensures var (entry, bytes) := ReadRaw(LogAt(w, p), id).value; Begins(w.made, p.site, entry, bytes)
  {
    ReadIsListed(LogAt(w, p), id);
    assert LogOK(net, w.made, p, LogAt(w, p));
  }

  lemma ReadIsConsistent(net: Net, w: World, a: Action, w': World)
    requires Consistent(net, w) && Enabled(net, w, a) && (a.SendBlob? || a.Serve?) && !MixUp(w, a)
    requires w' == Next(net, w, a)
    ensures Consistent(net, w')
  {
    var p := if a.SendBlob? then Own(a.site) else a.glimpse.place;
    var id := if a.SendBlob? then a.id else a.glimpse.asked;
    ReadIsListed(LogAt(w, p), id);
    ReadingBegins(net, w, p, id);
    var (entry, bytes) := ReadRaw(LogAt(w, p), id).value;
    if a.Serve? {
      assert Begins(w.made, p.site, a.glimpse.entry, []);
      assert w' == w.(wires := w.wires + {Transfer(p.site.node, p.site, entry, bytes)});
    } else {
      assert w' == w.(wires := w.wires + {Transfer(a.to, p.site, entry, bytes)});
    }
    NoLogChanges(net, w, w');
  }

  lemma LookUpIsConsistent(net: Net, w: World, p: Place, id: string, w': World)
    requires Consistent(net, w) && Enabled(net, w, LookUp(p, id)) && w' == Next(net, w, LookUp(p, id))
    ensures Consistent(net, w')
  {
    var h := LogAt(w, p);
    var entry := Resolve(h.versions, h.latest, id).value;
    assert LogOK(net, w.made, p, h);
    assert entry in h.versions;
    assert Begins(w.made, p.site, entry, h.blobs[entry.versionID]);
    NoLogChanges(net, w, w');
  }

  lemma ReceivingIsConsistent(net: Net, w: World, t: Transfer, arrived: nat, w': World)
    requires Consistent(net, w) && t in w.wires && w' == Next(net, w, Receive(t, arrived))
    ensures Consistent(net, w')
  {
    assert Begins(w.made, t.site, t.entry, t.bytes);
    StoringIsConsistent(net, w, t, arrived, true, LogAt(w', Place(t.to, t.site)), w');
  }

  lemma ConfirmingIsConsistent(net: Net, w: World, win: Window, w': World)
    requires Consistent(net, w) && win in w.windows && !Short(win) && w' == Next(net, w, Check(win))
    ensures Consistent(net, w')
  {
    NoLogChanges(net, w, w');
  }

  lemma AbortingIsConsistent(net: Net, w: World, t: Transfer, arrived: nat, w': World)
    requires Consistent(net, w) && t in w.wires && w' == Next(net, w, Abort(t, arrived))
    ensures Consistent(net, w')
  {
    StoringIsConsistent(net, w, t, arrived, false, LogAt(w', Place(t.to, t.site)), w');
  }

  lemma CheckingIsConsistent(net: Net, w: World, win: Window, w': World)
    requires Consistent(net, w) && win in w.windows && w' == Next(net, w, Check(win))
    ensures Consistent(net, w')
  {
    if Short(win) {
      DroppingIsConsistent(net, w, win.place, win.entry.versionID, LogAt(w', win.place), w');
    } else {
      ConfirmingIsConsistent(net, w, win, w');
    }
  }

  lemma DeletingIsConsistent(net: Net, w: World, a: Action, w': World)
    requires Consistent(net, w) && (a.Drop? || a.DropEverything?) && w' == Next(net, w, a)
    ensures Consistent(net, w')
  {
    if a.Drop? {
      DroppingIsConsistent(net, w, a.place, a.id, LogAt(w', a.place), w');
    } else {
      OneLogChanges(net, w, a.place, EMPTY, w');
    }
  }

  /** Reading a file at its origin gives the true length and a beginning of what the version was made from. */
  lemma PlainBegins(net: Net, w: World, s: Site, id: string)
    requires Consistent(net, w) && ReadPlain(CipherOf(net, Own(s)), LogAt(w, Own(s)), id).Success?
    ensures var (size, plain) := ReadPlain(CipherOf(net, Own(s)), LogAt(w, Own(s)), id).value;
            var source := Name(s, ReadRaw(LogAt(w, Own(s)), id).value.0.versionID);
            source in w.made && size == |w.made[source].plain| && plain <= w.made[source].plain
  {
    var (entry, blob) := ReadRaw(LogAt(w, Own(s)), id).value;
    ReadingBegins(net, w, Own(s), id);
    var m := w.made[Name(s, entry.versionID)];
    Aes.OpenCutSeal(net.keystream(s.node), m.iv, m.plain, |blob|);
    assert m.raw[..|blob|] == blob;
  }

  lemma SharingIsConsistent(net: Net, w: World, a: Action, w': World)
    requires Consistent(net, w) && a.SendReadable? && Enabled(net, w, a) && w' == Next(net, w, a)
    ensures Consistent(net, w')
  {
    var (size, plain) := ReadPlain(CipherOf(net, Own(a.site)), LogAt(w, Own(a.site)), a.id).value;
    PlainBegins(net, w, a.site, a.id);
    NoLogChanges(net, w, w');
  }

  /** Every step keeps it except serving a latest that has changed. */
  lemma StepKeepsConsistency(net: Net, w: World, a: Action, w': World)
    requires Consistent(net, w) && Enabled(net, w, a) && !MixUp(w, a) && w' == Next(net, w, a)
    ensures Consistent(net, w')
  {
    match a
    case Create(s, id, at, message, plain, iv) => CreatingIsConsistent(net, w, s, id, at, message, plain, iv, w');
    case SendBlob(_, _, _) => ReadIsConsistent(net, w, a, w');
    case LookUp(p, id) => LookUpIsConsistent(net, w, p, id, w');
    case Serve(_) => ReadIsConsistent(net, w, a, w');
    case Receive(t, arrived) => ReceivingIsConsistent(net, w, t, arrived, w');
    case Abort(t, arrived) => AbortingIsConsistent(net, w, t, arrived, w');
    case SendReadable(_, _, _, _, _) => SharingIsConsistent(net, w, a, w');
    case AcceptShare(share, n, id, at, iv) => AcceptingIsConsistent(net, w, share, n, id, at, iv, w');
    case Check(win) => CheckingIsConsistent(net, w, win, w');
    case Drop(_, _) => DeletingIsConsistent(net, w, a, w');
    case DropEverything(_) => DeletingIsConsistent(net, w, a, w');
  }

  /** No step of the run served a latest that had changed. */
  ghost predicate Steady(net: Net, trail: Trail)
    requires Possible(net, trail)
  {
    match trail
    case Begin => true
    case Then(before, a) => Steady(net, before) && !MixUp(After(net, before), a)
  }

  lemma {:induction false} SteadyTrailsAreConsistent(net: Net, trail: Trail)
    requires Possible(net, trail) && Steady(net, trail)
    ensures Consistent(net, After(net, trail))
  {
    match trail
    case Begin =>
      forall p ensures LogOK(net, START.made, p, LogAt(START, p)) { }
    case Then(before, a) =>
      SteadyTrailsAreConsistent(net, before);
      StepKeepsConsistency(net, After(net, before), a, After(net, trail));
  }

  /**
   * In every such run, whatever any node lists of a version has exactly the origin's metadata, its blob is
   * a beginning of the origin's, and it is the whole of it if and only if it has the length its metadata
   * and the cipher's header announce. So a copy that was damaged by a hazard can always be told by its length.
   */
  lemma CopiesBeginTheOriginal(net: Net, trail: Trail, p: Place, e: VersionEntry)
    requires Possible(net, trail) && Steady(net, trail) && e in LogAt(After(net, trail), p).versions
    ensures var w := After(net, trail);
            && Name(p.site, e.versionID) in w.made && e.versionID in LogAt(w, p).blobs
            && var m, blob := w.made[Name(p.site, e.versionID)], LogAt(w, p).blobs[e.versionID];
               e == m.entry && blob <= m.raw && (blob == m.raw <==> |blob| == e.sizeBytes + Aes.HEADER_SIZE)
  {
    var w := After(net, trail);
    SteadyTrailsAreConsistent(net, trail);
    assert LogOK(net, w.made, p, LogAt(w, p));
    FullIsGenuine(net, w.made, p.site, e, LogAt(w, p).blobs[e.versionID]);
  }

  /** A run without hazards is such a run. */
  lemma {:induction false} SafeIsSteady(net: Net, trail: Trail)
    requires Safe(net, trail)
    ensures Steady(net, trail)
  {
    match trail
    case Begin =>
    case Then(before, a) =>
      SafeIsSteady(net, before);
      if a.Serve? && a.glimpse.asked == "" {
        var h := LogAt(After(net, before), a.glimpse.place);
        assert !Hazard(After(net, before), a);
      }
  }

  /** Whatever a log lists was made by its origin. */
  lemma ListedWasMade(net: Net, w: World, p: Place, id: string)
    requires Consistent(net, w) && id in Ids(LogAt(w, p).versions)
    ensures Name(p.site, id) in w.made
  {
    assert LogOK(net, w.made, p, LogAt(w, p));
    var e :| e in LogAt(w, p).versions && e.versionID == id;
    assert Begins(w.made, p.site, e, LogAt(w, p).blobs[e.versionID]);
  }

  // ---- Runs that go on ----

  /** One run is the other continued. */
  ghost predicate Extends(longer: Trail, trail: Trail) {
    longer == trail || (longer.Then? && Extends(longer.before, trail))
  }

  lemma {:induction false} PartsOfRuns(net: Net, longer: Trail, trail: Trail)
    requires Possible(net, longer) && Extends(longer, trail)
    ensures Possible(net, trail)
    ensures Steady(net, longer) ==> Steady(net, trail)
    ensures Harmless(net, longer) ==> Harmless(net, trail)
  {
    if longer != trail {
      PartsOfRuns(net, longer.before, trail);
    }
  }

  lemma StepOnlyAdds(net: Net, w: World, a: Action, w': World)
    requires Enabled(net, w, a) && w' == Next(net, w, a)
    ensures w.acks <= w'.acks && forall n <- w.made :: n in w'.made && w'.made[n] == w.made[n]
  {
  }

  /** What was made stays as it was made, and what was confirmed stays confirmed. */
  lemma {:induction false} RunsOnlyAdd(net: Net, longer: Trail, trail: Trail)
    requires Possible(net, longer) && Possible(net, trail) && Extends(longer, trail)
    ensures After(net, trail).acks <= After(net, longer).acks
    ensures forall n <- After(net, trail).made ::
              n in After(net, longer).made && After(net, longer).made[n] == After(net, trail).made[n]
  {
    if longer != trail {
      RunsOnlyAdd(net, longer.before, trail);
      StepOnlyAdds(net, After(net, longer.before), longer.action, After(net, longer));
    }
  }
}
