/** Replica agreement: which steps keep it, that runs of them keep it, and what it says. */
module Agreement {
  import opened Base
  import opened Versions
  import opened Layout
  import opened Histories
  import opened Protocol
  import Aes

  // ---- Creating a version ----

  lemma MadeGrows(made: map<Name, Made>, n: Name, m: Made, s: Site, entry: VersionEntry, bytes: Bytes)
    requires n !in made
    ensures Begins(made, s, entry, bytes) ==> Begins(made[n := m], s, entry, bytes)
    ensures Genuine(made, s, entry, bytes) ==> Genuine(made[n := m], s, entry, bytes)
  {
  }

  lemma RecordsGrow(w: World, n: Name, m: Made)
    requires n !in w.made
    requires WiresOK(w.made, w.wires) && GlimpsesOK(w.made, w.glimpses) && WindowsOK(w.made, w.windows)
    requires AcksOK(w.made, w.acks)
    ensures var made := w.made[n := m];
            WiresOK(made, w.wires) && GlimpsesOK(made, w.glimpses) && WindowsOK(made, w.windows) && AcksOK(made, w.acks)
  {
  }

  lemma LogGrows(net: Net, made: map<Name, Made>, n: Name, m: Made, windows: multiset<Window>, p: Place, h: History)
    requires n !in made && LogGood(net, made, windows, p, h)
    ensures LogGood(net, made[n := m], windows, p, h)
  {
    forall e | e in h.versions
      ensures e.versionID in h.blobs && Begins(made[n := m], p.site, e, h.blobs[e.versionID])
           && EntrySettled(made[n := m], windows, p, h, e)
    {
      assert EntrySettled(made, windows, p, h, e);
      MadeGrows(made, n, m, p.site, e, h.blobs[e.versionID]);
    }
  }

  lemma MintedOK(net: Net, w: World, s: Site, id: string, at: int, message: string, plain: Bytes, iv: Bytes)
    requires MadeOK(net, w.made) && NewlyDrawn(w, id, iv)
    ensures Name(s, id) !in w.made
    ensures MadeOK(net, Creating(net, w, s, id, at, message, plain, iv).made)
  {
  }

  /** A log stays good when a write adds an entry that is good or about to be undone. */
  lemma WrittenLogGood(net: Net, made: map<Name, Made>, windows: multiset<Window>, p: Place, h: History, h': History,
                       entry: VersionEntry, blob: Bytes)
    requires LogOK(net, made, p, h') && forall e <- h.versions :: EntrySettled(made, windows, p, h, e)
    requires forall e <- h'.versions :: FromWrite(h, h', entry, blob, e)
    requires Genuine(made, p.site, entry, blob) || Unsettled(windows, p, entry.versionID)
    ensures LogGood(net, made, windows, p, h')
  {
    forall e | e in h'.versions ensures EntrySettled(made, windows, p, h', e) {
      assert FromWrite(h, h', entry, blob, e);
      if e.versionID != entry.versionID {
        assert EntrySettled(made, windows, p, h, e);
      }
    }
  }

  lemma CreatedLogGood(net: Net, made: map<Name, Made>, windows: multiset<Window>, p: Place, h: History, op: Op)
    requires LogGood(net, made, windows, p, h) && p == Own(p.site) && op.Write? && op.clean && op.site == p.site
    requires op.id != ""
    requires forall n <- made :: n.id != op.id
    ensures var m := Made(NewEntry(op, h.versions), op.plain, op.iv,
                          Aes.Seal(net.keystream(p.site.node), op.iv, op.plain));
            LogGood(net, made[Name(p.site, op.id) := m], windows, p, Do(net, p, op, h))
  {
    var m := Made(NewEntry(op, h.versions), op.plain, op.iv, Aes.Seal(net.keystream(p.site.node), op.iv, op.plain));
    CreateKeepsLog(net, made, p, h, op);
    LogGrows(net, made, Name(p.site, op.id), m, windows, p, h);
    WrittenLogGood(net, made[Name(p.site, op.id) := m], windows, p, h, Do(net, p, op, h), m.entry, m.raw);
  }

  lemma RecordAndLogChange(net: Net, w: World, n: Name, m: Made, p: Place, h: History)
    requires Agreed(net, w) && n !in w.made && MadeOK(net, w.made[n := m])
    requires LogGood(net, w.made[n := m], w.windows, p, h)
    ensures Agreed(net, w.(logs := w.logs[p := h], made := w.made[n := m]))
  {
    var w' := w.(logs := w.logs[p := h], made := w.made[n := m]);
    RecordsGrow(w, n, m);
    forall q ensures LogGood(net, w'.made, w'.windows, q, LogAt(w', q)) {
      if q != p {
        assert LogGood(net, w.made, w.windows, q, LogAt(w, q));
        LogGrows(net, w.made, n, m, w.windows, q, LogAt(w, q));
      }
    }
  }

  lemma CreateKeeps(net: Net, w: World, s: Site, id: string, at: int, message: string, plain: Bytes, iv: Bytes)
    requires Agreed(net, w) && NewlyDrawn(w, id, iv)
    ensures Agreed(net, Creating(net, w, s, id, at, message, plain, iv))
    ensures var m := Minted(net, w, s, id, at, message, plain, iv);
            Genuine(Creating(net, w, s, id, at, message, plain, iv).made, s, m.entry, m.raw)
  {
    var op, p, m := Write(s, id, at, message, plain, iv, true), Own(s), Minted(net, w, s, id, at, message, plain, iv);
    MintedOK(net, w, s, id, at, message, plain, iv);
    assert LogGood(net, w.made, w.windows, p, LogAt(w, p));
    CreatedLogGood(net, w.made, w.windows, p, LogAt(w, p), op);
    RecordAndLogChange(net, w, Name(s, id), m, p, Do(net, p, op, LogAt(w, p)));
  }

  // ---- Windows come and go ----

  /** No window that keeps a version of this log unsettled disappears. */
  ghost predicate StillOpen(was: multiset<Window>, now: multiset<Window>, p: Place) {
    forall id :: Unsettled(was, p, id) ==> Unsettled(now, p, id)
  }

  lemma WindowsChange(net: Net, made: map<Name, Made>, was: multiset<Window>, now: multiset<Window>, p: Place,
                      h: History)
    requires LogGood(net, made, was, p, h) && StillOpen(was, now, p)
    ensures LogGood(net, made, now, p, h)
  {
    forall e | e in h.versions ensures EntrySettled(made, now, p, h, e) {
      assert EntrySettled(made, was, p, h, e);
    }
  }

  /** One log and the windows change; everything else is as before. */
  lemma LogChange(net: Net, w: World, p: Place, h: History, windows: multiset<Window>)
    requires Agreed(net, w)
    requires forall q :: q != p ==> StillOpen(w.windows, windows, q)
    requires LogGood(net, w.made, windows, p, h) && WindowsOK(w.made, windows)
    ensures Agreed(net, w.(logs := w.logs[p := h], windows := windows))
  {
    var w' := w.(logs := w.logs[p := h], windows := windows);
    forall q ensures LogGood(net, w'.made, w'.windows, q, LogAt(w', q)) {
      if q != p {
        assert LogGood(net, w.made, w.windows, q, LogAt(w, q));
        WindowsChange(net, w.made, w.windows, w'.windows, q, LogAt(w, q));
      }
    }
  }

  /** Only the windows and the acknowledgements change. */
  lemma WindowsAndAcksChange(net: Net, w: World, windows: multiset<Window>, acks: set<Ack>)
    requires Agreed(net, w) && WindowsOK(w.made, windows) && AcksOK(w.made, acks)
    requires forall q :: StillOpen(w.windows, windows, q)
    ensures Agreed(net, w.(windows := windows, acks := acks))
  {
    var w' := w.(windows := windows, acks := acks);
    forall q ensures LogGood(net, w'.made, w'.windows, q, LogAt(w', q)) {
      assert LogGood(net, w.made, w.windows, q, LogAt(w, q));
      WindowsChange(net, w.made, w.windows, windows, q, LogAt(w, q));
    }
  }

  lemma MoreWindows(windows: multiset<Window>, win: Window, p: Place)
    ensures StillOpen(windows, windows + multiset{win}, p)
  {
    forall id | Unsettled(windows, p, id) ensures Unsettled(windows + multiset{win}, p, id) {
      var o :| o in windows && o.place == p && o.entry.versionID == id && Short(o);
      assert o in windows + multiset{win};
    }
  }

  lemma OpeningKeeps(net: Net, w: World, win: Window)
    requires Agreed(net, w) && WindowOK(w.made, win)
    ensures Agreed(net, w.(windows := w.windows + multiset{win}))
  {
    forall q ensures StillOpen(w.windows, w.windows + multiset{win}, q) {
      MoreWindows(w.windows, win, q);
    }
    WindowsAndAcksChange(net, w, w.windows + multiset{win}, w.acks);
  }

  lemma ReceivedLogGood(net: Net, made: map<Name, Made>, windows: multiset<Window>, p: Place, h: History,
                        entry: VersionEntry, whole: Bytes, data: Bytes)
    requires LogGood(net, made, windows, p, h) && Genuine(made, p.site, entry, whole) && entry.versionID != ""
    requires data == whole || (data <= whole && Unsettled(windows, p, entry.versionID))
    ensures LogGood(net, made, windows, p, Do(net, p, WriteRaw(p.site, entry, data, true), h))
  {
    RawWriteKeepsLog(net, made, p, h, entry, data);
    WrittenLogGood(net, made, windows, p, h, Do(net, p, WriteRaw(p.site, entry, data, true), h), entry, data);
  }

  /** The receiver's log after a write, under the windows that include the one the write opens. */
  lemma ReceivedLog(net: Net, w: World, t: Transfer, arrived: nat, windows: multiset<Window>, h: History)
    requires Agreed(net, w) && t in w.wires && windows == w.windows + multiset{BlobWindow(t, arrived)}
    requires h == Do(net, Place(t.to, t.site), Put(t, arrived, true), LogAt(w, Place(t.to, t.site)))
    ensures LogGood(net, w.made, windows, Place(t.to, t.site), h)
  {
    var p, win := Place(t.to, t.site), BlobWindow(t, arrived);
    assert Genuine(w.made, t.site, t.entry, t.bytes);
    assert LogGood(net, w.made, w.windows, p, LogAt(w, p));
    assert win in windows;
    assert !Short(win) ==> Prefix(t.bytes, arrived) == t.bytes;
    MoreWindows(w.windows, win, p);
    WindowsChange(net, w.made, w.windows, windows, p, LogAt(w, p));
    ReceivedLogGood(net, w.made, windows, p, LogAt(w, p), t.entry, t.bytes, Prefix(t.bytes, arrived));
  }

  lemma BlobWindowOK(made: map<Name, Made>, t: Transfer, arrived: nat)
    requires Genuine(made, t.site, t.entry, t.bytes)
    ensures WindowOK(made, BlobWindow(t, arrived))
  {
  }

  /** A log that has taken in a transfer, and the window that opens with it. */
  lemma LogAndWindow(net: Net, w: World, p: Place, h: History, win: Window)
    requires Agreed(net, w) && WindowOK(w.made, win) && LogGood(net, w.made, w.windows + multiset{win}, p, h)
    ensures Agreed(net, w.(logs := w.logs[p := h], windows := w.windows + multiset{win}))
  {
    forall q ensures StillOpen(w.windows, w.windows + multiset{win}, q) {
      MoreWindows(w.windows, win, q);
    }
    LogChange(net, w, p, h, w.windows + multiset{win});
  }

  lemma ReceiveChanges(net: Net, w: World, t: Transfer, arrived: nat, w': World)
    requires t in w.wires && w' == Next(net, w, Receive(t, arrived))
    ensures var p := Place(t.to, t.site); LogAt(w', p) == Do(net, p, Put(t, arrived, true), LogAt(w, p))
    ensures w' == w.(logs := w.logs[Place(t.to, t.site) := LogAt(w', Place(t.to, t.site))],
                     windows := w.windows + multiset{BlobWindow(t, arrived)})
  {
  }

  lemma ReceivedLogOf(net: Net, w: World, t: Transfer, arrived: nat, w': World)
    requires Agreed(net, w) && t in w.wires && w' == Next(net, w, Receive(t, arrived))
    ensures var p := Place(t.to, t.site);
            LogGood(net, w.made, w.windows + multiset{BlobWindow(t, arrived)}, p, LogAt(w', p))
    ensures w' == w.(logs := w.logs[Place(t.to, t.site) := LogAt(w', Place(t.to, t.site))],
                     windows := w.windows + multiset{BlobWindow(t, arrived)})
  {
    ReceiveChanges(net, w, t, arrived, w');
    ReceivedLog(net, w, t, arrived, w.windows + multiset{BlobWindow(t, arrived)}, LogAt(w', Place(t.to, t.site)));
  }

  lemma ReceiveKeeps(net: Net, w: World, t: Transfer, arrived: nat, w': World)
    requires Agreed(net, w) && t in w.wires && w' == Next(net, w, Receive(t, arrived))
    ensures Agreed(net, w')
  {
    ReceivedLogOf(net, w, t, arrived, w');
    BlobWindowOK(w.made, t, arrived);
    LogAndWindow(net, w, Place(t.to, t.site), LogAt(w', Place(t.to, t.site)), BlobWindow(t, arrived));
  }

  /** Tearing the blob of a listed version spoils its log unless it is whole anyway or about to be undone. */
  lemma TornLogIff(net: Net, made: map<Name, Made>, windows: multiset<Window>, p: Place, h: History,
                   entry: VersionEntry,
                   whole: Bytes, data: Bytes)
    requires MadeOK(net, made) && LogGood(net, made, windows, p, h)
    requires Genuine(made, p.site, entry, whole) && data <= whole && entry.versionID != ""
    ensures LogGood(net, made, windows, p, Do(net, p, WriteRaw(p.site, entry, data, false), h))
            <==> |data| == |whole| || entry.versionID !in Ids(h.versions) || Unsettled(windows, p, entry.versionID)
  {
    TornKeepsLog(net, made, p, h, entry, data);
    var h', id := Do(net, p, WriteRaw(p.site, entry, data, false), h), entry.versionID;
    if |data| == |whole| || id !in Ids(h.versions) || Unsettled(windows, p, id) {
      forall e | e in h'.versions ensures EntrySettled(made, windows, p, h', e) {
        assert EntrySettled(made, windows, p, h, e);
        assert Begins(made, p.site, e, h.blobs[e.versionID]);
      }
    } else {
      var e :| e in h.versions && e.versionID == id;
      assert e in h'.versions && h'.blobs[id] == data;
      assert !EntrySettled(made, windows, p, h', e);
    }
  }

  lemma ReplacedLogIff(net: Net, w: World, p: Place, h: History)
    requires Agreed(net, w)
    ensures Agreed(net, w.(logs := w.logs[p := h])) <==> LogGood(net, w.made, w.windows, p, h)
  {
    var w' := w.(logs := w.logs[p := h]);
    if LogGood(net, w.made, w.windows, p, h) {
      LogChange(net, w, p, h, w.windows);
    } else {
      assert LogAt(w', p) == h;
      assert !LogGood(net, w'.made, w'.windows, p, LogAt(w', p));
    }
  }

  lemma AbortIff(net: Net, w: World, t: Transfer, arrived: nat)
    requires Agreed(net, w) && t in w.wires
    ensures Agreed(net, Next(net, w, Abort(t, arrived))) <==> !Hazard(w, Abort(t, arrived))
  {
    var p, data := Place(t.to, t.site), Prefix(t.bytes, arrived);
    var h := LogAt(w, p);
    var h' := Do(net, p, WriteRaw(p.site, t.entry, data, false), h);
    assert Genuine(w.made, t.site, t.entry, t.bytes);
    assert LogGood(net, w.made, w.windows, p, h);
    TornLogIff(net, w.made, w.windows, p, h, t.entry, t.bytes, data);
    ReplacedLogIff(net, w, p, h');
  }

  /** Removing a version together with windows of that version only. */
  lemma DropKeeps(net: Net, w: World, w': World, p: Place, id: string)
    requires Agreed(net, w)
    requires w'.windows <= w.windows
    requires w' == w.(logs := Logged(net, w, p, DropVersion(p.site, id)), windows := w'.windows)
    requires forall win :: win in w.windows && Short(win) && win !in w'.windows ==>
               win.place == p && win.entry.versionID == id
    ensures Agreed(net, w')
  {
    var h := LogAt(w, p);
    var h' := Do(net, p, DropVersion(p.site, id), h);
    assert LogGood(net, w.made, w.windows, p, h);
    DropKeepsLog(net, w.made, p, h, id);
    forall q, x | Unsettled(w.windows, q, x) && (q != p || x != id) ensures Unsettled(w'.windows, q, x) {
      var o :| o in w.windows && o.place == q && o.entry.versionID == x && Short(o);
      assert o in w'.windows;
    }
    forall e | e in h'.versions ensures EntrySettled(w.made, w'.windows, p, h', e) {
      assert EntrySettled(w.made, w.windows, p, h, e);
      assert e.versionID in Ids(h'.versions);
    }
    LogChange(net, w, p, h', w'.windows);
  }

  lemma ConfirmKeeps(net: Net, w: World, win: Window)
    requires Agreed(net, w) && win in w.windows && !Short(win)
    ensures Agreed(net, Next(net, w, Check(win)))
  {
    var w' := Next(net, w, Check(win));
    forall q ensures StillOpen(w.windows, w'.windows, q) {
      forall id | Unsettled(w.windows, q, id) ensures Unsettled(w'.windows, q, id) {
        var o :| o in w.windows && o.place == q && o.entry.versionID == id && Short(o);
        assert o in w'.windows;
      }
    }
    assert WindowOK(w.made, win);
    WindowsAndAcksChange(net, w, w'.windows, w'.acks);
  }

  lemma DropEverythingKeeps(net: Net, w: World, p: Place)
    requires Agreed(net, w)
    ensures Agreed(net, Next(net, w, DropEverything(p)))
  {
    assert LogGood(net, w.made, w.windows, p, EMPTY);
    LogChange(net, w, p, EMPTY, w.windows);
  }

  // ---- Reading a blob to send it ----

  /** Putting one more blob on the wire keeps agreement exactly if that blob is the origin's. */
  lemma WireIff(net: Net, w: World, t: Transfer)
    requires Agreed(net, w)
    ensures Agreed(net, w.(wires := w.wires + {t})) <==> Genuine(w.made, t.site, t.entry, t.bytes)
  {
    var w' := w.(wires := w.wires + {t});
    assert t in w'.wires;
    SameLogs(net, w, w');
  }

  lemma SameLogs(net: Net, w: World, w': World)
    requires LogsGood(net, w) && w'.logs == w.logs && w'.made == w.made && w'.windows == w.windows
    ensures LogsGood(net, w')
  {
    forall p ensures LogGood(net, w'.made, w'.windows, p, LogAt(w', p)) {
      assert LogGood(net, w.made, w.windows, p, LogAt(w, p));
    }
  }

  lemma ReadBegins(net: Net, w: World, p: Place, id: string)
    requires Agreed(net, w) && ReadRaw(LogAt(w, p), id).Success?
    ensures var (entry, bytes) := ReadRaw(LogAt(w, p), id).value; Begins(w.made, p.site, entry, bytes)
  {
    ReadIsListed(LogAt(w, p), id);
    assert LogGood(net, w.made, w.windows, p, LogAt(w, p));
  }

  /** The beginning of one version's blob is never the whole blob of another: their IVs differ. */
  lemma NoMixUp(net: Net, made: map<Name, Made>, m: Name, n: Name, bytes: Bytes)
    requires MadeOK(net, made) && m in made && n in made && m != n && bytes <= made[n].raw
    ensures bytes != made[m].raw
  {
    var lo, hi := |Aes.MAGIC| + 1, Aes.HEADER_SIZE;
    assert made[m].raw[lo..hi] == made[m].iv;
    assert made[n].raw[lo..hi] == made[n].iv;
    assert |bytes| >= hi ==> bytes[lo..hi] == made[n].raw[lo..hi];
  }

  lemma ReadIff(net: Net, w: World, a: Action)
    requires Agreed(net, w) && Enabled(net, w, a) && (a.SendBlob? || a.Serve?)
    ensures Agreed(net, Next(net, w, a)) <==> !Hazard(w, a)
  {
    var p := if a.SendBlob? then Own(a.site) else a.glimpse.place;
    var id := if a.SendBlob? then a.id else a.glimpse.asked;
    ReadIsListed(LogAt(w, p), id);
    ReadBegins(net, w, p, id);
    var (entry, bytes) := ReadRaw(LogAt(w, p), id).value;
    FullIsGenuine(net, w.made, p.site, entry, bytes);
    match a
    case SendBlob(s, to, _) =>
      WireIff(net, w, Transfer(to, s, entry, bytes));
    case Serve(g) =>
      assert Begins(w.made, p.site, g.entry, []);
      if entry.versionID != g.entry.versionID {
        NoMixUp(net, w.made, Name(p.site, g.entry.versionID), Name(p.site, entry.versionID), bytes);
      }
      WireIff(net, w, Transfer(p.site.node, p.site, g.entry, bytes));
  }

  lemma FoundBegins(net: Net, w: World, p: Place, id: string)
    requires Agreed(net, w) && Resolve(LogAt(w, p).versions, LogAt(w, p).latest, id).Success?
    ensures var entry := Resolve(LogAt(w, p).versions, LogAt(w, p).latest, id).value;
            Begins(w.made, p.site, entry, []) && (id != "" ==> entry.versionID == id)
  {
    var h := LogAt(w, p);
    var entry := Resolve(h.versions, h.latest, id).value;
    assert LogGood(net, w.made, w.windows, p, h);
    assert entry in h.versions;
    assert Begins(w.made, p.site, entry, h.blobs[entry.versionID]);
  }

  lemma GlimpseKeeps(net: Net, w: World, g: Glimpse)
    requires Agreed(net, w) && Begins(w.made, g.place.site, g.entry, [])
    requires (g.asked != "" ==> g.entry.versionID == g.asked)
    ensures Agreed(net, w.(glimpses := w.glimpses + {g}))
  {
    SameLogs(net, w, w.(glimpses := w.glimpses + {g}));
  }

  lemma LookUpKeeps(net: Net, w: World, p: Place, id: string)
    requires Agreed(net, w) && Enabled(net, w, LookUp(p, id))
    ensures Agreed(net, Next(net, w, LookUp(p, id)))
  {
    FoundBegins(net, w, p, id);
    GlimpseKeeps(net, w, Glimpse(p, id, Resolve(LogAt(w, p).versions, LogAt(w, p).latest, id).value));
  }

  lemma ShareSentKeeps(net: Net, w: World, a: Action)
    requires Agreed(net, w) && a.SendReadable? && Enabled(net, w, a)
    ensures Agreed(net, Next(net, w, a))
  {
    SameLogs(net, w, Next(net, w, a));
  }

  lemma AcceptKeeps(net: Net, w: World, share: Share, n: nat, id: string, at: int, iv: Bytes)
    requires Agreed(net, w) && Enabled(net, w, AcceptShare(share, n, id, at, iv))
    ensures Agreed(net, Next(net, w, AcceptShare(share, n, id, at, iv)))
  {
    var s := Site(share.to, share.key);
    var arrived := Prefix(Prefix(share.plain, share.size), n);
    CreateKeeps(net, w, s, id, at, share.message, arrived, iv);
    var m := Minted(net, w, s, id, at, share.message, arrived, iv);
    var win := Window(Own(s), m.entry, m.raw, |arrived|, share.size, Some(share.source));
    OpeningKeeps(net, Creating(net, w, s, id, at, share.message, arrived, iv), win);
  }

  lemma CheckKeeps(net: Net, w: World, win: Window)
    requires Agreed(net, w) && win in w.windows
    ensures Agreed(net, Next(net, w, Check(win)))
  {
    if Short(win) {
      DropKeeps(net, w, Next(net, w, Check(win)), win.place, win.entry.versionID);
    } else {
      ConfirmKeeps(net, w, win);
    }
  }

  lemma ListedIsMade(net: Net, w: World, p: Place, id: string)
    requires Agreed(net, w) && id in Ids(LogAt(w, p).versions)
    ensures Name(p.site, id) in w.made && MadeOK(net, w.made) && w.made[Name(p.site, id)].entry.versionID == id != ""
  {
    assert LogGood(net, w.made, w.windows, p, LogAt(w, p));
    var e :| e in LogAt(w, p).versions && e.versionID == id;
    assert Begins(w.made, p.site, e, LogAt(w, p).blobs[id]);
  }

  lemma OwnLogIsFresh(net: Net, w: World, op: Op)
    requires Agreed(net, w) && op.Write? && NewlyDrawn(w, op.id, op.iv)
    ensures var h := LogAt(w, Own(op.site)); WellFormed(h, net.max(op.site.node)) && Complete(h) && Fresh(op, h)
  {
    assert LogGood(net, w.made, w.windows, Own(op.site), LogAt(w, Own(op.site)));
    if op.id in Ids(LogAt(w, Own(op.site)).versions) {
      ListedIsMade(net, w, Own(op.site), op.id);
      assert false;
    }
  }

  // ---- The theorems ----

  /** One step keeps agreement if and only if it is not a hazard. */
  lemma StepKeepsAgreementIff(net: Net, w: World, a: Action)
    requires Agreed(net, w) && Enabled(net, w, a)
    ensures Agreed(net, Next(net, w, a)) <==> !Hazard(w, a)
  {
    match a
    case Create(s, id, at, message, plain, iv) => CreateKeeps(net, w, s, id, at, message, plain, iv);
    case SendBlob(_, _, _) => ReadIff(net, w, a);
    case LookUp(p, id) => LookUpKeeps(net, w, p, id);
    case Serve(_) => ReadIff(net, w, a);
    case Receive(t, arrived) => ReceiveKeeps(net, w, t, arrived, Next(net, w, a));
    case Abort(t, arrived) => AbortIff(net, w, t, arrived);
    case SendReadable(_, _, _, _, _) => ShareSentKeeps(net, w, a);
    case AcceptShare(share, n, id, at, iv) => AcceptKeeps(net, w, share, n, id, at, iv);
    case Check(win) => CheckKeeps(net, w, win);
    case Drop(p, id) => DropKeeps(net, w, Next(net, w, a), p, id);
    case DropEverything(p) => DropEverythingKeeps(net, w, p);
  }

  /** A run of the network from a world in which nothing has happened yet. */
  datatype Trail = Begin | Then(before: Trail, action: Action)

  /** Every step could be taken where it was. */
  ghost predicate Possible(net: Net, trail: Trail)
    decreases trail, 0
  {
    match trail
    case Begin => true
    case Then(before, a) => Possible(net, before) && Enabled(net, After(net, before), a)
  }

  ghost function After(net: Net, trail: Trail): World
    requires Possible(net, trail)
    decreases trail, 1
  {
    match trail
    case Begin => START
    case Then(before, a) => Next(net, After(net, before), a)
  }

  ghost predicate Harmless(net: Net, trail: Trail)
    requires Possible(net, trail)
  {
    match trail
    case Begin => true
    case Then(before, a) => Harmless(net, before) && !Hazard(After(net, before), a)
  }

  /** A possible run in which no step was a hazard. */
  ghost predicate Safe(net: Net, trail: Trail) {
    Possible(net, trail) && Harmless(net, trail)
  }

  lemma StartAgrees(net: Net)
    ensures Agreed(net, START)
  {
    forall p ensures LogGood(net, START.made, START.windows, p, LogAt(START, p)) { }
  }

  lemma {:induction false} SafeTrailsAgree(net: Net, trail: Trail)
    requires Safe(net, trail)
    ensures Agreed(net, After(net, trail))
  {
    match trail
    case Begin =>
      StartAgrees(net);
    case Then(before, a) =>
      SafeTrailsAgree(net, before);
      StepKeepsAgreementIff(net, After(net, before), a);
  }

  /**
   * Replica agreement. After any run without hazards, any two nodes that list a version of the same
   * logical file, neither being about to undo a short transfer of it, hold identical metadata and
   * identical blobs: those the origin produced, of length SizeBytes plus the cipher's overhead.
   */
  lemma ReplicasAgree(net: Net, trail: Trail, p: Place, q: Place, e: VersionEntry, f: VersionEntry)
    requires Safe(net, trail)
    requires var w := After(net, trail);
             e in LogAt(w, p).versions && f in LogAt(w, q).versions && p.site == q.site && e.versionID == f.versionID
             && !Unsettled(w.windows, p, e.versionID) && !Unsettled(w.windows, q, e.versionID)
    ensures var w := After(net, trail);
            Name(p.site, e.versionID) in w.made
            && var m := w.made[Name(p.site, e.versionID)];
               e == f == m.entry
               && ReadRaw(LogAt(w, p), e.versionID) == ReadRaw(LogAt(w, q), e.versionID) == Success((m.entry, m.raw))
               && |m.raw| == e.sizeBytes + Aes.HEADER_SIZE
  {
    var w := After(net, trail);
    SafeTrailsAgree(net, trail);
    HoldsOriginal(net, w, p, e);
    HoldsOriginal(net, w, q, f);
  }

  lemma HoldsOriginal(net: Net, w: World, p: Place, e: VersionEntry)
    requires Agreed(net, w) && e in LogAt(w, p).versions && !Unsettled(w.windows, p, e.versionID)
    ensures Name(p.site, e.versionID) in w.made
    ensures var m := w.made[Name(p.site, e.versionID)];
            e == m.entry && ReadRaw(LogAt(w, p), e.versionID) == Success((e, m.raw)) && FullLength(e, m.raw)
  {
    var h := LogAt(w, p);
    assert LogGood(net, w.made, w.windows, p, h);
    assert EntrySettled(w.made, w.windows, p, h, e);
    assert e.versionID in Ids(h.versions);
    FindsItself(h.versions, e);
    FullIsGenuine(net, w.made, p.site, e, h.blobs[e.versionID]);
  }

  /**
   * A receiver answers OK only when every byte of the origin's blob, under the origin's metadata, was
   * on its disk as its write returned.
   */
  lemma AcksAreSound(net: Net, trail: Trail, k: Ack)
    requires Safe(net, trail) && k in After(net, trail).acks
    ensures Genuine(After(net, trail).made, k.place.site, k.entry, k.stored)
    ensures FullLength(k.entry, k.stored)
  {
    var w := After(net, trail);
    SafeTrailsAgree(net, trail);
    FullIsGenuine(net, w.made, k.place.site, k.entry, k.stored);
  }
}
