/**
 * What holds in every run whatever, also when a latest was served after it had changed: listed metadata is true,
 * and every blob is a beginning of the blob of some version of the same file.
 */
module EveryRun {
  import opened Base
  import opened Versions
  import opened Layout
  import opened Histories
  import opened Transfers
  import opened Protocol
  import opened Agreement
  import Aes

  ghost predicate EntryTrue(made: map<Name, Made>, s: Site, e: VersionEntry) {
    Name(s, e.versionID) in made && made[Name(s, e.versionID)].entry == e
  }

  /** A beginning of the blob of some version of the file. */
  ghost predicate FromSome(made: map<Name, Made>, s: Site, bytes: Bytes) {
    exists n :: n in made && n.site == s && bytes <= made[n].raw
  }

  ghost predicate RoughHistory(made: map<Name, Made>, s: Site, max: int, h: History) {
    && WellFormed(h, max) && Complete(h)
    && (forall e <- h.versions :: EntryTrue(made, s, e))
    && (forall x <- h.blobs :: FromSome(made, s, h.blobs[x]))
  }

  ghost predicate LogsRough(net: Net, w: World) {
    forall p: Place :: RoughHistory(w.made, p.site, net.max(p.holder), LogAt(w, p))
  }

  ghost predicate RecordsRough(made: map<Name, Made>, wires: set<Transfer>, glimpses: set<Glimpse>) {
    && (forall t <- wires :: EntryTrue(made, t.site, t.entry) && FromSome(made, t.site, t.bytes))
    && (forall g <- glimpses :: EntryTrue(made, g.place.site, g.entry))
  }

  ghost predicate Rough(net: Net, w: World) {
    MadeOK(net, w.made) && LogsRough(net, w) && RecordsRough(w.made, w.wires, w.glimpses)
  }

  // ---- One operation ----

  /** After an operation every entry and every blob was there before, or is the one the operation stores. */
  lemma OpAdds(c: Cipher, max: int, op: Op, h: History, h': History)
    requires h' == Step(c, max, op, h)
    ensures forall e <- h'.versions ::
              e in h.versions || ((op.Write? || op.WriteRaw?) && e == StoredEntry(op, h.versions))
    ensures forall x <- h'.blobs ::
              (x in h.blobs && h'.blobs[x] == h.blobs[x])
              || ((op.Write? || op.WriteRaw?) && h'.blobs[x] == StoredBlob(c, op))
  {
    match op
    case DropVersion(_, id) => WithoutKeeps(h.versions, id);
    case DropAll(_) =>
    case Write(_, _, _, _, _, _, _) =>
    case WriteRaw(_, meta, _, _) => UpsertMeans(h.versions, meta);
  }

  lemma OpKeepsRough(made: map<Name, Made>, s: Site, c: Cipher, max: int, op: Op, h: History, h': History)
    requires RoughHistory(made, s, max, h) && Fresh(op, h) && h' == Step(c, max, op, h)
    requires op.Write? || op.WriteRaw? ==>
               EntryTrue(made, s, StoredEntry(op, h.versions)) && FromSome(made, s, StoredBlob(c, op))
    ensures RoughHistory(made, s, max, h')
  {
    StepWellFormed(c, max, op, h);
    OpAdds(c, max, op, h, h');
  }

  lemma RoughGrows(made: map<Name, Made>, n: Name, m: Made, s: Site, max: int, h: History)
    requires n !in made && RoughHistory(made, s, max, h)
    ensures RoughHistory(made[n := m], s, max, h)
  {
    forall x | x in h.blobs ensures FromSome(made[n := m], s, h.blobs[x]) {
      SomeGrows(made, n, m, s, h.blobs[x]);
    }
  }

  lemma SomeGrows(made: map<Name, Made>, n: Name, m: Made, s: Site, bytes: Bytes)
    requires n !in made && FromSome(made, s, bytes)
    ensures FromSome(made[n := m], s, bytes)
  {
    var k :| k in made && k.site == s && bytes <= made[k].raw;
    assert k in made[n := m] && bytes <= made[n := m][k].raw;
  }

  lemma RoughRecordsGrow(made: map<Name, Made>, n: Name, m: Made, wires: set<Transfer>, glimpses: set<Glimpse>)
    requires n !in made && RecordsRough(made, wires, glimpses)
    ensures RecordsRough(made[n := m], wires, glimpses)
  {
    forall t | t in wires ensures FromSome(made[n := m], t.site, t.bytes) {
      SomeGrows(made, n, m, t.site, t.bytes);
    }
  }

  // ---- One step ----

  lemma OneRoughLog(net: Net, w: World, p: Place, h: History, w': World)
    requires Rough(net, w) && RoughHistory(w.made, p.site, net.max(p.holder), h)
    requires w'.logs == w.logs[p := h] && w'.made == w.made && w'.wires == w.wires && w'.glimpses == w.glimpses
    ensures Rough(net, w')
  {
    forall q: Place ensures RoughHistory(w'.made, q.site, net.max(q.holder), LogAt(w', q)) {
      assert RoughHistory(w.made, q.site, net.max(q.holder), LogAt(w, q));
    }
  }

  lemma NoRoughLog(net: Net, w: World, w': World)
    requires Rough(net, w) && w'.logs == w.logs && w'.made == w.made && RecordsRough(w.made, w'.wires, w'.glimpses)
    ensures Rough(net, w')
  {
    forall q: Place ensures RoughHistory(w'.made, q.site, net.max(q.holder), LogAt(w', q)) {
      assert RoughHistory(w.made, q.site, net.max(q.holder), LogAt(w, q));
    }
  }

  lemma NewIsFresh(net: Net, w: World, s: Site, op: Op)
    requires Rough(net, w) && op.Write? && NewlyDrawn(w, op.id, op.iv)
    ensures Fresh(op, LogAt(w, Own(s)))
  {
    var h := LogAt(w, Own(s));
    assert RoughHistory(w.made, s, net.max(s.node), h);
    forall e | e in h.versions ensures e.versionID != op.id {
      assert EntryTrue(w.made, s, e);
    }
  }

  lemma MintedFromSome(made: map<Name, Made>, s: Site, op: Op, h: History, m: Made)
    requires op.Write? && op.site == s && m.entry == NewEntry(op, h.versions)
    ensures var made' := made[Name(s, op.id) := m]; EntryTrue(made', s, m.entry) && FromSome(made', s, m.raw)
  {
    assert Name(s, op.id) in made[Name(s, op.id) := m] && Name(s, op.id).site == s;
  }

  lemma LogsGrowRough(net: Net, w: World, n: Name, m: Made, p: Place, h: History, w': World)
    requires LogsRough(net, w) && n !in w.made && RoughHistory(w.made[n := m], p.site, net.max(p.holder), h)
    requires w'.logs == w.logs[p := h] && w'.made == w.made[n := m]
    ensures LogsRough(net, w')
  {
    forall q: Place ensures RoughHistory(w'.made, q.site, net.max(q.holder), LogAt(w', q)) {
      if q != p {
        assert RoughHistory(w.made, q.site, net.max(q.holder), LogAt(w, q));
        RoughGrows(w.made, n, m, q.site, net.max(q.holder), LogAt(w, q));
      }
    }
  }

  lemma CreatedLogIsRough(net: Net, w: World, s: Site, op: Op, m: Made, h': History)
    requires Rough(net, w) && op.Write? && op.site == s && NewlyDrawn(w, op.id, op.iv)
    requires m.entry == NewEntry(op, LogAt(w, Own(s)).versions)
    requires op.clean && m.raw == StoredBlob(CipherOf(net, Own(s)), op) && h' == Do(net, Own(s), op, LogAt(w, Own(s)))
    ensures RoughHistory(w.made[Name(s, op.id) := m], s, net.max(s.node), h')
  {
    var n, p, h := Name(s, op.id), Own(s), LogAt(w, Own(s));
    NewIsFresh(net, w, s, op);
    assert RoughHistory(w.made, s, net.max(s.node), h);
    RoughGrows(w.made, n, m, s, net.max(s.node), h);
    MintedFromSome(w.made, s, op, h, m);
    OpKeepsRough(w.made[n := m], s, CipherOf(net, p), net.max(s.node), op, h, h');
  }

  lemma CreatingIsRough(net: Net, w: World, s: Site, id: string, at: int, message: string, plain: Bytes, iv: Bytes,
                        w': World)
    requires Rough(net, w) && NewlyDrawn(w, id, iv)
    requires w'.logs == Creating(net, w, s, id, at, message, plain, iv).logs
    requires w'.made == Creating(net, w, s, id, at, message, plain, iv).made
    requires w'.wires == w.wires && w'.glimpses == w.glimpses
    ensures Rough(net, w')
  {
    var op, m := Write(s, id, at, message, plain, iv, true), Minted(net, w, s, id, at, message, plain, iv);
    var h' := Do(net, Own(s), op, LogAt(w, Own(s)));
    MintedOK(net, w, s, id, at, message, plain, iv);
    CreatedLogIsRough(net, w, s, op, m, h');
    RoughRecordsGrow(w.made, Name(s, id), m, w.wires, w.glimpses);
    LogsGrowRough(net, w, Name(s, id), m, Own(s), h', w');
  }

  /** Steps that carry out an operation other than a local write. */
  lemma OpIsRough(net: Net, w: World, p: Place, op: Op, w': World)
    requires Rough(net, w) && !op.Write? && op.site == p.site
    requires op.WriteRaw? ==> EntryTrue(w.made, p.site, op.meta) && FromSome(w.made, p.site, op.data)
    requires w'.logs == w.logs[p := Do(net, p, op, LogAt(w, p))]
    requires w'.made == w.made && w'.wires == w.wires && w'.glimpses == w.glimpses
    ensures Rough(net, w')
  {
    assert RoughHistory(w.made, p.site, net.max(p.holder), LogAt(w, p));
    OpKeepsRough(w.made, p.site, CipherOf(net, p), net.max(p.holder), op, LogAt(w, p), LogAt(w', p));
    OneRoughLog(net, w, p, LogAt(w', p), w');
  }

  lemma ShorterFromSome(made: map<Name, Made>, s: Site, bytes: Bytes, part: Bytes)
    requires FromSome(made, s, bytes) && part <= bytes
    ensures FromSome(made, s, part)
  {
    var n :| n in made && n.site == s && bytes <= made[n].raw;
    assert part <= made[n].raw;
  }

  lemma ReadIsRough(net: Net, w: World, p: Place, id: string)
    requires Rough(net, w) && ReadRaw(LogAt(w, p), id).Success?
    ensures var (entry, bytes) := ReadRaw(LogAt(w, p), id).value;
            EntryTrue(w.made, p.site, entry) && FromSome(w.made, p.site, bytes)
  {
    ReadIsListed(LogAt(w, p), id);
    assert RoughHistory(w.made, p.site, net.max(p.holder), LogAt(w, p));
  }

  lemma WiredIsRough(net: Net, w: World, t: Transfer, w': World)
    requires Rough(net, w) && EntryTrue(w.made, t.site, t.entry) && FromSome(w.made, t.site, t.bytes)
    requires w' == w.(wires := w.wires + {t})
    ensures Rough(net, w')
  {
    NoRoughLog(net, w, w');
  }

  lemma GlimpsedIsRough(net: Net, w: World, g: Glimpse, w': World)
    requires Rough(net, w) && EntryTrue(w.made, g.place.site, g.entry) && w' == w.(glimpses := w.glimpses + {g})
    ensures Rough(net, w')
  {
    NoRoughLog(net, w, w');
  }

  lemma SendingIsRough(net: Net, w: World, a: Action, w': World)
    requires Rough(net, w) && Enabled(net, w, a) && (a.SendBlob? || a.Serve?) && w' == Next(net, w, a)
    ensures Rough(net, w')
  {
    if a.SendBlob? {
      var (entry, bytes) := ReadRaw(LogAt(w, Own(a.site)), a.id).value;
      ReadIsRough(net, w, Own(a.site), a.id);
      WiredIsRough(net, w, Transfer(a.to, a.site, w.made[Name(a.site, a.id)].entry, bytes), w');
    } else {
      var p := a.glimpse.place;
      ReadIsRough(net, w, p, a.glimpse.asked);
      var (entry, bytes) := ReadRaw(LogAt(w, p), a.glimpse.asked).value;
      WiredIsRough(net, w, Transfer(p.site.node, p.site, a.glimpse.entry, bytes), w');
    }
  }

  lemma LookingUpIsRough(net: Net, w: World, p: Place, id: string, w': World)
    requires Rough(net, w) && Enabled(net, w, LookUp(p, id)) && w' == Next(net, w, LookUp(p, id))
    ensures Rough(net, w')
  {
    var h := LogAt(w, p);
    assert RoughHistory(w.made, p.site, net.max(p.holder), h);
    GlimpsedIsRough(net, w, Glimpse(p, id, Resolve(h.versions, h.latest, id).value), w');
  }

  lemma StoringIsRough(net: Net, w: World, t: Transfer, arrived: nat, clean: bool, w': World)
    requires Rough(net, w) && t in w.wires
    requires w' == Next(net, w, if clean then Receive(t, arrived) else Abort(t, arrived))
    ensures Rough(net, w')
  {
    ShorterFromSome(w.made, t.site, t.bytes, Prefix(t.bytes, arrived));
    StepIsOp(net, w, if clean then Receive(t, arrived) else Abort(t, arrived), w');
    OpIsRough(net, w, Place(t.to, t.site), Put(t, arrived, clean), w');
  }

  lemma RemovingIsRough(net: Net, w: World, a: Action, w': World)
    requires Rough(net, w) && Enabled(net, w, a) && (a.Check? || a.Drop? || a.DropEverything?) && w' == Next(net, w, a)
    ensures Rough(net, w')
  {
    StepIsOp(net, w, a, w');
    if OpOf(w, a).Some? {
      OpIsRough(net, w, OpOf(w, a).value.0, OpOf(w, a).value.1, w');
    } else {
      NoRoughLog(net, w, w');
    }
  }

  lemma StepKeepsRough(net: Net, w: World, a: Action, w': World)
    requires Rough(net, w) && Enabled(net, w, a) && w' == Next(net, w, a)
    ensures Rough(net, w')
  {
    match a
    case Create(s, id, at, message, plain, iv) => CreatingIsRough(net, w, s, id, at, message, plain, iv, w');
    case AcceptShare(share, n, id, at, iv) =>
      var arrived := Prefix(Prefix(share.plain, share.size), n);
      CreatingIsRough(net, w, Site(share.to, share.key), id, at, share.message, arrived, iv, w');
    case Receive(t, arrived) => StoringIsRough(net, w, t, arrived, true, w');
    case Abort(t, arrived) => StoringIsRough(net, w, t, arrived, false, w');
    case Check(_) => RemovingIsRough(net, w, a, w');
    case Drop(_, _) => RemovingIsRough(net, w, a, w');
    case DropEverything(_) => RemovingIsRough(net, w, a, w');
    case LookUp(p, id) => LookingUpIsRough(net, w, p, id, w');
    case SendReadable(_, _, _, _, _) => NoRoughLog(net, w, w');
    case SendBlob(_, _, _) => SendingIsRough(net, w, a, w');
    case Serve(_) => SendingIsRough(net, w, a, w');
  }

  // ---- The theorems ----

  lemma {:induction false} EveryRunIsRough(net: Net, trail: Trail)
    requires Possible(net, trail)
    ensures Rough(net, After(net, trail))
  {
    match trail
    case Begin =>
      forall p: Place ensures RoughHistory(START.made, p.site, net.max(p.holder), LogAt(START, p)) { }
    case Then(before, a) =>
      EveryRunIsRough(net, before);
      StepKeepsRough(net, After(net, before), a, After(net, trail));
  }

  /**
   * In every run whatever, what any node lists of a file is a version of that file with its true metadata, and its
   * blob is a beginning of the blob of a version of that file, though perhaps of another one.
   */
  lemma CopiesBeginSome(net: Net, trail: Trail, p: Place, e: VersionEntry)
    requires Possible(net, trail) && e in LogAt(After(net, trail), p).versions
    ensures EntryTrue(After(net, trail).made, p.site, e)
    ensures e.versionID in LogAt(After(net, trail), p).blobs
    ensures FromSome(After(net, trail).made, p.site, LogAt(After(net, trail), p).blobs[e.versionID])
  {
    EveryRunIsRough(net, trail);
    assert RoughHistory(After(net, trail).made, p.site, net.max(p.holder), LogAt(After(net, trail), p));
    assert e.versionID in Ids(LogAt(After(net, trail), p).versions);
  }

  /** What a peer can answer in any run: true metadata, and some beginning of some blob of the file. */
  ghost predicate RoughAnswer(made: map<Name, Made>, s: Site, a: Answer) {
    a.Found? ==> EntryTrue(made, s, a.entry) && FromSome(made, s, a.delivered)
  }

  /** Whatever part of any transfer under way arrives is such an answer. */
  lemma ArrivingIsRough(net: Net, trail: Trail, t: Transfer, n: nat, clean: bool)
    requires Possible(net, trail) && t in After(net, trail).wires
    ensures RoughAnswer(After(net, trail).made, t.site, Found(t.entry, |t.bytes|, Prefix(t.bytes, n), clean))
  {
    EveryRunIsRough(net, trail);
    ShorterFromSome(After(net, trail).made, t.site, t.bytes, Prefix(t.bytes, n));
  }

  lemma FetchKeepsRough(net: Net, made: map<Name, Made>, s: Site, c: Cipher, max: int, h: History, a: Answer)
    requires MadeOK(net, made) && RoughHistory(made, s, max, h) && RoughAnswer(made, s, a)
    ensures RoughHistory(made, s, max, Fetch(c, max, s, h, a).0)
  {
    if a.Found? {
      var op := FetchOp(s, a);
      var h1 := Step(c, max, op, h);
      ShorterFromSome(made, s, a.delivered, Arrived(a));
      OpKeepsRough(made, s, c, max, op, h, h1);
      var undo := DropVersion(s, a.entry.versionID);
      OpKeepsRough(made, s, c, max, undo, h1, Step(c, max, undo, h1));
    }
  }

  lemma {:induction false} LoopKeepsRough(net: Net, made: map<Name, Made>, s: Site, c: Cipher, max: int, h: History,
                                          answers: seq<Answer>)
    requires MadeOK(net, made) && RoughHistory(made, s, max, h) && forall a <- answers :: RoughAnswer(made, s, a)
    ensures RoughHistory(made, s, max, FetchFrom(c, max, s, h, answers).0)
    decreases |answers|
  {
    if answers != [] {
      assert answers[0] in answers;
      FetchKeepsRough(net, made, s, c, max, h, answers[0]);
      var (h1, found) := Fetch(c, max, s, h, answers[0]);
      if !found {
        LoopKeepsRough(net, made, s, c, max, h1, answers[1..]);
      }
    }
  }

  lemma OpensToABeginning(ks: Aes.Keystream, iv: Bytes, plain: Bytes, blob: Bytes)
    requires |iv| == Aes.IV_SIZE && blob <= Aes.Seal(ks, iv, plain) && Decoded(Some(ks), blob).Success?
    ensures Decoded(Some(ks), blob).value <= plain
  {
    Aes.OpenCutSeal(ks, iv, plain, |blob|);
    assert Aes.Seal(ks, iv, plain)[..|blob|] == blob;
  }

  lemma RoughReads(net: Net, made: map<Name, Made>, s: Site, max: int, h: History, id: string) returns (n: Name)
    requires MadeOK(net, made) && RoughHistory(made, s, max, h) && ReadPlain(CipherOf(net, Own(s)), h, id).Success?
    ensures n in made && n.site == s && ReadPlain(CipherOf(net, Own(s)), h, id).value.1 <= made[n].plain
  {
    ReadIsListed(h, id);
    var (entry, blob) := ReadRaw(h, id).value;
    assert FromSome(made, s, blob);
    n :| n in made && n.site == s && blob <= made[n].raw;
    OpensToABeginning(net.keystream(s.node), made[n].iv, made[n].plain, blob);
  }

  /** In every run whatever, what a get returns is at worst a beginning of the plaintext of some version of the file. */
  lemma GetsSomeBeginning(net: Net, trail: Trail, s: Site, id: string, answers: seq<Answer>, h': History,
                          r: Result<(int, Bytes)>) returns (n: Name)
    requires Possible(net, trail) && forall a <- answers :: RoughAnswer(After(net, trail).made, s, a)
    requires (h', r) == Get(CipherOf(net, Own(s)), net.max(s.node), s, LogAt(After(net, trail), Own(s)), id, answers)
    ensures r.Success? ==> n in After(net, trail).made && n.site == s && r.value.1 <= After(net, trail).made[n].plain
  {
    var w, c := After(net, trail), CipherOf(net, Own(s));
    EveryRunIsRough(net, trail);
    assert RoughHistory(w.made, s, net.max(s.node), LogAt(w, Own(s)));
    LoopKeepsRough(net, w.made, s, c, net.max(s.node), LogAt(w, Own(s)), answers);
    n := Name(s, id);
    if r.Success? {
      assert r == ReadPlain(c, h', id);
      n := RoughReads(net, w.made, s, net.max(s.node), h', id);
    }
  }
}
