/** Getting a file back: exactly, after any run without hazards, and at worst a beginning of it after any steady run. */
module Recovery {
  import opened Base
  import opened Versions
  import opened Layout
  import opened Histories
  import opened Protocol
  import opened Agreement
  import opened Consistency
  import opened Transfers
  import opened Laws
  import Aes

  /** What a peer can answer: nothing, or some beginning of a whole blob it holds, promised whole. */
  ghost predicate AnswersFrom(w: World, q: Place, id: string, a: Answer) {
    a.Found? ==>
      && ReadRaw(LogAt(w, q), id).Success?
      && var (entry, bytes) := ReadRaw(LogAt(w, q), id).value;
         FullLength(entry, bytes) && a.entry == entry && a.promised == |bytes| && a.delivered <= bytes
  }

  lemma AnswersAreHonest(net: Net, w: World, q: Place, id: string, a: Answer)
    requires Agreed(net, w) && id != "" && AnswersFrom(w, q, id, a) && Name(q.site, id) in w.made
    ensures Honest(a, w.made[Name(q.site, id)].entry, w.made[Name(q.site, id)].raw)
  {
    if a.Found? {
      var (entry, bytes) := ReadRaw(LogAt(w, q), id).value;
      ReadIsListed(LogAt(w, q), id);
      ReadBegins(net, w, q, id);
      FullIsGenuine(net, w.made, q.site, entry, bytes);
    }
  }

  lemma ReadsBack(net: Net, w: World, s: Site, id: string, h: History)
    requires MadeOK(net, w.made) && Name(s, id) in w.made
    requires var m := w.made[Name(s, id)]; ReadRaw(h, id) == Success((m.entry, m.raw))
    ensures var m := w.made[Name(s, id)];
            ReadPlain(CipherOf(net, Own(s)), h, id) == Success((|m.plain|, m.plain))
  {
    var m := w.made[Name(s, id)];
    Aes.OpenSeal(net.keystream(s.node), m.iv, m.plain);
  }

  ghost predicate Answering(w: World, s: Site, id: string, peers: seq<string>, answers: seq<Answer>) {
    |peers| == |answers| && forall j :: 0 <= j < |peers| ==> AnswersFrom(w, Place(peers[j], s), id, answers[j])
  }

  /** At any moment, a version its origin lists and is not about to undo reads as what it was created from. */
  lemma ReadsWhereSettled(net: Net, w: World, s: Site, id: string)
    requires Agreed(net, w) && id in Ids(LogAt(w, Own(s)).versions) && !Unsettled(w.windows, Own(s), id)
    ensures Name(s, id) in w.made
    ensures var m := w.made[Name(s, id)];
            ReadPlain(CipherOf(net, Own(s)), LogAt(w, Own(s)), id) == Success((|m.plain|, m.plain))
  {
    var h := LogAt(w, Own(s));
    var e :| e in h.versions && e.versionID == id;
    HoldsOriginal(net, w, Own(s), e);
    ReadsBack(net, w, s, id, h);
  }

  lemma RecoversLocally(net: Net, w: World, s: Site, id: string, answers: seq<Answer>)
    requires Agreed(net, w) && id in Ids(LogAt(w, Own(s)).versions) && !Unsettled(w.windows, Own(s), id)
    ensures Name(s, id) in w.made
    ensures var m := w.made[Name(s, id)];
            Get(CipherOf(net, Own(s)), net.max(s.node), s, LogAt(w, Own(s)), id, answers).1 ==
                Success((|m.plain|, m.plain))
  {
    assert LogGood(net, w.made, w.windows, Own(s), LogAt(w, Own(s)));
    ReadsWhereSettled(net, w, s, id);
  }

  lemma AllHonest(net: Net, w: World, s: Site, id: string, peers: seq<string>, answers: seq<Answer>)
    requires Agreed(net, w) && Name(s, id) in w.made && id != "" && Answering(w, s, id, peers, answers)
    ensures forall a <- answers :: Honest(a, w.made[Name(s, id)].entry, w.made[Name(s, id)].raw)
  {
    forall a | a in answers ensures Honest(a, w.made[Name(s, id)].entry, w.made[Name(s, id)].raw) {
      var j :| 0 <= j < |answers| && answers[j] == a;
      AnswersAreHonest(net, w, Place(peers[j], s), id, a);
    }
  }

  /** A version that is not listed locally is got from the peers. */
  lemma GetFallsBack(c: Cipher, max: int, s: Site, h: History, id: string, answers: seq<Answer>)
    requires id != "" && id !in Ids(h.versions)
    ensures var (h', found) := FetchFrom(c, max, s, h, answers);
            Get(c, max, s, h, id, answers) == (h', if found then ReadPlain(c, h', id) else Failure(NoPeerHolds))
  {
    assert ReadPlain(c, h, id).Failure?;
  }

  /** A version that is not listed locally comes back whole from the first honest answer that is all there. */
  lemma RecoversFromHonest(net: Net, w: World, s: Site, id: string, answers: seq<Answer>, i: nat)
    requires Agreed(net, w) && Name(s, id) in w.made && id !in Ids(LogAt(w, Own(s)).versions)
    requires forall a <- answers :: Honest(a, w.made[Name(s, id)].entry, w.made[Name(s, id)].raw)
    requires i < |answers| && answers[i].Found? && |answers[i].delivered| == answers[i].promised
    ensures var m := w.made[Name(s, id)];
            Get(CipherOf(net, Own(s)), net.max(s.node), s, LogAt(w, Own(s)), id, answers).1 ==
                Success((|m.plain|, m.plain))
  {
    var m, h, c := w.made[Name(s, id)], LogAt(w, Own(s)), CipherOf(net, Own(s));
    assert LogGood(net, w.made, w.windows, Own(s), h);
    assert answers[i] in answers;
    GetFallsBack(c, net.max(s.node), s, h, id, answers);
    LoopRecovers(c, net.max(s.node), s, h, answers, m.entry, m.raw, i);
    ReadsBack(net, w, s, id, FetchFrom(c, net.max(s.node), s, h, answers).0);
  }

  lemma RecoversRemotely(net: Net, w: World, s: Site, id: string, peers: seq<string>, answers: seq<Answer>, i: nat)
    requires Agreed(net, w) && Name(s, id) in w.made && id !in Ids(LogAt(w, Own(s)).versions) && id != ""
    requires Answering(w, s, id, peers, answers)
    requires i < |peers| && answers[i].Found? && |answers[i].delivered| == answers[i].promised
    ensures var m := w.made[Name(s, id)];
            Get(CipherOf(net, Own(s)), net.max(s.node), s, LogAt(w, Own(s)), id, answers).1 ==
                Success((|m.plain|, m.plain))
  {
    AllHonest(net, w, s, id, peers, answers);
    RecoversFromHonest(net, w, s, id, answers, i);
  }

  /**
   * Recovery. After any run without hazards, whatever the origin has deleted, written, shared or failed to
   * fetch, asking for a version returns exactly the plaintext it was created from and its length, as soon as
   * one stream from a peer that lists it arrives whole, whichever peers are asked before and however they fail.
   */
  lemma RecoversAfterAnyRun(net: Net, trail: Trail, s: Site, id: string, peers: seq<string>, answers: seq<Answer>,
                            i: nat)
    requires Safe(net, trail) && id != "" && !Unsettled(After(net, trail).windows, Own(s), id)
    requires Answering(After(net, trail), s, id, peers, answers)
    requires i < |peers| && answers[i].Found? && |answers[i].delivered| == answers[i].promised
    ensures var w := After(net, trail);
            Name(s, id) in w.made
            && var m := w.made[Name(s, id)];
               Get(CipherOf(net, Own(s)), net.max(s.node), s, LogAt(w, Own(s)), id, answers).1 ==
                   Success((|m.plain|, m.plain))
  {
    var w := After(net, trail);
    SafeTrailsAgree(net, trail);
    ReadIsListed(LogAt(w, Place(peers[i], s)), id);
    ListedIsMade(net, w, Place(peers[i], s), id);
    if id in Ids(LogAt(w, Own(s)).versions) {
      RecoversLocally(net, w, s, id, answers);
    } else {
      RecoversRemotely(net, w, s, id, peers, answers, i);
    }
  }

  // ---- The latest version ----

  /** A fetch into an empty history that fails leaves it empty. */
  lemma FailedFetchLeavesNothing(c: Cipher, max: int, s: Site, a: Answer, h': History)
    requires (a.Found? ==> a.entry.versionID != "") && Fetch(c, max, s, EMPTY, a) == (h', false)
    ensures h' == EMPTY
  {
    if a.Found? {
      FailedTransferRestoresIff(c, max, FetchOp(s, a), a.promised, EMPTY, h', false);
    }
  }

  /** The peer tells the truth about some version of the file, and sends a beginning of its blob. */
  ghost predicate TrueOfSome(made: map<Name, Made>, s: Site, a: Answer) {
    a.Found? ==>
      && a.entry.versionID != "" && Name(s, a.entry.versionID) in made
      && Honest(a, made[Name(s, a.entry.versionID)].entry, made[Name(s, a.entry.versionID)].raw)
  }

  /** Into an empty history, the loop stores whole a version one of the peers told of, and it becomes the latest. */
  lemma {:induction false} LoopFindsOne(c: Cipher, max: int, s: Site, made: map<Name, Made>, answers: seq<Answer>,
                                        i: nat) returns (id: string)
    requires forall a <- answers :: TrueOfSome(made, s, a)
    requires i < |answers| && answers[i].Found? && |answers[i].delivered| == answers[i].promised
    ensures Name(s, id) in made
    ensures var (h', found) := FetchFrom(c, max, s, EMPTY, answers);
            found && ReadRaw(h', "") == Success((made[Name(s, id)].entry, made[Name(s, id)].raw))
    decreases |answers|
  {
    assert answers[0] in answers;
    var (h1, found) := Fetch(c, max, s, EMPTY, answers[0]);
    if found {
      id := answers[0].entry.versionID;
      assert Arrived(answers[0]) == made[Name(s, id)].raw;
      StoredIsRead(c, max, FetchOp(s, answers[0]), EMPTY);
    } else {
      assert answers[i] in answers;
      FailedFetchLeavesNothing(c, max, s, answers[0], h1);
      id := LoopFindsOne(c, max, s, made, answers[1..], i - 1);
    }
  }

  lemma LatestIsTrue(net: Net, w: World, q: Place, a: Answer)
    requires Agreed(net, w) && AnswersFrom(w, q, "", a)
    ensures TrueOfSome(w.made, q.site, a)
  {
    if a.Found? {
      var (entry, bytes) := ReadRaw(LogAt(w, q), "").value;
      ReadIsListed(LogAt(w, q), "");
      ReadBegins(net, w, q, "");
      FullIsGenuine(net, w.made, q.site, entry, bytes);
    }
  }

  lemma AllLatestTrue(net: Net, w: World, s: Site, peers: seq<string>, answers: seq<Answer>)
    requires Agreed(net, w) && Answering(w, s, "", peers, answers)
    ensures forall a <- answers :: TrueOfSome(w.made, s, a)
  {
    forall a | a in answers ensures TrueOfSome(w.made, s, a) {
      var j :| 0 <= j < |answers| && answers[j] == a;
      LatestIsTrue(net, w, Place(peers[j], s), a);
    }
  }

  /** What the latest of a log reads as, where it is settled. */
  lemma LatestReads(net: Net, w: World, s: Site, h: History)
    requires Agreed(net, w) && h == LogAt(w, Own(s)) && h.versions != [] && !Unsettled(w.windows, Own(s), h.latest)
    ensures h.latest != "" && Name(s, h.latest) in w.made
    ensures var m := w.made[Name(s, h.latest)]; ReadPlain(CipherOf(net, Own(s)), h, "") == Success((|m.plain|, m.plain))
  {
    assert LogGood(net, w.made, w.windows, Own(s), h);
    ReadsWhereSettled(net, w, s, h.latest);
    assert ReadRaw(h, "") == ReadRaw(h, h.latest);
  }

  lemma NothingIsEmpty(net: Net, w: World, p: Place)
    requires Agreed(net, w) && LogAt(w, p).versions == []
    ensures LogAt(w, p) == EMPTY
  {
    assert LogGood(net, w.made, w.windows, p, LogAt(w, p));
    assert LogAt(w, p).blobs == map[];
  }

  /**
   * Recovery of the latest. After any run without hazards, asking for a file without naming a version returns
   * exactly the plaintext, and its length, of a version of that file: the latest this node lists, if it lists any
   * and is not about to undo it; otherwise, as soon as one peer's stream arrives whole, one that a peer called its
   * latest.
   */
  lemma RecoversLatest(net: Net, trail: Trail, s: Site, peers: seq<string>, answers: seq<Answer>, i: nat, h: History)
    returns (id: string)
    requires Safe(net, trail) && h == LogAt(After(net, trail), Own(s))
    requires Answering(After(net, trail), s, "", peers, answers)
    requires h.versions != [] ==> !Unsettled(After(net, trail).windows, Own(s), h.latest)
    requires h.versions == [] ==> i < |answers| && answers[i].Found? && |answers[i].delivered| == answers[i].promised
    ensures Name(s, id) in After(net, trail).made && (h.versions != [] ==> id == h.latest)
    ensures var m := After(net, trail).made[Name(s, id)];
            Get(CipherOf(net, Own(s)), net.max(s.node), s, h, "", answers).1 == Success((|m.plain|, m.plain))
  {
    var w, c := After(net, trail), CipherOf(net, Own(s));
    SafeTrailsAgree(net, trail);
    if h.versions != [] {
      LatestReads(net, w, s, h);
      id := h.latest;
    } else {
      NothingIsEmpty(net, w, Own(s));
      AllLatestTrue(net, w, s, peers, answers);
      id := LoopFindsOne(c, net.max(s.node), s, w.made, answers, i);
      var m := w.made[Name(s, id)];
      Aes.OpenSeal(net.keystream(s.node), m.iv, m.plain);
    }
  }

  // ---- With other steps in between ----

  /** The operation takes a version off the list: by deleting it, or because retention drops it. */
  predicate Unlists(max: int, op: Op, versions: seq<VersionEntry>, id: string) {
    match op
    case DropVersion(_, x) => x == id
    case DropAll(_) => true
    case Write(_, _, _, _, _, _, clean) => clean && id in Ids(Dropped(max, StoredList(op, versions)))
    case WriteRaw(_, meta, _, clean) =>
      clean && meta.versionID != "" && id in Ids(Dropped(max, StoredList(op, versions)))
  }

  lemma OnlyUnlistedByThat(c: Cipher, max: int, op: Op, h: History, id: string)
    requires WellFormed(h, max) && id in Ids(h.versions) && !Unlists(max, op, h.versions, id)
    ensures id in Ids(Step(c, max, op, h).versions)
  {
    match op
    case DropVersion(_, x) =>
      WithoutMeans(h.versions, x);
    case DropAll(_) =>
    case _ =>
      StoredListMeans(op, h.versions);
      PrunedMeans(max, StoredList(op, h.versions));
  }

  /** A step takes a version off one log; this can be seen before it is taken. */
  ghost predicate Removes(net: Net, w: World, a: Action, p: Place, id: string) {
    OpOf(w, a).Some? && OpOf(w, a).value.0 == p
        && Unlists(net.max(p.holder), OpOf(w, a).value.1, LogAt(w, p).versions, id)
  }

  lemma StaysListed(net: Net, w: World, a: Action, p: Place, id: string, w': World)
    requires Consistent(net, w) && Enabled(net, w, a) && w' == Next(net, w, a)
    requires id in Ids(LogAt(w, p).versions) && !Removes(net, w, a, p, id)
    ensures id in Ids(LogAt(w', p).versions)
  {
    StepIsOp(net, w, a, w');
    assert LogOK(net, w.made, p, LogAt(w, p));
    if OpOf(w, a).Some? {
      OpKeepsListed(net, p, OpOf(w, a).value.0, OpOf(w, a).value.1, w, w', id);
    }
  }

  lemma OpKeepsListed(net: Net, p: Place, q: Place, op: Op, w: World, w': World, id: string)
    requires w'.logs == w.logs[q := Do(net, q, op, LogAt(w, q))]
    requires WellFormed(LogAt(w, p), net.max(p.holder)) && id in Ids(LogAt(w, p).versions)
    requires q == p ==> !Unlists(net.max(p.holder), op, LogAt(w, p).versions, id)
    ensures id in Ids(LogAt(w', p).versions)
  {
    if q == p {
      OnlyUnlistedByThat(CipherOf(net, p), net.max(p.holder), op, LogAt(w, p), id);
    }
  }

  /** Since that moment of the run no step has taken the version off the log. */
  ghost predicate Undisturbed(net: Net, longer: Trail, trail: Trail, p: Place, id: string)
    requires Possible(net, longer)
  {
    longer == trail
    || (longer.Then? && Undisturbed(net, longer.before, trail, p, id)
        && !Removes(net, After(net, longer.before), longer.action, p, id))
  }

  lemma {:induction false} StaysListedThroughout(net: Net, longer: Trail, trail: Trail, p: Place, id: string)
    requires Possible(net, longer) && Steady(net, longer) && Possible(net, trail)
    requires Undisturbed(net, longer, trail, p, id) && id in Ids(LogAt(After(net, trail), p).versions)
    ensures id in Ids(LogAt(After(net, longer), p).versions)
  {
    if longer != trail {
      StaysListedThroughout(net, longer.before, trail, p, id);
      SteadyTrailsAreConsistent(net, longer.before);
      StaysListed(net, After(net, longer.before), longer.action, p, id, After(net, longer));
    }
  }

  /**
   * Whenever a node lists a version that it is not about to undo, whatever has happened since it looked the
   * version up, it can answer the request, the answer is no hazard, and what it sends is the origin's.
   */
  lemma CustodianCanAnswer(net: Net, trail: Trail, g: Glimpse)
    requires Safe(net, trail) && g in After(net, trail).glimpses && g.asked != ""
    requires g.asked in Ids(LogAt(After(net, trail), g.place).versions)
    requires !Unsettled(After(net, trail).windows, g.place, g.asked)
    ensures var w := After(net, trail);
            && Enabled(net, w, Serve(g)) && !Hazard(w, Serve(g))
            && Name(g.place.site, g.asked) in w.made
            && var m := w.made[Name(g.place.site, g.asked)];
               Transfer(g.place.site.node, g.place.site, m.entry, m.raw) in Next(net, w, Serve(g)).wires
  {
    var w := After(net, trail);
    SafeTrailsAgree(net, trail);
    var e :| e in LogAt(w, g.place).versions && e.versionID == g.asked;
    HoldsOriginal(net, w, g.place, e);
    assert Begins(w.made, g.place.site, g.entry, []);
  }

  lemma StoredIsListed(net: Net, p: Place, op: Op, h: History)
    requires WellFormed(h, net.max(p.holder)) && op.WriteRaw? && op.clean && op.meta.versionID != ""
    ensures op.meta.versionID in Ids(Do(net, p, op, h).versions)
  {
    StoredIsRead(CipherOf(net, p), net.max(p.holder), op, h);
  }

  lemma ReceivedIsListed(net: Net, w: World, t: Transfer, n: nat, w': World)
    requires Consistent(net, w) && t in w.wires && w' == Next(net, w, Receive(t, n))
    ensures t.entry.versionID in Ids(LogAt(w', Place(t.to, t.site)).versions)
  {
    var p := Place(t.to, t.site);
    assert LogOK(net, w.made, p, LogAt(w, p));
    assert Begins(w.made, t.site, t.entry, t.bytes);
    StoredIsListed(net, p, Put(t, n, true), LogAt(w, p));
    StepIsOp(net, w, Receive(t, n), w');
  }

  /**
   * A copy that a node has stored stays listed until a step deletes it, makes retention drop it, or undoes another
   * transfer of the same version that fell short: only these remove anything.
   */
  lemma CopyStaysListed(net: Net, trail: Trail, t: Transfer, n: nat, longer: Trail)
    requires Possible(net, longer) && Steady(net, longer) && Extends(longer, Then(trail, Receive(t, n)))
    requires Undisturbed(net, longer, Then(trail, Receive(t, n)), Place(t.to, t.site), t.entry.versionID)
    ensures t.entry.versionID in Ids(LogAt(After(net, longer), Place(t.to, t.site)).versions)
  {
    var stored := Then(trail, Receive(t, n));
    PartsOfRuns(net, longer, stored);
    SteadyTrailsAreConsistent(net, trail);
    ReceivedIsListed(net, After(net, trail), t, n, After(net, stored));
    StaysListedThroughout(net, longer, stored, Place(t.to, t.site), t.entry.versionID);
  }

  /**
   * Recovery with any steps in between. Once the origin has stored a transfer, then whatever else happens on
   * the network, as long as no step takes the version off its list, reading it at any later moment at which it
   * is not being overwritten by a short transfer gives exactly the plaintext it was created from.
   */
  lemma FetchedStaysReadable(net: Net, trail: Trail, t: Transfer, n: nat, longer: Trail)
    requires Safe(net, longer) && Extends(longer, Then(trail, Receive(t, n))) && t.to == t.site.node
    requires Undisturbed(net, longer, Then(trail, Receive(t, n)), Own(t.site), t.entry.versionID)
    requires !Unsettled(After(net, longer).windows, Own(t.site), t.entry.versionID)
    ensures Name(t.site, t.entry.versionID) in After(net, longer).made
    ensures var plain := After(net, longer).made[Name(t.site, t.entry.versionID)].plain;
            ReadPlain(CipherOf(net, Own(t.site)), LogAt(After(net, longer), Own(t.site)), t.entry.versionID) ==
                Success((|plain|, plain))
  {
    SafeIsSteady(net, longer);
    CopyStaysListed(net, trail, t, n, longer);
    SafeTrailsAgree(net, longer);
    ReadsWhereSettled(net, After(net, longer), t.site, t.entry.versionID);
  }

  // ---- In runs with hazards ----

  /** If the version is listed, then with this metadata and with a beginning of these bytes. */
  ghost predicate Begun(h: History, entry: VersionEntry, raw: Bytes) {
    && (forall e <- h.versions :: e.versionID == entry.versionID ==> e == entry)
    && (entry.versionID in h.blobs ==> h.blobs[entry.versionID] <= raw)
  }

  /** The peer sends a version's own metadata and some beginning of its blob, whatever length it promises. */
  ghost predicate PartlyHonest(a: Answer, entry: VersionEntry, raw: Bytes) {
    a.Found? ==> a.entry == entry && a.delivered <= raw
  }

  lemma StoringKeepsBegun(c: Cipher, max: int, s: Site, h: History, entry: VersionEntry, raw: Bytes, data: Bytes,
                          clean: bool, h': History)
    requires WellFormed(h, max) && entry.versionID != "" && Begun(h, entry, raw) && data <= raw
    requires h' == Step(c, max, WriteRaw(s, entry, data, clean), h)
    ensures WellFormed(h', max) && Begun(h', entry, raw)
  {
    StepWellFormed(c, max, WriteRaw(s, entry, data, clean), h);
    if clean {
      UpsertMeans(h.versions, entry);
      StepSettles(c, max, WriteRaw(s, entry, data, clean), h);
    }
  }

  lemma DroppingKeepsBegun(c: Cipher, max: int, s: Site, h: History, entry: VersionEntry, raw: Bytes, h': History)
    requires WellFormed(h, max) && Begun(h, entry, raw) && h' == Step(c, max, DropVersion(s, entry.versionID), h)
    ensures WellFormed(h', max) && Begun(h', entry, raw)
  {
    StepWellFormed(c, max, DropVersion(s, entry.versionID), h);
    WithoutKeeps(h.versions, entry.versionID);
  }

  lemma FetchKeepsBegun(c: Cipher, max: int, s: Site, h: History, a: Answer, entry: VersionEntry, raw: Bytes)
    requires WellFormed(h, max) && entry.versionID != "" && Begun(h, entry, raw) && PartlyHonest(a, entry, raw)
    ensures var h' := Fetch(c, max, s, h, a).0; WellFormed(h', max) && Begun(h', entry, raw)
  {
    if a.Found? {
      var h1 := Step(c, max, FetchOp(s, a), h);
      StoringKeepsBegun(c, max, s, h, entry, raw, Arrived(a), EndsWell(a), h1);
      DroppingKeepsBegun(c, max, s, h1, entry, raw, Step(c, max, DropVersion(s, entry.versionID), h1));
    }
  }

  lemma {:induction false} LoopKeepsBegun(c: Cipher, max: int, s: Site, h: History, answers: seq<Answer>,
                                          entry: VersionEntry, raw: Bytes)
    requires WellFormed(h, max) && entry.versionID != "" && Begun(h, entry, raw)
    requires forall a <- answers :: PartlyHonest(a, entry, raw)
    ensures var h' := FetchFrom(c, max, s, h, answers).0; WellFormed(h', max) && Begun(h', entry, raw)
    decreases |answers|
  {
    if answers != [] {
      assert answers[0] in answers;
      FetchKeepsBegun(c, max, s, h, answers[0], entry, raw);
      var (h1, found) := Fetch(c, max, s, h, answers[0]);
      if !found {
        LoopKeepsBegun(c, max, s, h1, answers[1..], entry, raw);
      }
    }
  }

  /** Whatever is read of such a history is the recorded size and a beginning of the plaintext. */
  lemma BegunReads(ks: Aes.Keystream, h: History, entry: VersionEntry, iv: Bytes, plain: Bytes)
    requires |iv| == Aes.IV_SIZE && entry.versionID != "" && Begun(h, entry, Aes.Seal(ks, iv, plain))
    requires ReadPlain(Some(ks), h, entry.versionID).Success?
    ensures var (size, read) := ReadPlain(Some(ks), h, entry.versionID).value; size == entry.sizeBytes && read <= plain
  {
    ReadIsListed(h, entry.versionID);
    var blob := h.blobs[entry.versionID];
    Aes.OpenCutSeal(ks, iv, plain, |blob|);
    assert Aes.Seal(ks, iv, plain)[..|blob|] == blob;
  }

  /** What a peer can answer in a run with hazards: it may hold a version in part and promise no more than that. */
  ghost predicate AnswersInPart(w: World, q: Place, id: string, a: Answer) {
    a.Found? ==>
      && ReadRaw(LogAt(w, q), id).Success?
      && var (entry, bytes) := ReadRaw(LogAt(w, q), id).value;
         a.entry == entry && a.promised == |bytes| && a.delivered <= bytes
  }

  lemma AnswersArePartlyHonest(net: Net, w: World, q: Place, id: string, a: Answer, m: Made)
    requires Consistent(net, w) && id != "" && AnswersInPart(w, q, id, a)
    requires Name(q.site, id) in w.made ==> w.made[Name(q.site, id)] == m
    ensures a.Found? ==> Name(q.site, id) in w.made && a.entry == m.entry && a.delivered <= m.raw
  {
    if a.Found? {
      ReadIsListed(LogAt(w, q), id);
      ReadingBegins(net, w, q, id);
    }
  }

  lemma LogIsBegun(net: Net, w: World, p: Place, id: string)
    requires Consistent(net, w) && Name(p.site, id) in w.made
    ensures var m := w.made[Name(p.site, id)];
            m.entry.versionID == id != "" && WellFormed(LogAt(w, p), net.max(p.holder))
                && Begun(LogAt(w, p), m.entry, m.raw)
  {
    var h, m := LogAt(w, p), w.made[Name(p.site, id)];
    assert LogOK(net, w.made, p, h);
    if id in h.blobs {
      var e :| e in h.versions && e.versionID == id;
      assert Begins(w.made, p.site, e, h.blobs[id]);
    }
  }

  /**
   * Recovery in any run in which no latest was served after it had changed, hazards included. Whatever
   * asking for a version returns, from this node or from peers that hold it in part, is the length of the
   * plaintext it was created from and a beginning of that plaintext: a caller that compares the two can tell
   * whether it has got it all.
   */
  lemma RecoversABeginning(net: Net, trail: Trail, s: Site, id: string, peers: seq<string>, answers: seq<Answer>,
                           h': History, r: Result<(int, Bytes)>)
    requires Possible(net, trail) && Steady(net, trail) && Name(s, id) in After(net, trail).made && |peers| == |answers|
    requires forall j :: 0 <= j < |peers| ==> AnswersInPart(After(net, trail), Place(peers[j], s), id, answers[j])
    requires (h', r) == Get(CipherOf(net, Own(s)), net.max(s.node), s, LogAt(After(net, trail), Own(s)), id, answers)
    ensures var plain := After(net, trail).made[Name(s, id)].plain;
            r.Success? ==>
                  r.value.0 == |plain| && r.value.1 <= plain && (r.value.1 == plain <==> |r.value.1| == r.value.0)
  {
    var w := After(net, trail);
    var m, h, c := w.made[Name(s, id)], LogAt(w, Own(s)), CipherOf(net, Own(s));
    SteadyTrailsAreConsistent(net, trail);
    LogIsBegun(net, w, Own(s), id);
    forall a | a in answers ensures PartlyHonest(a, m.entry, m.raw) {
      var j :| 0 <= j < |answers| && answers[j] == a;
      AnswersArePartlyHonest(net, w, Place(peers[j], s), id, a, m);
    }
    LoopKeepsBegun(c, net.max(s.node), s, h, answers, m.entry, m.raw);
    if r.Success? {
      assert h' == h || h' == FetchFrom(c, net.max(s.node), s, h, answers).0;
      assert r == ReadPlain(c, h', id);
      BegunReads(net.keystream(s.node), h', m.entry, m.iv, m.plain);
    }
  }
}
