/**
 * What the three receivers and GetVersion do to a history: store what arrives, compare it with what
 * was promised, undo it if it is short; and ask the peers one at a time until one supplies a version.
 */
module Transfers {
  import opened Base
  import opened Versions
  import opened Layout
  import opened Histories

  /** handleStore, handleShare and fetchBlob: the history afterwards, and whether the transfer was kept. */
  function Take(c: Cipher, max: int, op: Op, promised: nat, h: History): (History, bool)
    requires op.Write? || op.WriteRaw?
  {
    var stored := Step(c, max, op, h);
    if Failing(op, h.versions).Some? then (stored, false)
    else if |Payload(op)| != promised then (Step(c, max, DropVersion(op.site, StoredID(op)), stored), false)
    else (stored, true)
  }

  /** How one peer answers: not with the blob, or with metadata, a promised length and a stream. */
  datatype Answer =
    | Declined
    | Found(entry: VersionEntry, promised: nat, delivered: Bytes, clean: bool)

  function Arrived(a: Answer): Bytes
    requires a.Found?
  {
    Prefix(a.delivered, a.promised)
  }

  /** The copy sees an end of file when the promise is met or the stream ends cleanly. */
  predicate EndsWell(a: Answer)
    requires a.Found?
  {
    a.clean || a.promised <= |a.delivered|
  }

  function FetchOp(s: Site, a: Answer): Op
    requires a.Found?
  {
    WriteRaw(s, a.entry, Arrived(a), EndsWell(a))
  }

  /** fetchBlob: the history afterwards, and whether the peer supplied the version. */
  function Fetch(c: Cipher, max: int, s: Site, h: History, a: Answer): (History, bool) {
    if a.Declined? then (h, false) else Take(c, max, FetchOp(s, a), a.promised, h)
  }

  /** The loop over the connected peers. */
  function FetchFrom(c: Cipher, max: int, s: Site, h: History, answers: seq<Answer>): (History, bool)
    decreases |answers|
  {
    if answers == [] then (h, false)
    else
      var (h', found) := Fetch(c, max, s, h, answers[0]);
      if found then (h', true) else FetchFrom(c, max, s, h', answers[1..])
  }

  function Get(c: Cipher, max: int, s: Site, h: History, id: string, answers: seq<Answer>): (History,
      Result<(int, Bytes)>) {
    if h.latest != "" && ReadPlain(c, h, id).Success? then (h, ReadPlain(c, h, id))
    else
      var (h', found) := FetchFrom(c, max, s, h, answers);
      (h', if found then ReadPlain(c, h', id) else Failure(NoPeerHolds))
  }

  // ---- What comes back ----

  /** The peer sends a version's own metadata and some beginning of its blob, and promises all of it. */
  ghost predicate Honest(a: Answer, entry: VersionEntry, raw: Bytes) {
    a.Found? ==> a.entry == entry && a.promised == |raw| && a.delivered <= raw
  }

  /** A write that ends cleanly is a new list after retention with one blob written. */
  lemma StepSettles(c: Cipher, max: int, op: Op, h: History)
    requires (op.Write? || op.WriteRaw?) && op.clean && StoredID(op) != ""
    ensures Step(c, max, op, h) == Settle(h, max, StoredList(op, h.versions), StoredID(op), StoredBlob(c, op))
  {
  }

  lemma SettledIsRead(h: History, max: int, list: seq<VersionEntry>, entry: VersionEntry, blob: Bytes)
    requires Unique(list) && entry in list && entry.versionID != "" && entry.versionID in Ids(Pruned(max, list))
    ensures var r := Settle(h, max, list, entry.versionID, blob);
            ReadRaw(r, entry.versionID) == ReadRaw(r, "") == Success((entry, blob))
  {
    var kept := Pruned(max, list);
    PrunedMeans(max, list);
    var e :| e in kept && e.versionID == entry.versionID;
    FindsItself(list, e);
    FindsItself(list, entry);
    FindsItself(kept, entry);
  }

  /** What a write stored is the latest version and is read back as it was stored. */
  lemma StoredIsRead(c: Cipher, max: int, op: Op, h: History)
    requires WellFormed(h, max) && Fresh(op, h)
    requires (op.Write? || op.WriteRaw?) && op.clean && StoredID(op) != ""
    ensures var h' := Step(c, max, op, h);
            && WellFormed(h', max) && StoredID(op) in Ids(h'.versions)
            && ReadRaw(h', StoredID(op)) == Success((StoredEntry(op, h.versions), StoredBlob(c, op)))
            && ReadRaw(h', "") == ReadRaw(h', StoredID(op))
  {
    StepWellFormed(c, max, op, h);
    WrittenSurvives(h, max, op);
    StoredListMeans(op, h.versions);
    StepSettles(c, max, op, h);
    SettledIsRead(h, max, StoredList(op, h.versions), StoredEntry(op, h.versions), StoredBlob(c, op));
  }

  lemma DropUnlists(c: Cipher, max: int, s: Site, h: History, id: string)
    requires WellFormed(h, max)
    ensures var h' := Step(c, max, DropVersion(s, id), h); WellFormed(h', max) && id !in Ids(h'.versions)
  {
    StepWellFormed(c, max, DropVersion(s, id), h);
    WithoutMeans(h.versions, id);
  }

  /** A fetch that fails leaves a version unlisted if it was, and the index well formed. */
  lemma FailedFetch(c: Cipher, max: int, s: Site, h: History, a: Answer, entry: VersionEntry, raw: Bytes)
    requires WellFormed(h, max) && entry.versionID != "" && entry.versionID !in Ids(h.versions)
    requires Honest(a, entry, raw) && !Fetch(c, max, s, h, a).1
    ensures var h' := Fetch(c, max, s, h, a).0; WellFormed(h', max) && entry.versionID !in Ids(h'.versions)
  {
    if a.Found? {
      StepWellFormed(c, max, FetchOp(s, a), h);
      DropUnlists(c, max, s, Step(c, max, FetchOp(s, a), h), entry.versionID);
    }
  }

  /** A fetch that succeeds has stored the version whole. */
  lemma GoodFetch(c: Cipher, max: int, s: Site, h: History, a: Answer, entry: VersionEntry, raw: Bytes)
    requires WellFormed(h, max) && entry.versionID != "" && Honest(a, entry, raw)
    requires Fetch(c, max, s, h, a).1
    ensures var h' := Fetch(c, max, s, h, a).0;
            WellFormed(h', max) && ReadRaw(h', entry.versionID) == Success((entry, raw))
  {
    assert Arrived(a) == raw;
    StoredIsRead(c, max, FetchOp(s, a), h);
  }

  lemma {:induction false} LoopRecovers(c: Cipher, max: int, s: Site, h: History, answers: seq<Answer>,
                                        entry: VersionEntry, raw: Bytes, i: nat)
    requires WellFormed(h, max) && entry.versionID != "" && entry.versionID !in Ids(h.versions)
    requires forall a <- answers :: Honest(a, entry, raw)
    requires i < |answers| && answers[i].Found? && answers[i].delivered == raw
    ensures var (h', found) := FetchFrom(c, max, s, h, answers);
            found && WellFormed(h', max) && ReadRaw(h', entry.versionID) == Success((entry, raw))
    decreases |answers|
  {
    assert answers[0] in answers;
    var (h1, found) := Fetch(c, max, s, h, answers[0]);
    if found {
      GoodFetch(c, max, s, h, answers[0], entry, raw);
    } else {
      assert i > 0;
      FailedFetch(c, max, s, h, answers[0], entry, raw);
      LoopRecovers(c, max, s, h1, answers[1..], entry, raw, i - 1);
    }
  }
}
