/**
 * Laws of one history across operations: undoing a short transfer, what later writes leave readable,
 * rolling back, and sequence numbers.
 */
module Laws {
  import opened Base
  import opened Versions
  import opened Layout
  import opened Histories
  import opened Transfers
  import Aes

  /** One more version will not make retention drop any. */
  predicate Roomy(max: int, h: History) {
    max <= 0 || |h.versions| < max
  }

  // ---- Undo ----

  lemma AppendedLast(op: Op, versions: seq<VersionEntry>)
    requires op.Write? || op.WriteRaw?
    requires StoredID(op) !in Ids(versions)
    ensures StoredList(op, versions) == versions + [StoredEntry(op, versions)]
  {
  }

  lemma WithoutLast(versions: seq<VersionEntry>, e: VersionEntry)
    requires e.versionID !in Ids(versions)
    ensures Without(versions + [e], e.versionID) == versions
  {
    assert (versions + [e])[..|versions|] == versions;
    WithoutKeeps(versions, e.versionID);
  }

  /** The list that is left when a version is appended, retention cuts, and the version is removed again. */
  lemma PrunedThenDropped(max: int, versions: seq<VersionEntry>, e: VersionEntry)
    requires e.versionID !in Ids(versions) && (max > 0 ==> |versions| <= max)
    ensures Without(Pruned(max, versions + [e]), e.versionID) ==
            if max <= 0 || |versions| < max then versions else versions[1..]
  {
    if max <= 0 || |versions| < max {
      WithoutLast(versions, e);
    } else {
      assert Pruned(max, versions + [e]) == versions[1..] + [e];
      assert forall x :: x in versions[1..] ==> x in versions;
      WithoutLast(versions[1..], e);
    }
  }

  /** Removing the version just settled: what stays is the rest of the list and the blobs of before. */
  lemma SettledThenDropped(h: History, kept: seq<VersionEntry>, id: string, blob: Bytes, s: Site, c: Cipher, max: int)
    requires id in Ids(kept)
    ensures var r := Step(c, max, DropVersion(s, id), History(kept, id, KeptBlobs(kept, h.blobs, id, blob)));
            && r.versions == Without(kept, id) && r.latest == LastID(r.versions)
            && (Complete(h) && id !in Ids(h.versions) && Ids(kept) == Ids(h.versions) + {id} ==> r.blobs == h.blobs)
  {
    if Complete(h) && id !in Ids(h.versions) && Ids(kept) == Ids(h.versions) + {id} {
      assert KeptBlobs(kept, h.blobs, id, blob) - {id} == h.blobs;
    }
  }

  lemma StoredThenPruned(max: int, op: Op, versions: seq<VersionEntry>)
    requires (op.Write? || op.WriteRaw?) && StoredID(op) !in Ids(versions) && (max > 0 ==> |versions| <= max)
    ensures var kept := Pruned(max, StoredList(op, versions));
            && Without(kept, StoredID(op)) == (if max <= 0 || |versions| < max then versions else versions[1..])
            && StoredID(op) in Ids(kept)
            && (max <= 0 || |versions| < max ==> Ids(kept) == Ids(versions) + {StoredID(op)})
  {
    AppendedLast(op, versions);
    PrunedThenDropped(max, versions, StoredEntry(op, versions));
    StoredListMeans(op, versions);
    PrunedMeans(max, StoredList(op, versions));
    LastIsListed(Pruned(max, StoredList(op, versions)));
    AppendMeans(versions, StoredEntry(op, versions));
  }

  /** Storing a version that was not listed and deleting it again restores the history, if retention dropped nothing. */
  lemma StoredThenDropped(c: Cipher, max: int, op: Op, h: History, h1: History, r: History)
    requires WellFormed(h, max) && Complete(h) && (op.Write? || op.WriteRaw?) && op.clean && StoredID(op) != ""
    requires StoredID(op) !in Ids(h.versions)
    requires h1 == Step(c, max, op, h) && r == Step(c, max, DropVersion(op.site, StoredID(op)), h1)
    ensures r.latest == LastID(r.versions)
    ensures Roomy(max, h) ==> r.versions == h.versions && r.blobs == h.blobs
    ensures !Roomy(max, h) ==> r.versions == h.versions[1..]
  {
    var kept := Pruned(max, StoredList(op, h.versions));
    StepSettles(c, max, op, h);
    StoredThenPruned(max, op, h.versions);
    SettledThenDropped(h, kept, StoredID(op), StoredBlob(c, op), op.site, c, max);
  }

  /** What a transfer that is not kept leaves of the list and the blobs. */
  ghost predicate Restores(c: Cipher, max: int, op: Op, h: History)
    requires op.Write? || op.WriteRaw?
  {
    if op.clean then StoredID(op) !in Ids(h.versions) && Roomy(max, h)
    else StoredID(op) in h.blobs ==> h.blobs[StoredID(op)] == StoredBlob(c, op)
  }

  lemma CutShort(c: Cipher, max: int, op: Op, h: History, r: History)
    requires WellFormed(h, max) && Complete(h) && (op.Write? || op.WriteRaw?) && !op.clean && StoredID(op) != ""
    requires Fresh(op, h)
    requires r == Step(c, max, op, h)
    ensures r.versions == h.versions && r.latest == h.latest
    ensures r.blobs == h.blobs <==> Restores(c, max, op, h)
  {
  }

  lemma ListedThenDropped(c: Cipher, max: int, op: Op, h: History, h1: History, r: History)
    requires WellFormed(h, max) && (op.Write? || op.WriteRaw?) && op.clean && StoredID(op) != "" && Fresh(op, h)
    requires StoredID(op) in Ids(h.versions)
    requires h1 == Step(c, max, op, h) && r == Step(c, max, DropVersion(op.site, StoredID(op)), h1)
    ensures StoredID(op) !in Ids(r.versions)
  {
    StepWellFormed(c, max, op, h);
    DropUnlists(c, max, op.site, h1, StoredID(op));
  }

  /**
   * handleStore, handleShare and fetchBlob. A transfer is kept exactly if it ended cleanly with every
   * promised byte. One that is not kept leaves the version list and the blobs exactly as they were if
   * and only if: where it broke off, the version had no blob or got the very bytes it had; where it
   * ended cleanly but short, the version was not listed and retention dropped nothing. Then the latest
   * is the last of the list, so it too is unchanged if it was the last before.
   */
  lemma FailedTransferRestoresIff(c: Cipher, max: int, op: Op, promised: nat, h: History, r: History, kept: bool)
    requires WellFormed(h, max) && Complete(h) && (op.Write? || op.WriteRaw?) && StoredID(op) != "" && Fresh(op, h)
    requires (r, kept) == Take(c, max, op, promised, h)
    ensures kept <==> op.clean && |Payload(op)| == promised
    ensures !kept ==> (r.versions == h.versions && r.blobs == h.blobs <==> Restores(c, max, op, h))
    ensures !kept && op.clean && StoredID(op) !in Ids(h.versions) ==> r.latest == LastID(r.versions)
    ensures !kept && !op.clean ==> r.latest == h.latest
  {
    var h1 := Step(c, max, op, h);
    if !op.clean {
      CutShort(c, max, op, h, r);
    } else if !kept {
      assert r == Step(c, max, DropVersion(op.site, StoredID(op)), h1);
      if StoredID(op) in Ids(h.versions) {
        ListedThenDropped(c, max, op, h, h1, r);
      } else {
        StoredThenDropped(c, max, op, h, h1, r);
        if !Roomy(max, h) {
          assert |h.versions| == max > 0;
        }
      }
    }
  }

  // ---- Why the length bound matters ----

  lemma PlaceOfRestored(max: int, versions: seq<VersionEntry>, meta: VersionEntry, list: seq<VersionEntry>, i: nat)
    requires i < |versions| && list == versions[i := meta] && Unique(list)
    ensures meta in (if i >= Cut(max, versions) then Pruned(max, list) else Dropped(max, list))
  {
    if i >= Cut(max, versions) {
      assert Pruned(max, list)[i - Cut(max, versions)] == meta;
    } else {
      assert Dropped(max, list)[i] == meta;
    }
  }

  /**
   * A version stored again in place survives retention exactly if it is not among the entries over the
   * limit: only a list within the limit keeps a raw write from losing the very entry it wrote.
   */
  lemma RestoredSurvivesIff(max: int, versions: seq<VersionEntry>, meta: VersionEntry, list: seq<VersionEntry>)
    requires Unique(versions) && meta.versionID in Ids(versions) && list == Upsert(versions, meta)
    ensures meta.versionID in Ids(Pruned(max, list)) <==> IndexOf(versions, meta.versionID) >= Cut(max, versions)
  {
    UpsertMeans(versions, meta);
    PrunedMeans(max, list);
    PlaceOfRestored(max, versions, meta, list, IndexOf(versions, meta.versionID));
  }

  // ---- What later writes leave readable ----

  lemma SameReading(h: History, h': History, max: int, e: VersionEntry)
    requires WellFormed(h, max) && WellFormed(h', max) && e in h.versions && e in h'.versions
    requires e.versionID in h.blobs <==> e.versionID in h'.blobs
    requires e.versionID in h.blobs ==> h'.blobs[e.versionID] == h.blobs[e.versionID]
    ensures ReadRaw(h', e.versionID) == ReadRaw(h, e.versionID)
  {
    assert e.versionID in Ids(h.versions);
    FindsItself(h.versions, e);
    FindsItself(h'.versions, e);
  }

  lemma KeptOrStored(op: Op, max: int, versions: seq<VersionEntry>, e: VersionEntry)
    requires (op.Write? || op.WriteRaw?) && e in Pruned(max, StoredList(op, versions)) && e.versionID != StoredID(op)
    ensures e in versions
  {
    assert e in StoredList(op, versions);
    if op.WriteRaw? {
      UpsertMeans(versions, op.meta);
    }
  }

  /** A write changes what is read only for its own version and those that retention drops. */
  lemma OthersReadTheSame(c: Cipher, max: int, op: Op, h: History, h': History, x: string)
    requires WellFormed(h, max) && Fresh(op, h)
    requires (op.Write? || op.WriteRaw?) && op.clean && StoredID(op) != "" && h' == Step(c, max, op, h)
    requires x != StoredID(op) && x in Ids(h'.versions)
    ensures ReadRaw(h', x) == ReadRaw(h, x)
  {
    StepWellFormed(c, max, op, h);
    StepSettles(c, max, op, h);
    var e :| e in h'.versions && e.versionID == x;
    KeptOrStored(op, max, h.versions, e);
    SameReading(h, h', max, e);
  }

  lemma RoomExtends(max: int, op: Op, versions: seq<VersionEntry>)
    requires (op.Write? || op.WriteRaw?) && StoredID(op) !in Ids(versions) && (max <= 0 || |versions| < max)
    ensures versions < Pruned(max, StoredList(op, versions))
    ensures Ids(Pruned(max, StoredList(op, versions))) == Ids(versions) + {StoredID(op)}
  {
    AppendedLast(op, versions);
    StoredListMeans(op, versions);
  }

  lemma ReadsTheSame(c: Cipher, max: int, op: Op, h: History, h': History, ids: set<string>)
    requires WellFormed(h, max) && Fresh(op, h)
    requires (op.Write? || op.WriteRaw?) && op.clean && StoredID(op) != "" && h' == Step(c, max, op, h)
    requires StoredID(op) !in ids && ids <= Ids(h'.versions)
    ensures forall x <- ids :: ReadRaw(h', x) == ReadRaw(h, x)
  {
    forall x | x in ids ensures ReadRaw(h', x) == ReadRaw(h, x) {
      OthersReadTheSame(c, max, op, h, h', x);
    }
  }

  /** With room left, writing a new version extends the list and every earlier version reads as before. */
  lemma RoomKeepsEverything(c: Cipher, max: int, op: Op, h: History, h': History)
    requires WellFormed(h, max) && Fresh(op, h) && Roomy(max, h)
    requires (op.Write? || op.WriteRaw?) && op.clean && StoredID(op) != "" && StoredID(op) !in Ids(h.versions)
    requires h' == Step(c, max, op, h)
    ensures h.versions < h'.versions
    ensures forall x <- Ids(h.versions) :: ReadRaw(h', x) == ReadRaw(h, x)
  {
    StepSettles(c, max, op, h);
    RoomExtends(max, op, h.versions);
    ReadsTheSame(c, max, op, h, h', Ids(h.versions));
  }

  /** A local write that ends cleanly is the latest version, and reading it gives the plaintext that arrived. */
  lemma WrittenReadsBack(c: Cipher, max: int, op: Op, h: History, h': History)
    requires op.Write? && op.clean && op.id != "" && WellFormed(h, max) && Fresh(op, h) && |op.iv| == Aes.IV_SIZE
    requires h' == Step(c, max, op, h)
    ensures WellFormed(h', max) && h'.latest == op.id
    ensures ReadPlain(c, h', "") == ReadPlain(c, h', op.id) == Success((|op.plain|, op.plain))
  {
    StoredIsRead(c, max, op, h);
    DecodedCut(c, op.iv, op.plain, |op.plain|);
  }

  lemma PlainFollowsRaw(c: Cipher, h: History, h': History, ids: set<string>)
    requires forall x <- ids :: ReadRaw(h', x) == ReadRaw(h, x)
    ensures forall x <- ids :: ReadPlain(c, h', x) == ReadPlain(c, h, x)
  {
    forall x | x in ids ensures ReadPlain(c, h', x) == ReadPlain(c, h, x) {
      assert ReadRaw(h', x) == ReadRaw(h, x);
    }
  }

  lemma RoomKeepsPlaintexts(c: Cipher, max: int, op: Op, h: History, h': History)
    requires op.Write? && op.clean && op.id != "" && WellFormed(h, max) && Fresh(op, h) && Roomy(max, h)
    requires h' == Step(c, max, op, h)
    ensures h.versions < h'.versions
    ensures forall x <- Ids(h.versions) :: ReadPlain(c, h', x) == ReadPlain(c, h, x)
  {
    RoomKeepsEverything(c, max, op, h, h');
    PlainFollowsRaw(c, h, h', Ids(h.versions));
  }

  // ---- Rollback ----

  function RollbackOp(s: Site, target: string, id: string, at: int, iv: Bytes, plain: Bytes): Op {
    Write(s, id, at, "rollback to version " + target, plain, iv, true)
  }

  /**
   * Rolling back makes the latest read what the target held when it was read, whatever has happened to
   * the file since and whatever retention drops in the same write, the target itself included; with room
   * left, the old history is a strict prefix of the new one and every old version reads as before.
   */
  lemma RollbackRestores(c: Cipher, max: int, op: Op, target: string, was: History, h: History, h': History, size: int)
    requires op.Write? && WellFormed(h, max) && Fresh(op, h)
    requires op == RollbackOp(op.site, target, op.id, op.at, op.iv, op.plain) && |op.iv| == Aes.IV_SIZE
    requires ReadPlain(c, was, target) == Success((size, op.plain)) && h' == Step(c, max, op, h)
    ensures WellFormed(h', max) && h'.latest == op.id
    ensures ReadPlain(c, h', "") == ReadPlain(c, h', op.id) == Success((|op.plain|, op.plain))
    ensures size == |op.plain| ==> ReadPlain(c, h', "") == ReadPlain(c, was, target)
    ensures Roomy(max, h) ==>
              h.versions < h'.versions && forall x <- Ids(h.versions) :: ReadPlain(c, h', x) == ReadPlain(c, h, x)
  {
    WrittenReadsBack(c, max, op, h, h');
    if Roomy(max, h) {
      RoomKeepsPlaintexts(c, max, op, h, h');
    }
  }

  // ---- Sequence numbers ----

  ghost predicate Ascending(versions: seq<VersionEntry>) {
    forall i, j :: 0 <= i < j < |versions| ==> versions[i].number < versions[j].number
  }

  /**
   * A raw write that fits into the numbering: in place it stays between its neighbours; appended it comes
   * after all of them, unless retention is about to drop them all.
   */
  ghost predicate Orderly(max: int, op: Op, versions: seq<VersionEntry>) {
    op.WriteRaw? && op.clean && op.meta.versionID != "" ==>
      var i := IndexOf(versions, op.meta.versionID);
      if i < |versions| then Between(versions, i, op.meta.number)
      else versions == [] || max == 1 || op.meta.number >= NextSeq(versions)
  }

  /** A number that could stand at position i. */
  ghost predicate Between(versions: seq<VersionEntry>, i: nat, number: int)
    requires i < |versions|
  {
    (i == 0 || versions[i - 1].number < number) && (i == |versions| - 1 || number < versions[i + 1].number)
  }

  lemma {:induction false} WithoutAscends(versions: seq<VersionEntry>, id: string)
    requires Ascending(versions)
    ensures Ascending(Without(versions, id))
  {
    if versions != [] {
      var init, last := versions[..|versions| - 1], versions[|versions| - 1];
      WithoutAscends(init, id);
      WithoutKeeps(init, id);
      forall e | e in Without(init, id) ensures e.number < last.number {
        var i :| 0 <= i < |init| && init[i] == e;
        assert versions[i].number < versions[|init|].number;
      }
    }
  }

  lemma ReplacedAscendsIff(versions: seq<VersionEntry>, i: nat, meta: VersionEntry)
    requires Ascending(versions) && i < |versions|
    ensures Ascending(versions[i := meta]) <==> Between(versions, i, meta.number)
  {
    var r := versions[i := meta];
    if Ascending(r) {
      assert i > 0 ==> r[i - 1].number < r[i].number;
      assert i < |r| - 1 ==> r[i].number < r[i + 1].number;
    }
  }

  lemma AppendedAscendsIff(max: int, versions: seq<VersionEntry>, e: VersionEntry)
    requires Ascending(versions) && (max > 0 ==> |versions| <= max)
    ensures Ascending(Pruned(max, versions + [e])) <==> versions == [] || max == 1 || e.number >= NextSeq(versions)
  {
    var r, n := Pruned(max, versions + [e]), |versions|;
    var cut := Cut(max, versions + [e]);
    assert forall k :: 0 <= k < n - cut ==> r[k] == versions[cut + k];
    assert r[n - cut] == e;
    if n > cut {
      assert r[n - cut - 1] == versions[n - 1];
    }
  }

  /** A write that ends cleanly keeps the numbering exactly if it is orderly. */
  lemma StoredAscendsIff(max: int, op: Op, versions: seq<VersionEntry>)
    requires op.Write? || (op.WriteRaw? && op.meta.versionID != "")
    requires op.clean && Ascending(versions) && (max > 0 ==> |versions| <= max)
    ensures Ascending(Pruned(max, StoredList(op, versions))) <==> Orderly(max, op, versions)
  {
    AppendedAscendsIff(max, versions, StoredEntry(op, versions));
    if op.WriteRaw? && IndexOf(versions, op.meta.versionID) < |versions| {
      ReplacedAscendsIff(versions, IndexOf(versions, op.meta.versionID), op.meta);
      assert Pruned(max, StoredList(op, versions)) == StoredList(op, versions);
    }
  }

  /**
   * One operation keeps the numbering exactly if it is orderly: only raw writes can fail to be, and this
   * is when, whatever the retention limit and however full the list.
   */
  lemma StepAscendsIff(c: Cipher, max: int, op: Op, h: History)
    requires Ascending(h.versions) && (max > 0 ==> |h.versions| <= max)
    ensures Ascending(Step(c, max, op, h).versions) <==> Orderly(max, op, h.versions)
    ensures max > 0 ==> |Step(c, max, op, h).versions| <= max
  {
    if op.DropVersion? {
      WithoutAscends(h.versions, op.id);
    } else if op.Write? || (op.WriteRaw? && op.meta.versionID != "") {
      if op.clean {
        StoredAscendsIff(max, op, h.versions);
      }
    }
  }

  ghost predicate OrderlyRun(c: Cipher, max: int, ops: seq<Op>, h: History) {
    ops == [] || (Orderly(max, ops[0], h.versions) && OrderlyRun(c, max, ops[1..], Step(c, max, ops[0], h)))
  }

  /** The numbers increase strictly at every moment of a run. */
  ghost predicate AlwaysAscending(c: Cipher, max: int, ops: seq<Op>, h: History)
    decreases |ops|
  {
    Ascending(h.versions) && (ops == [] || AlwaysAscending(c, max, ops[1..], Step(c, max, ops[0], h)))
  }

  /**
   * Over a run, sequence numbers increase strictly along the list at every moment if and only if every
   * raw write is orderly; local writes, rollbacks, deletes and prunes always are.
   */
  lemma {:induction false} RunAscendsIff(c: Cipher, max: int, ops: seq<Op>, h: History)
    requires Ascending(h.versions) && (max > 0 ==> |h.versions| <= max)
    ensures AlwaysAscending(c, max, ops, h) <==> OrderlyRun(c, max, ops, h)
    decreases |ops|
  {
    if ops != [] {
      StepAscendsIff(c, max, ops[0], h);
      if Orderly(max, ops[0], h.versions) {
        RunAscendsIff(c, max, ops[1..], Step(c, max, ops[0], h));
      }
    }
  }

  /** While they increase, the next number is one more than the highest, as documented. */
  lemma {:induction false} NextSeqIsHighest(c: Cipher, max: int, ops: seq<Op>, h: History)
    requires AlwaysAscending(c, max, ops, h) && Run(c, max, ops, h).versions != []
    ensures var r := Run(c, max, ops, h).versions;
            && (forall e <- r :: e.number < NextSeq(r))
            && exists e <- r :: e.number == NextSeq(r) - 1
    decreases |ops|
  {
    if ops != [] {
      NextSeqIsHighest(c, max, ops[1..], Step(c, max, ops[0], h));
    } else {
      assert h.versions[|h.versions| - 1] in h.versions;
    }
  }

  lemma {:induction false} LocalRunsAreOrderly(c: Cipher, max: int, ops: seq<Op>, h: History)
    requires forall op <- ops :: !op.WriteRaw?
    ensures OrderlyRun(c, max, ops, h)
    decreases |ops|
  {
    if ops != [] {
      LocalRunsAreOrderly(c, max, ops[1..], Step(c, max, ops[0], h));
    }
  }

  /**
   * Without that order NextSeq is not one more than the highest: a node that writes twice, loses the
   * first version, fetches it back and writes again gives two versions the number 2.
   */
  lemma RefetchRepeatsNumber(c: Cipher, s: Site, iv: Bytes, h1: History, h2: History, h3: History, h4: History,
                             h5: History)
    requires h1 == Step(c, 0, Write(s, "u", 0, "", [], iv, true), EMPTY)
    requires h2 == Step(c, 0, Write(s, "v", 0, "", [], iv, true), h1)
    requires h3 == Step(c, 0, DropVersion(s, "u"), h2)
    requires h4 == Step(c, 0, WriteRaw(s, VersionEntry("u", 1, 0, 0, ""), Encoded(c, iv, []), true), h3)
    requires h5 == Step(c, 0, Write(s, "w", 0, "", [], iv, true), h4)
    ensures h5.versions == [VersionEntry("v", 2, 0, 0, ""), VersionEntry("u", 1, 0, 0, ""),
                            VersionEntry("w", 2, 0, 0, "")]
  {
    var u, v, w := VersionEntry("u", 1, 0, 0, ""), VersionEntry("v", 2, 0, 0, ""), VersionEntry("w", 2, 0, 0, "");
    Appends(c, Write(s, "u", 0, "", [], iv, true), EMPTY, h1);
    assert h1.versions == [u];
    Appends(c, Write(s, "v", 0, "", [], iv, true), h1, h2);
    assert h2.versions == [u, v];
    DropsFirst(c, s, u, v, h2, h3);
    Appends(c, WriteRaw(s, u, Encoded(c, iv, []), true), h3, h4);
    assert h4.versions == [v, u];
    Appends(c, Write(s, "w", 0, "", [], iv, true), h4, h5);
    assert h5.versions == [v, u] + [w];
  }

  lemma Appends(c: Cipher, op: Op, h: History, h': History)
    requires (op.Write? || op.WriteRaw?) && op.clean && StoredID(op) != ""
    requires forall e <- h.versions :: e.versionID != StoredID(op)
    requires h' == Step(c, 0, op, h)
    ensures h'.versions == h.versions + [StoredEntry(op, h.versions)]
  {
    AppendedLast(op, h.versions);
    StepSettles(c, 0, op, h);
  }

  lemma DropsFirst(c: Cipher, s: Site, u: VersionEntry, v: VersionEntry, h: History, h': History)
    requires h.versions == [u, v] && u.versionID != v.versionID
    requires h' == Step(c, 0, DropVersion(s, u.versionID), h)
    ensures h'.versions == [v]
  {
    assert u in h.versions;
    assert [u, v][..1] == [u] && [u][..0] == [];
    assert Without([u], u.versionID) == Without([], u.versionID);
  }

  // ---- What is recorded, and what becomes of the latest ----

  /**
   * The metadata a local write records: its own identity, time and message, the length of the plaintext, and a number
   * one more than that of the version before it. It is found as the latest and by its identity.
   */
  lemma WrittenIsRecorded(c: Cipher, max: int, op: Op, h: History)
    requires WellFormed(h, max) && op.Write? && op.clean && Fresh(op, h)
    ensures var h' := Step(c, max, op, h);
            && Resolve(h'.versions, h'.latest, "") == Resolve(h'.versions, h'.latest, op.id)
            && Resolve(h'.versions, h'.latest, op.id).Success?
            && var e := Resolve(h'.versions, h'.latest, op.id).value;
               && e.versionID == op.id && e.createdAt == op.at && e.message == op.message && e.sizeBytes == |op.plain|
               && e.number == if h.versions == [] then 1 else h.versions[|h.versions| - 1].number + 1
  {
    var h' := Step(c, max, op, h);
    StoredIsRead(c, max, op, h);
    ReadIsResolved(h', "");
    ReadIsResolved(h', op.id);
  }

  lemma ReadIsResolved(h: History, id: string)
    requires ReadRaw(h, id).Success?
    ensures Resolve(h.versions, h.latest, id) == Success(ReadRaw(h, id).value.0)
  {
  }

  /** The entry stands before the other on the list. */
  ghost predicate Before(versions: seq<VersionEntry>, e: VersionEntry, f: VersionEntry) {
    exists i, j :: 0 <= i < j < |versions| && versions[i] == e && versions[j] == f
  }

  lemma {:induction false} WithoutKeepsOrder(versions: seq<VersionEntry>, id: string)
    ensures forall e, f :: Before(Without(versions, id), e, f) <==>
              Before(versions, e, f) && e.versionID != id && f.versionID != id
  {
    if versions != [] {
      var n := |versions| - 1;
      var init, last := versions[..n], versions[n];
      WithoutKeepsOrder(init, id);
      WithoutKeeps(init, id);
      forall e, f ensures Before(Without(versions, id), e, f) <==>
                Before(versions, e, f) && e.versionID != id && f.versionID != id
      {
        OneMoreBefore(init, last, e, f);
        OneMoreBefore(Without(init, id), last, e, f);
        assert init + [last] == versions;
      }
    }
  }

  lemma OneMoreBefore(init: seq<VersionEntry>, last: VersionEntry, e: VersionEntry, f: VersionEntry)
    ensures Before(init + [last], e, f) <==> Before(init, e, f) || (e in init && f == last)
  {
    var r := init + [last];
    if Before(init, e, f) {
      var i, j :| 0 <= i < j < |init| && init[i] == e && init[j] == f;
      assert r[i] == e && r[j] == f;
    }
    if e in init && f == last {
      var i :| 0 <= i < |init| && init[i] == e;
      assert r[i] == e && r[|init|] == f;
    }
  }

  /**
   * Deleting a version takes that one off the list and leaves the others in their order. The latest stays what it was
   * unless it is the one deleted; then it is the last of those that are left, or none.
   */
  lemma DropRewinds(c: Cipher, max: int, s: Site, id: string, h: History)
    requires WellFormed(h, max) && id in Ids(h.versions)
    ensures var h' := Step(c, max, DropVersion(s, id), h);
            && (forall e :: e in h'.versions <==> e in h.versions && e.versionID != id)
            && (forall e, f :: Before(h'.versions, e, f) <==>
                  Before(h.versions, e, f) && e.versionID != id && f.versionID != id)
            && (h.latest != id ==> h'.latest == h.latest && ReadRaw(h', "") == ReadRaw(h, ""))
            && (h.latest == id ==>
                  h'.latest == if h'.versions == [] then "" else h'.versions[|h'.versions| - 1].versionID)
  {
    WithoutKeeps(h.versions, id);
    WithoutKeepsOrder(h.versions, id);
    if h.latest != id {
      OtherLatestReads(c, max, s, id, h);
    }
  }

  lemma OtherLatestReads(c: Cipher, max: int, s: Site, id: string, h: History)
    requires WellFormed(h, max) && id in Ids(h.versions) && h.latest != id
    ensures ReadRaw(Step(c, max, DropVersion(s, id), h), "") == ReadRaw(h, "")
  {
    var h' := Step(c, max, DropVersion(s, id), h);
    var e :| e in h.versions && e.versionID == h.latest;
    WithoutKeeps(h.versions, id);
    WithoutMeans(h.versions, id);
    FindsItself(h.versions, e);
    FindsItself(h'.versions, e);
  }

  /**
   * What success and failure tell the caller. A write that succeeds is the latest, with its metadata and bytes; a
   * delete that succeeds had something to delete, and it is gone. Whatever fails leaves the list as it was.
   */
  lemma OutcomeTells(c: Cipher, max: int, op: Op, h: History)
    requires WellFormed(h, max) && Fresh(op, h)
    ensures var h' := Step(c, max, op, h);
            && (Failing(op, h.versions).Some? ==> h'.versions == h.versions && h'.latest == h.latest)
            && (Failing(op, h.versions).None? ==>
                  match op
                  case DropVersion(_, id) => id in Ids(h.versions) && id !in Ids(h'.versions)
                  case DropAll(_) => h'.versions == [] && h'.latest == ""
                  case _ => h'.latest == StoredID(op) && ReadRaw(h', "") == ReadRaw(h', StoredID(op))
                            && ReadRaw(h', "") == Success((StoredEntry(op, h.versions), StoredBlob(c, op))))
  {
    match op
    case DropVersion(_, id) => WithoutMeans(h.versions, id);
    case DropAll(_) =>
    case Write(_, _, _, _, _, _, clean) =>
      if clean {
        StoredIsRead(c, max, op, h);
      }
    case WriteRaw(_, meta, _, clean) =>
      if clean && meta.versionID != "" {
        StoredIsRead(c, max, op, h);
      }
  }

  /** The other half: what was to be done could not be. */
  lemma FailureMeans(op: Op, versions: seq<VersionEntry>)
    ensures Failing(op, versions) == Some(UnknownVersion) <==> op.DropVersion? && op.id !in Ids(versions)
    ensures Failing(op, versions) == Some(MissingVersionID) <==> op.WriteRaw? && op.meta.versionID == ""
    ensures Failing(op, versions) == Some(SourceFailed) <==>
            (op.Write? || op.WriteRaw?) && !op.clean && !(op.WriteRaw? && op.meta.versionID == "")
    ensures Failing(op, versions).Some? ==>
              Failing(op, versions).value in {UnknownVersion, MissingVersionID, SourceFailed}
  {
  }
}
