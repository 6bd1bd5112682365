/** internal/store/version.go and the index arithmetic of store.go and raw.go. */
module Versions {
  import opened Base

  datatype VersionEntry = VersionEntry(versionID: string, number: int, createdAt: int, sizeBytes: int, message: string)

  datatype VersionIndex = VersionIndex(key: string, latest: string, versions: seq<VersionEntry>)

  function Ids(versions: seq<VersionEntry>): set<string> {
    set e | e in versions :: e.versionID
  }

  ghost predicate Unique(versions: seq<VersionEntry>) {
    forall i, j :: 0 <= i < j < |versions| ==> versions[i].versionID != versions[j].versionID
  }

  /** The position of a version, or the length of the list when it is absent. */
  function IndexOf(versions: seq<VersionEntry>, id: string): (i: nat)
    ensures i <= |versions|
    ensures i < |versions| ==> versions[i].versionID == id
    ensures forall j :: 0 <= j < i ==> versions[j].versionID != id
    ensures i < |versions| <==> id in Ids(versions)
  {
    if versions == [] then 0
    else if versions[0].versionID == id then 0
    else
      assert forall e :: e in versions <==> e == versions[0] || e in versions[1..];
      1 + IndexOf(versions[1..], id)
  }

  /** upsertVersion: the entry of the same identity is replaced where it stands, else appended. */
  function Upsert(versions: seq<VersionEntry>, meta: VersionEntry): seq<VersionEntry> {
    var i := IndexOf(versions, meta.versionID);
    if i < |versions| then versions[i := meta] else versions + [meta]
  }

  function Without(versions: seq<VersionEntry>, id: string): (r: seq<VersionEntry>)
    ensures |r| <= |versions|
  {
    if versions == [] then []
    else
      var init, last := versions[..|versions| - 1], versions[|versions| - 1];
      if last.versionID == id then Without(init, id) else Without(init, id) + [last]
  }

  /** How many of the oldest entries retention drops. A limit of zero keeps everything. */
  function Cut(max: int, versions: seq<VersionEntry>): (n: nat)
    ensures n <= |versions|
  {
    if max <= 0 || |versions| <= max then 0 else |versions| - max
  }

  function Dropped(max: int, versions: seq<VersionEntry>): seq<VersionEntry> {
    versions[..Cut(max, versions)]
  }

  function Pruned(max: int, versions: seq<VersionEntry>): seq<VersionEntry> {
    versions[Cut(max, versions)..]
  }

  function NextSeq(versions: seq<VersionEntry>): int {
    if versions == [] then 1 else versions[|versions| - 1].number + 1
  }

  function LastID(versions: seq<VersionEntry>): string {
    if versions == [] then "" else versions[|versions| - 1].versionID
  }

  /** An empty version identity asks for the latest. */
  function Resolve(versions: seq<VersionEntry>, latest: string, id: string): Result<VersionEntry> {
    if id == "" && latest == "" then Failure(NoVersions)
    else
      var i := IndexOf(versions, if id == "" then latest else id);
      if i < |versions| then Success(versions[i]) else Failure(UnknownVersion)
  }

  method ResolveVersion(idx: VersionIndex, versionID: string) returns (r: Result<VersionEntry>)
    ensures r == Resolve(idx.versions, idx.latest, versionID)
  {
    var wanted := versionID;
    if versionID == "" {
      if idx.latest == "" {
        return Failure(NoVersions);
      }
      wanted := idx.latest;
    }
    for i := 0 to |idx.versions|
      invariant forall j :: 0 <= j < i ==> idx.versions[j].versionID != wanted
    {
      if idx.versions[i].versionID == wanted {
        return Success(idx.versions[i]);
      }
    }
    return Failure(UnknownVersion);
  }

  method UpsertVersion(versions: seq<VersionEntry>, meta: VersionEntry) returns (r: seq<VersionEntry>)
    ensures r == Upsert(versions, meta)
  {
    for i := 0 to |versions|
      invariant forall j :: 0 <= j < i ==> versions[j].versionID != meta.versionID
    {
      if versions[i].versionID == meta.versionID {
        return versions[i := meta];
      }
    }
    return versions + [meta];
  }

  lemma OneMoreID(versions: seq<VersionEntry>, i: nat)
    requires i < |versions|
    ensures Ids(versions[..i + 1]) == Ids(versions[..i]) + {versions[i].versionID}
  {
    assert versions[i] == versions[..i + 1][i];
    assert forall e :: e in versions[..i + 1] <==> e in versions[..i] || e == versions[i];
  }

  /**
   * The filter of DeleteVersion, which writes the surviving entries over the front of the very
   * slice it is ranging over.
   */
  method FilterInPlace(versions: array<VersionEntry>, id: string) returns (kept: nat, found: bool)
    modifies versions
    ensures kept <= versions.Length
    ensures versions[..kept] == Without(old(versions[..]), id)
    ensures found <==> id in Ids(old(versions[..]))
  {
    ghost var was := versions[..];
    kept, found := 0, false;
    var i := 0;
    while i < versions.Length
      invariant 0 <= kept <= i <= versions.Length
      invariant versions[i..] == was[i..]
      invariant versions[..kept] == Without(was[..i], id)
      invariant found <==> id in Ids(was[..i])
    {
      var v := versions[i];
      assert v == was[i];
      assert was[..i + 1][..i] == was[..i];
      OneMoreID(was, i);
      if v.versionID == id {
        found := true;
      } else {
        versions[kept] := v;
        kept := kept + 1;
        assert versions[..kept] == versions[..kept - 1] + [v];
      }
      i := i + 1;
    }
    assert was[..i] == was;
  }

  // ---- What the list functions mean ----

  lemma {:induction false} WithoutKeeps(versions: seq<VersionEntry>, id: string)
    ensures forall e :: e in Without(versions, id) <==> e in versions && e.versionID != id
    ensures id !in Ids(versions) ==> Without(versions, id) == versions
  {
    if versions != [] {
      var init, last := versions[..|versions| - 1], versions[|versions| - 1];
      WithoutKeeps(init, id);
      assert versions == init + [last];
      assert forall e :: e in versions <==> e in init || e == last;
    }
  }

  lemma {:induction false} WithoutIsUnique(versions: seq<VersionEntry>, id: string)
    requires Unique(versions)
    ensures Unique(Without(versions, id))
  {
    if versions != [] {
      var init, last := versions[..|versions| - 1], versions[|versions| - 1];
      WithoutIsUnique(init, id);
      WithoutKeeps(init, id);
      forall e | e in Without(init, id) ensures e.versionID != last.versionID {
        var i :| 0 <= i < |init| && init[i] == e;
        assert versions[i].versionID != versions[|init|].versionID;
      }
    }
  }

  lemma WithoutMeans(versions: seq<VersionEntry>, id: string)
    ensures Ids(Without(versions, id)) == Ids(versions) - {id}
    ensures Unique(versions) ==> Unique(Without(versions, id))
    ensures id !in Ids(versions) ==> Without(versions, id) == versions
  {
    WithoutKeeps(versions, id);
    if Unique(versions) {
      WithoutIsUnique(versions, id);
    }
  }

  lemma UpsertMeans(versions: seq<VersionEntry>, meta: VersionEntry)
    ensures Ids(Upsert(versions, meta)) == Ids(versions) + {meta.versionID}
    ensures Unique(versions) ==> Unique(Upsert(versions, meta))
    ensures meta in Upsert(versions, meta)
    ensures forall e :: e in Upsert(versions, meta) ==> e == meta || e in versions
  {
    var i, r := IndexOf(versions, meta.versionID), Upsert(versions, meta);
    if i < |versions| {
      assert r[i] == meta;
      forall e | e in versions ensures e.versionID in Ids(r) {
        var j :| 0 <= j < |versions| && versions[j] == e;
        assert r[j] in r;
      }
      assert versions[i] in versions;
    } else {
      assert r[|versions|] == meta;
      forall e | e in versions ensures e in r {
        var j :| 0 <= j < |versions| && versions[j] == e;
        assert r[j] == e;
      }
      if Unique(versions) {
        forall j | 0 <= j < |versions| ensures versions[j].versionID != meta.versionID {
          assert versions[j] in versions;
        }
      }
    }
  }

  lemma PrunedMeans(max: int, versions: seq<VersionEntry>)
    ensures max > 0 ==> |Pruned(max, versions)| <= max
    ensures Ids(versions) == Ids(Dropped(max, versions)) + Ids(Pruned(max, versions))
    ensures Unique(versions) ==>
              Unique(Pruned(max, versions)) && Ids(Dropped(max, versions)) !! Ids(Pruned(max, versions))
    ensures versions != [] ==> LastID(Pruned(max, versions)) == LastID(versions) && Pruned(max, versions) != []
  {
    var a, b := Dropped(max, versions), Pruned(max, versions);
    assert versions == a + b;
    assert forall e :: e in versions <==> e in a || e in b;
    if Unique(versions) {
      forall e, f | e in a && f in b ensures e.versionID != f.versionID {
        var i :| 0 <= i < |a| && a[i] == e;
        var j :| 0 <= j < |b| && b[j] == f;
        assert versions[i].versionID != versions[|a| + j].versionID;
      }
    }
  }

  /** Retention drops the oldest entries, no more than it must, and nothing without a limit. */
  lemma PrunedIsNewest(max: int, versions: seq<VersionEntry>)
    ensures versions == Dropped(max, versions) + Pruned(max, versions)
    ensures |Pruned(max, versions)| == if max > 0 then Min(max, |versions|) else |versions|
  {
  }

  lemma LastIsListed(versions: seq<VersionEntry>)
    requires versions != []
    ensures LastID(versions) in Ids(versions)
  {
    assert versions[|versions| - 1] in versions;
  }

  /** Among distinct identities, looking an entry up by its identity finds that entry. */
  lemma FindsItself(versions: seq<VersionEntry>, e: VersionEntry)
    requires Unique(versions) && e in versions
    ensures IndexOf(versions, e.versionID) < |versions|
    ensures versions[IndexOf(versions, e.versionID)] == e
  {
    var i :| 0 <= i < |versions| && versions[i] == e;
    var j := IndexOf(versions, e.versionID);
    assert e.versionID in Ids(versions);
    assert j <= i;
  }

  /**
   * Looking up a version among distinct identities: the one entry that has the identity asked for, or the latest when
   * none is named; and which error otherwise.
   */
  lemma ResolveMeans(versions: seq<VersionEntry>, latest: string, id: string)
    requires Unique(versions)
    ensures var wanted := if id == "" then latest else id;
            var r := Resolve(versions, latest, id);
            && (id == "" && latest == "" <==> r == Failure(NoVersions))
            && (wanted != "" && wanted !in Ids(versions) <==> r == Failure(UnknownVersion))
            && (forall e :: r == Success(e) <==> wanted != "" && e in versions && e.versionID == wanted)
  {
    forall e | e in versions ensures IndexOf(versions, e.versionID) < |versions|
                                     && versions[IndexOf(versions, e.versionID)] == e
    {
      FindsItself(versions, e);
    }
  }

  // ---- Version identities ----

  predicate IsHex(c: char) {
    '0' <= c <= '9' || 'a' <= c <= 'f'
  }

  function HexDigit(n: nat): (c: char)
    requires n < 16
    ensures IsHex(c)
  {
    if n < 10 then '0' + n as char else 'a' + (n - 10) as char
  }

  function HexByte(b: byte): (s: string)
    ensures |s| == 2 && IsHex(s[0]) && IsHex(s[1])
  {
    [HexDigit((b >> 4) as nat), HexDigit((b & 0x0f) as nat)]
  }

  function HexBytes(bs: Bytes): (s: string)
    ensures |s| == 2 * |bs|
    ensures forall i :: 0 <= i < |s| ==> IsHex(s[i])
  {
    if bs == [] then [] else HexByte(bs[0]) + HexBytes(bs[1..])
  }

  /** The textual shape of section 4.4 of RFC 4122: 8-4-4-4-12 digits, version 4, its variant. */
  predicate UUIDShape(id: string) {
    && |id| == 36
    && (forall i :: 0 <= i < 36 ==> if i == 8 || i == 13 || i == 18 || i == 23 then id[i] == '-' else IsHex(id[i]))
    && id[14] == '4'
    && id[19] in {'8', '9', 'a', 'b'}
  }

  lemma VersionNibble(b: byte)
    ensures HexByte((b & 0x0f) | 0x40)[0] == '4'
    ensures HexByte((b & 0x3f) | 0x80)[0] in {'8', '9', 'a', 'b'}
  {
    assert ((b & 0x0f) | 0x40) >> 4 == 4;
    var v := ((b & 0x3f) | 0x80) >> 4;
    assert v == 8 || v == 9 || v == 10 || v == 11;
  }

  /** Sixteen random bytes with the version and the variant set. */
  function Masked(draw: Bytes): Bytes
    requires |draw| == 16
  {
    draw[6 := (draw[6] & 0x0f) | 0x40][8 := (draw[8] & 0x3f) | 0x80]
  }

  function UUIDText(b: Bytes): string
    requires |b| == 16
  {
    HexBytes(b[0..4]) + "-" + HexBytes(b[4..6]) + "-" + HexBytes(b[6..8]) + "-"
    + HexBytes(b[8..10]) + "-" + HexBytes(b[10..16])
  }

  lemma HexDigitInjective(m: nat, n: nat)
    requires m < 16 && n < 16 && HexDigit(m) == HexDigit(n)
    ensures m == n
  {
  }

  lemma HexByteInjective(a: byte, b: byte)
    requires HexByte(a) == HexByte(b)
    ensures a == b
  {
    assert HexByte(a)[0] == HexByte(b)[0] && HexByte(a)[1] == HexByte(b)[1];
    HexDigitInjective((a >> 4) as nat, (b >> 4) as nat);
    HexDigitInjective((a & 0x0f) as nat, (b & 0x0f) as nat);
    Nibbles(a, b);
  }

  lemma Nibbles(a: byte, b: byte)
    requires a >> 4 == b >> 4 && a & 0x0f == b & 0x0f
    ensures a == b
  {
    assert ((a >> 4) << 4) | (a & 0x0f) == a;
    assert ((b >> 4) << 4) | (b & 0x0f) == b;
  }

  lemma {:induction false} HexBytesInjective(a: Bytes, b: Bytes)
    requires |a| == |b| && HexBytes(a) == HexBytes(b)
    ensures a == b
  {
    if a != [] {
      assert HexBytes(a)[..2] == HexByte(a[0]) && HexBytes(b)[..2] == HexByte(b[0]);
      assert HexBytes(a)[2..] == HexBytes(a[1..]) && HexBytes(b)[2..] == HexBytes(b[1..]);
      HexByteInjective(a[0], b[0]);
      HexBytesInjective(a[1..], b[1..]);
      assert [a[0]] + a[1..] == a && [b[0]] + b[1..] == b;
    }
  }

  lemma UUIDParts(b: Bytes)
    requires |b| == 16
    ensures var x := UUIDText(b);
            && |x| == 36 && x[0..8] == HexBytes(b[0..4]) && x[9..13] == HexBytes(b[4..6])
                && x[14..18] == HexBytes(b[6..8])
            && x[19..23] == HexBytes(b[8..10]) && x[24..36] == HexBytes(b[10..16])
  {
  }

  lemma PartsRejoin(b: Bytes)
    requires |b| == 16
    ensures b == b[0..4] + b[4..6] + b[6..8] + b[8..10] + b[10..16]
  {
  }

  /** Two identities are equal only if the sixteen bytes they were made from are. */
  lemma UUIDTextInjective(a: Bytes, b: Bytes)
    requires |a| == |b| == 16 && UUIDText(a) == UUIDText(b)
    ensures a == b
  {
    UUIDParts(a);
    UUIDParts(b);
    HexBytesInjective(a[0..4], b[0..4]);
    HexBytesInjective(a[4..6], b[4..6]);
    HexBytesInjective(a[6..8], b[6..8]);
    HexBytesInjective(a[8..10], b[8..10]);
    HexBytesInjective(a[10..16], b[10..16]);
    PartsRejoin(a);
    PartsRejoin(b);
  }

  lemma MaskedShape(draw: Bytes)
    requires |draw| == 16
    ensures UUIDShape(UUIDText(Masked(draw)))
  {
    var b, id := Masked(draw), UUIDText(Masked(draw));
    VersionNibble(draw[6]);
    VersionNibble(draw[8]);
    assert id[14] == HexBytes(b[6..8])[0] == HexByte(b[6])[0];
    assert id[19] == HexBytes(b[8..10])[0] == HexByte(b[8])[0];
  }

  /** The identity has the shape of a version 4 UUID and is the text of the draw: no random bit is lost. */
  method NewUUID(b: array<byte>) returns (id: string)
    requires b.Length == 16
    modifies b
    ensures UUIDShape(id) && id == UUIDText(Masked(old(b[..])))
  {
    MaskedShape(b[..]);
    b[6] := (b[6] & 0x0f) | 0x40;
    b[8] := (b[8] & 0x3f) | 0x80;
    assert b[..] == Masked(old(b[..]));
    id := UUIDText(b[..]);
  }

  function VersionedKey(key: string, versionID: string): string {
    key + "@" + versionID
  }

  /** Keys may contain any character, '@' included: the fixed length of the identity decides. */
  lemma VersionedKeyInjective(k1: string, id1: string, k2: string, id2: string)
    requires UUIDShape(id1) && UUIDShape(id2)
    ensures VersionedKey(k1, id1) == VersionedKey(k2, id2) <==> k1 == k2 && id1 == id2
  {
    var a, b := VersionedKey(k1, id1), VersionedKey(k2, id2);
    if a == b {
      assert |k1| == |k2|;
      assert a[..|k1|] == k1 && b[..|k2|] == k2;
      assert a[|k1| + 1..] == id1 && b[|k2| + 1..] == id2;
    }
  }
}
