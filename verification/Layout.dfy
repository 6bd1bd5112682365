/** Where things are on disk: the path functions of internal/store/store.go and version.go. */
module Layout {
  import opened Files
  import opened Versions

  /** SHA-1 followed by hexadecimal encoding. */
  type Digest = string -> string

  ghost predicate IsDigest(sha: Digest) {
    forall s :: |sha(s)| == 40 && forall c <- sha(s) :: IsHex(c)
  }

  const BLOCK_SIZE: nat := 5

  datatype PathKey = PathKey(pathName: string, filename: string)

  /** strings.Join and strings.Split with a slash. */
  function Join(parts: seq<string>): string {
    if parts == [] then ""
    else if |parts| == 1 then parts[0]
    else parts[0] + "/" + Join(parts[1..])
  }

  function FirstSlash(s: string): (i: nat)
    ensures i <= |s|
    ensures forall j :: 0 <= j < i ==> s[j] != '/'
    ensures i < |s| ==> s[i] == '/'
  {
    if s == "" || s[0] == '/' then 0 else 1 + FirstSlash(s[1..])
  }

  function Split(s: string): (parts: seq<string>)
    ensures parts != []
    decreases |s|
  {
    var i := FirstSlash(s);
    if i == |s| then [s] else [s[..i]] + Split(s[i + 1..])
  }

  lemma {:induction false} SplitJoin(parts: seq<string>)
    requires parts != [] && forall p <- parts :: '/' !in p
    ensures Split(Join(parts)) == parts
  {
    var s := Join(parts);
    var i := FirstSlash(s);
    assert '/' !in parts[0] by { assert parts[0] in parts; }
    if |parts| == 1 {
      assert i == |s|;
    } else {
      assert s == parts[0] + "/" + Join(parts[1..]);
      assert s[|parts[0]|] == '/';
      assert forall j :: 0 <= j < |parts[0]| ==> s[j] == parts[0][j];
      assert i == |parts[0]|;
      assert s[..i] == parts[0] && s[i + 1..] == Join(parts[1..]);
      SplitJoin(parts[1..]);
    }
  }

  function Blocks(hash: string): seq<string> {
    seq(|hash| / BLOCK_SIZE, i requires 0 <= i < |hash| / BLOCK_SIZE =>
      hash[i * BLOCK_SIZE..i * BLOCK_SIZE + BLOCK_SIZE])
  }

  function CASPath(hash: string): PathKey {
    PathKey(Join(Blocks(hash)), hash)
  }

  method CASPathTransformFunc(sha: Digest, key: string) returns (pathKey: PathKey)
    ensures pathKey == CASPath(sha(key))
  {
    var hashStr := sha(key);
    var numBlocks := |hashStr| / BLOCK_SIZE;
    var parts := new string[numBlocks];
    for i := 0 to numBlocks
      invariant forall j :: 0 <= j < i ==> parts[j] == hashStr[j * BLOCK_SIZE..j * BLOCK_SIZE + BLOCK_SIZE]
    {
      var from := i * BLOCK_SIZE;
      parts[i] := hashStr[from..from + BLOCK_SIZE];
    }
    assert parts[..] == Blocks(hashStr);
    pathKey := PathKey(Join(parts[..]), hashStr);
  }

  function FirstPathName(pathKey: PathKey): string {
    Split(pathKey.pathName)[0]
  }

  function FullPath(pathKey: PathKey): string {
    pathKey.pathName + "/" + pathKey.filename
  }

  ghost function Concat(parts: seq<string>): string {
    if parts == [] then "" else Concat(parts[..|parts| - 1]) + parts[|parts| - 1]
  }

  lemma {:induction false} ConcatBlocks(hash: string, n: nat)
    requires n * BLOCK_SIZE <= |hash|
    ensures n <= |Blocks(hash)| && Concat(Blocks(hash)[..n]) == hash[..n * BLOCK_SIZE]
  {
    if n > 0 {
      ConcatBlocks(hash, n - 1);
      assert Blocks(hash)[..n][..n - 1] == Blocks(hash)[..n - 1];
      assert Blocks(hash)[..n][n - 1] == hash[(n - 1) * BLOCK_SIZE..(n - 1) * BLOCK_SIZE + BLOCK_SIZE];
      assert hash[..n * BLOCK_SIZE] == hash[..(n - 1) * BLOCK_SIZE] + hash[(n - 1) * BLOCK_SIZE..n * BLOCK_SIZE];
    }
  }

  /**
   * The path of a 40-digit digest: eight blocks of five that rejoin to the digest, the first of which
   * is the directory that deletion removes; the joined text splits back into exactly these parts.
   */
  lemma CASPathShape(hash: string)
    requires |hash| == 40 && forall c <- hash :: IsHex(c)
    ensures |Blocks(hash)| == 8 && Concat(Blocks(hash)) == hash
    ensures forall b <- Blocks(hash) :: |b| == BLOCK_SIZE && '/' !in b
    ensures Split(CASPath(hash).pathName) == Blocks(hash)
    ensures FirstPathName(CASPath(hash)) == hash[..BLOCK_SIZE]
    ensures Split(FullPath(CASPath(hash))) == Blocks(hash) + [hash]
  {
    ConcatBlocks(hash, 8);
    assert Blocks(hash)[..8] == Blocks(hash) && hash[..40] == hash;
    forall b | b in Blocks(hash) ensures '/' !in b {
      var i :| 0 <= i < 8 && Blocks(hash)[i] == b;
      forall c | c in b ensures c in hash { }
    }
    SplitJoin(Blocks(hash));
    JoinSnoc(Blocks(hash), hash);
    assert '/' !in hash;
    SplitJoin(Blocks(hash) + [hash]);
  }

  lemma {:induction false} JoinSnoc(parts: seq<string>, last: string)
    requires parts != []
    ensures Join(parts + [last]) == Join(parts) + "/" + last
  {
    if |parts| == 1 {
      assert (parts + [last])[1..] == [last];
    } else {
      assert (parts + [last])[1..] == parts[1..] + [last];
      JoinSnoc(parts[1..], last);
      assert Join(parts + [last]) == parts[0] + "/" + (Join(parts[1..]) + "/" + last);
    }
  }

  // ---- Sites, names and their files ----

  /** One logical file of one node: the unit of locking and of indexing. */
  datatype Site = Site(node: string, key: string)

  /** One version of one logical file. */
  datatype Name = Name(site: Site, id: string)

  function Hash(sha: Digest, name: Name): string {
    sha(VersionedKey(name.site.key, name.id))
  }

  function BlobPath(sha: Digest, name: Name): Path {
    [name.site.node] + Blocks(Hash(sha, name)) + [Hash(sha, name)]
  }

  /** The directory deleteVersionBlob removes. */
  function BucketPath(sha: Digest, name: Name): Path
    requires |Hash(sha, name)| >= BLOCK_SIZE
  {
    [name.site.node, Hash(sha, name)[..BLOCK_SIZE]]
  }

  function IndexPath(sha: Digest, s: Site): Path {
    [s.node, ".vindex", sha(s.key) + ".json"]
  }

  function TmpPath(sha: Digest, s: Site): Path {
    [s.node, ".vindex", sha(s.key) + ".json" + ".tmp"]
  }

  /** The logical files and versions in use. */
  datatype Universe = Universe(sites: set<Site>, names: set<Name>)

  /** If they are of one node and their digests begin alike, they are the same version. */
  ghost predicate Told(sha: Digest, a: Name, b: Name, digits: nat)
    requires IsDigest(sha) && digits <= 40
  {
    a.site.node == b.site.node && sha(a.site.key + "@" + a.id)[..digits] == sha(b.site.key + "@" + b.id)[..digits]
    ==> a == b
  }

  /**
   * SHA-1 has no collision among the keys in use, and no two versions in use of one node agree on the
   * first five digits of the digests of key and identity joined.
   */
  ghost predicate Apart(sha: Digest, u: Universe) {
    && IsDigest(sha)
    && (forall n <- u.names :: n.site in u.sites)
    && (forall s, t :: s in u.sites && t in u.sites && s.node == t.node && sha(s.key) == sha(t.key) ==> s == t)
    && (forall a, b {:trigger Told(sha, a, b, BLOCK_SIZE)} ::
          a in u.names && b in u.names ==> Told(sha, a, b, BLOCK_SIZE))
  }

  /** The directories that deletion removes are then different. */
  lemma BucketsDiffer(sha: Digest, u: Universe, a: Name, b: Name)
    requires Apart(sha, u) && a in u.names && b in u.names
    ensures BucketPath(sha, a) == BucketPath(sha, b) <==> a == b
  {
    assert Told(sha, a, b, BLOCK_SIZE);
    assert BucketPath(sha, a)[0] == a.site.node && BucketPath(sha, b)[0] == b.site.node;
    assert BucketPath(sha, a)[1] == sha(a.site.key + "@" + a.id)[..BLOCK_SIZE];
    assert BucketPath(sha, b)[1] == sha(b.site.key + "@" + b.id)[..BLOCK_SIZE];
  }

  // ---- What is assumed of SHA-1 ----

  /** Among these texts, no two have digests that begin with the same digits. */
  ghost predicate Separates(sha: Digest, texts: set<string>, digits: nat)
    requires IsDigest(sha) && digits <= 40
  {
    forall x, y :: x in texts && y in texts && sha(x)[..digits] == sha(y)[..digits] ==> x == y
  }

  function KeyTexts(u: Universe, node: string): set<string> {
    set s | s in u.sites && s.node == node :: s.key
  }

  function VersionTexts(u: Universe, node: string): set<string> {
    set n | n in u.names && n.site.node == node :: n.site.key + "@" + n.id
  }

  /** Every version in use is of a file in use and has an identity as NewUUID makes them. */
  ghost predicate UUIDs(u: Universe) {
    forall n <- u.names :: n.site in u.sites && UUIDShape(n.id)
  }

  /** Of keys and identities joined, all that matters is whether the texts are the same. */
  lemma TextsTell(a: Name, b: Name)
    requires UUIDShape(a.id) && UUIDShape(b.id) && a.site.node == b.site.node
    ensures a.site.key + "@" + a.id == b.site.key + "@" + b.id <==> a == b
  {
    VersionedKeyInjective(a.site.key, a.id, b.site.key, b.id);
  }

  /**
   * For identities as they are minted, that is an assumption about SHA-1 and the joined texts of each node alone, and
   * no stronger one.
   */
  lemma ApartIffSeparated(sha: Digest, u: Universe)
    requires IsDigest(sha) && UUIDs(u)
    ensures Apart(sha, u) <==>
            forall s <- u.sites ::
              Separates(sha, KeyTexts(u, s.node), 40) && Separates(sha, VersionTexts(u, s.node), BLOCK_SIZE)
  {
    if Apart(sha, u) {
      forall s | s in u.sites
        ensures Separates(sha, KeyTexts(u, s.node), 40) && Separates(sha, VersionTexts(u, s.node), BLOCK_SIZE)
      {
        ApartIsSeparated(sha, u, s.node);
      }
    }
    if forall s <- u.sites ::
         Separates(sha, KeyTexts(u, s.node), 40) && Separates(sha, VersionTexts(u, s.node), BLOCK_SIZE)
    {
      SeparatedIsApart(sha, u);
    }
  }

  lemma ApartIsSeparated(sha: Digest, u: Universe, node: string)
    requires Apart(sha, u)
    ensures Separates(sha, KeyTexts(u, node), 40) && Separates(sha, VersionTexts(u, node), BLOCK_SIZE)
  {
    forall x, y | x in VersionTexts(u, node) && y in VersionTexts(u, node)
             && sha(x)[..BLOCK_SIZE] == sha(y)[..BLOCK_SIZE]
      ensures x == y
    {
      var a :| a in u.names && a.site.node == node && x == a.site.key + "@" + a.id;
      var b :| b in u.names && b.site.node == node && y == b.site.key + "@" + b.id;
      assert Told(sha, a, b, BLOCK_SIZE);
    }
    forall x, y | x in KeyTexts(u, node) && y in KeyTexts(u, node) && sha(x)[..40] == sha(y)[..40] ensures x == y {
      assert sha(x)[..40] == sha(x) && sha(y)[..40] == sha(y);
    }
  }

  lemma SeparatedIsApart(sha: Digest, u: Universe)
    requires IsDigest(sha) && UUIDs(u)
    requires forall s <- u.sites ::
               Separates(sha, KeyTexts(u, s.node), 40) && Separates(sha, VersionTexts(u, s.node), BLOCK_SIZE)
    ensures Apart(sha, u)
  {
    forall a, b | a in u.names && b in u.names ensures Told(sha, a, b, BLOCK_SIZE) {
      SeparatedTells(sha, u, a, b, BLOCK_SIZE);
    }
    forall s, t | s in u.sites && t in u.sites && s.node == t.node && sha(s.key) == sha(t.key) ensures s == t {
      assert s.key in KeyTexts(u, s.node) && t.key in KeyTexts(u, s.node);
    }
  }

  lemma SeparatedTells(sha: Digest, u: Universe, a: Name, b: Name, digits: nat)
    requires IsDigest(sha) && UUIDs(u) && a in u.names && b in u.names && digits <= 40
    requires Separates(sha, VersionTexts(u, a.site.node), digits)
    ensures Told(sha, a, b, digits)
  {
    if a.site.node == b.site.node {
      assert a.site.key + "@" + a.id in VersionTexts(u, a.site.node);
      assert b.site.key + "@" + b.id in VersionTexts(u, a.site.node);
      TextsTell(a, b);
    }
  }

  /** Versions told apart by their whole digests are different files. */
  lemma BlobsTold(sha: Digest, a: Name, b: Name)
    requires IsDigest(sha) && Told(sha, a, b, 40)
    ensures BlobPath(sha, a) == BlobPath(sha, b) <==> a == b
  {
    if BlobPath(sha, a) == BlobPath(sha, b) {
      NoPathInsideAnother(sha, a, b, a.site);
      assert Hash(sha, a)[..40] == sha(a.site.key + "@" + a.id)[..40];
      assert Hash(sha, b)[..40] == sha(b.site.key + "@" + b.id)[..40];
    }
  }

  /** If SHA-1 has no collision among the joined texts of a node, its versions are all different files. */
  lemma PathsTellVersions(sha: Digest, u: Universe, a: Name, b: Name)
    requires IsDigest(sha) && UUIDs(u) && a in u.names && b in u.names
    requires Separates(sha, VersionTexts(u, a.site.node), 40)
    ensures BlobPath(sha, a) == BlobPath(sha, b) <==> a == b
  {
    SeparatedTells(sha, u, a, b, 40);
    BlobsTold(sha, a, b);
  }

  /** The paths that operations on one logical file may touch. */
  ghost predicate Owns(sha: Digest, u: Universe, s: Site, p: Path)
    requires IsDigest(sha)
  {
    || p == IndexPath(sha, s)
    || p == TmpPath(sha, s)
    || exists id :: Name(s, id) in u.names && BucketPath(sha, Name(s, id)) <= p
  }

  lemma BlobInBucket(sha: Digest, name: Name)
    requires IsDigest(sha)
    ensures BucketPath(sha, name) <= BlobPath(sha, name)
    ensures |BlobPath(sha, name)| == 10
  {
    assert Blocks(Hash(sha, name))[0] == Hash(sha, name)[..BLOCK_SIZE];
  }

  /** A directory removed for one version holds the blob of another exactly if their buckets agree. */
  lemma BucketHolds(sha: Digest, a: Name, b: Name)
    requires IsDigest(sha)
    ensures BucketPath(sha, a) <= BlobPath(sha, b) <==> BucketPath(sha, a) == BucketPath(sha, b)
  {
    BlobInBucket(sha, b);
    if BucketPath(sha, a) <= BlobPath(sha, b) {
      assert BlobPath(sha, b)[..2] == BucketPath(sha, b);
    }
  }

  /** Index files are outside every bucket, are not each other's temporaries, and tell keys apart. */
  lemma IndexOutsideBuckets(sha: Digest, name: Name, s: Site, t: Site)
    requires IsDigest(sha)
    ensures !(BucketPath(sha, name) <= IndexPath(sha, s)) && !(BucketPath(sha, name) <= TmpPath(sha, s))
    ensures IndexPath(sha, s) != TmpPath(sha, t)
    ensures IndexPath(sha, s) == IndexPath(sha, t) <==> s.node == t.node && sha(s.key) == sha(t.key)
    ensures TmpPath(sha, s) == TmpPath(sha, t) <==> s.node == t.node && sha(s.key) == sha(t.key)
  {
    assert |BucketPath(sha, name)[1]| == 5 && |IndexPath(sha, s)[1]| == 7 && |TmpPath(sha, s)[1]| == 7;
    var x, y := sha(s.key), sha(t.key);
    assert |IndexPath(sha, s)[2]| == 45 && |TmpPath(sha, t)[2]| == 49;
    assert (x + ".json")[..40] == x && (y + ".json")[..40] == y;
    assert (x + ".json" + ".tmp")[..40] == x && (y + ".json" + ".tmp")[..40] == y;
  }

  /** Within one node, no blob path is an ancestor of another blob path or of an index path, nor below one. */
  lemma NoPathInsideAnother(sha: Digest, a: Name, b: Name, s: Site)
    requires IsDigest(sha)
    ensures BlobPath(sha, a) <= BlobPath(sha, b) <==> a.site.node == b.site.node && Hash(sha, a) == Hash(sha, b)
    ensures !(BlobPath(sha, a) <= IndexPath(sha, s)) && !(IndexPath(sha, s) <= BlobPath(sha, a))
    ensures !(BlobPath(sha, a) <= TmpPath(sha, s)) && !(TmpPath(sha, s) <= BlobPath(sha, a))
  {
    BlobInBucket(sha, a);
    BlobInBucket(sha, b);
    IndexOutsideBuckets(sha, a, s, s);
    assert BlobPath(sha, a)[9] == Hash(sha, a) && BlobPath(sha, b)[9] == Hash(sha, b);
    assert BlobPath(sha, a)[0] == a.site.node && BlobPath(sha, b)[0] == b.site.node;
    assert |BlobPath(sha, a)[1]| == 5;
  }

  /** Different logical files touch different paths. */
  lemma OwnersDiffer(sha: Digest, u: Universe, s: Site, t: Site, p: Path)
    requires Apart(sha, u) && s in u.sites && t in u.sites
    requires Owns(sha, u, s, p) && Owns(sha, u, t, p)
    ensures s == t
  {
    var dummy := Name(s, "");
    IndexOutsideBuckets(sha, dummy, s, t);
    IndexOutsideBuckets(sha, dummy, t, s);
    forall id
      ensures !(BucketPath(sha, Name(s, id)) <= IndexPath(sha, t)) && !(BucketPath(sha, Name(s, id)) <= TmpPath(sha, t))
    {
      IndexOutsideBuckets(sha, Name(s, id), t, t);
    }
    forall id
      ensures !(BucketPath(sha, Name(t, id)) <= IndexPath(sha, s)) && !(BucketPath(sha, Name(t, id)) <= TmpPath(sha, s))
    {
      IndexOutsideBuckets(sha, Name(t, id), s, s);
    }
    if p != IndexPath(sha, s) && p != TmpPath(sha, s) {
      var i :| Name(s, i) in u.names && BucketPath(sha, Name(s, i)) <= p;
      var j :| Name(t, j) in u.names && BucketPath(sha, Name(t, j)) <= p;
      BucketsDiffer(sha, u, Name(s, i), Name(t, j));
      assert p[..2] == BucketPath(sha, Name(s, i)) == BucketPath(sha, Name(t, j));
    }
  }
}
