/**
 * The disk: a map from paths to contents, the file operations weaveFS uses on it, and the states a
 * crash can leave behind. Also internal/fsutil/atomic.go.
 */
module Files {
  import opened Base

  /** The components of a path relative to the storage root. */
  type Path = seq<string>

  type Disk = map<Path, Bytes>

  /** One file operation. */
  datatype Micro =
    | Put(path: Path, data: Bytes)        // create or truncate, then write
    | Move(from: Path, to: Path)          // rename
    | Wipe(dir: Path)                     // remove a whole subtree
    | Remove(path: Path)

  function At(d: Disk, p: Path): Option<Bytes> {
    if p in d then Some(d[p]) else None
  }

  function Apply(d: Disk, m: Micro): Disk {
    match m
    case Put(p, data) => d[p := data]
    case Move(from, to) => if from in d then (d - {from})[to := d[from]] else d
    case Wipe(dir) => map p | p in d && !(dir <= p) :: d[p]
    case Remove(p) => d - {p}
  }

  function Exec(d: Disk, ms: seq<Micro>): Disk
    decreases |ms|
  {
    if ms == [] then d else Exec(Apply(d, ms[0]), ms[1..])
  }

  /**
   * c can be found on disk if the process stops somewhere between the beginning and the end of m.
   * Writing is not atomic, nor is removing a subtree; renaming is.
   */
  ghost predicate Midway(d: Disk, m: Micro, c: Disk) {
    || c == d
    || c == Apply(d, m)
    || (m.Put? && exists n: nat :: n <= |m.data| && c == d[m.path := m.data[..n]])
    || (m.Wipe? && (forall p :: p in c ==> At(c, p) == At(d, p))
                && (forall p :: p in d && !(m.dir <= p) ==> p in c))
  }

  /** c can be found on disk if the process stops anywhere in a sequence of file operations. */
  ghost predicate CrashPoint(d: Disk, ms: seq<Micro>, c: Disk)
    decreases |ms|
  {
    if ms == [] then c == d
    else Midway(d, ms[0], c) || CrashPoint(Apply(d, ms[0]), ms[1..], c)
  }

  lemma {:induction false} ExecConcat(d: Disk, a: seq<Micro>, b: seq<Micro>)
    ensures Exec(d, a + b) == Exec(Exec(d, a), b)
    decreases |a|
  {
    if a == [] {
      assert a + b == b;
    } else {
      assert (a + b)[1..] == a[1..] + b;
      ExecConcat(Apply(d, a[0]), a[1..], b);
    }
  }

  lemma {:induction false} CrashConcat(d: Disk, a: seq<Micro>, b: seq<Micro>, c: Disk)
    ensures CrashPoint(d, a + b, c) <==> CrashPoint(d, a, c) || CrashPoint(Exec(d, a), b, c)
    decreases |a|
  {
    if a == [] {
      assert a + b == b;
    } else {
      assert (a + b)[1..] == a[1..] + b;
      CrashConcat(Apply(d, a[0]), a[1..], b, c);
    }
  }

  /**
   * The file system of one machine. `seen` holds every state the disk has been in, the states in the
   * middle of an operation included, so it is where a crash could have stopped the process.
   */
  class FileSystem {
    var disk: Disk
    ghost var seen: iset<Disk>

    constructor (disk: Disk)
      ensures this.disk == disk && seen == iset{disk}
    {
      this.disk := disk;
      this.seen := iset{disk};
    }

    /** os.Create: an existing file is truncated at once. */
    method Create(path: Path)
      modifies this
      ensures disk == old(disk)[path := []]
      ensures seen == old(seen) + iset{disk}
    {
      disk := disk[path := []];
      seen := seen + iset{disk};
    }

    /** Other goroutines have had the disk, and this is what they made of it. */
    method Interleave(d: Disk)
      modifies this
      ensures disk == d && seen == old(seen) + iset{d}
    {
      disk := d;
      seen := seen + iset{d};
    }

    method Append(path: Path, data: Bytes)
      requires path in disk
      modifies this
      ensures disk == old(disk)[path := old(disk)[path] + data]
      ensures seen == old(seen) + iset n: nat | n <= |data| :: old(disk)[path := old(disk)[path] + data[..n]]
    {
      seen := seen + iset n: nat | n <= |data| :: disk[path := disk[path] + data[..n]];
      disk := disk[path := disk[path] + data];
    }

    /** os.Rename. */
    method Rename(from: Path, to: Path)
      requires from in disk
      modifies this
      ensures disk == Apply(old(disk), Move(from, to))
      ensures seen == old(seen) + iset{disk}
    {
      disk := (disk - {from})[to := disk[from]];
      seen := seen + iset{disk};
    }

    /** os.RemoveAll: the files below go one by one, in no particular order. */
    method RemoveAll(dir: Path)
      modifies this
      ensures disk == Apply(old(disk), Wipe(dir))
      ensures seen == old(seen) + iset c: Disk | Midway(old(disk), Wipe(dir), c)
    {
      seen := seen + iset c: Disk | Midway(disk, Wipe(dir), c);
      disk := map p | p in disk && !(dir <= p) :: disk[p];
    }

    method RemoveFile(path: Path)
      modifies this
      ensures disk == old(disk) - {path}
      ensures seen == old(seen) + iset{disk}
    {
      disk := disk - {path};
      seen := seen + iset{disk};
    }

    /** os.WriteFile. */
    method WriteFile(path: Path, data: Bytes)
      modifies this
      ensures disk == Apply(old(disk), Put(path, data))
      ensures forall c :: c in seen ==> c in old(seen) || Midway(old(disk), Put(path, data), c)
    {
      Create(path);
      assert old(disk)[path := []] == old(disk)[path := data[..0]];
      Append(path, data);
      assert forall n: nat :: n <= |data| ==> [] + data[..n] == data[..n];
      assert [] + data == data;
      forall c | c in seen && c !in old(seen) ensures Midway(old(disk), Put(path, data), c) {
        if c != old(disk)[path := []] {
          var n: nat :| n <= |data| && c == old(disk)[path := []][path := data[..n]];
          assert c == old(disk)[path := data[..n]];
        }
      }
    }
  }

  lemma OneMicro(d: Disk, m: Micro)
    ensures Exec(d, [m]) == Apply(d, m)
    ensures forall c :: CrashPoint(d, [m], c) <==> Midway(d, m, c)
  {
    assert [m][1..] == [];
    assert Exec(d, [m]) == Exec(Apply(d, m), []);
    forall c ensures CrashPoint(d, [m], c) <==> Midway(d, m, c) {
      assert CrashPoint(d, [m], c) <==> Midway(d, m, c) || CrashPoint(Apply(d, m), [], c);
    }
  }

  lemma TwoSteps(d: Disk, a: Micro, b: Micro)
    ensures Exec(d, [a, b]) == Apply(Apply(d, a), b)
    ensures forall c :: CrashPoint(d, [a, b], c) <==> Midway(d, a, c) || Midway(Apply(d, a), b, c)
  {
    assert [a, b][1..] == [b];
    OneMicro(Apply(d, a), b);
  }

  function ReplacePlan(tmp: Path, path: Path, data: Bytes): seq<Micro> {
    [Put(tmp, data), Move(tmp, path)]
  }

  /** WriteFileAtomic: a temporary sibling is written and then renamed over the target. */
  method WriteFileAtomic(fs: FileSystem, tmp: Path, path: Path, data: Bytes)
    requires tmp != path
    modifies fs
    ensures fs.disk == Exec(old(fs.disk), ReplacePlan(tmp, path, data))
    ensures forall c :: c in fs.seen ==> c in old(fs.seen) || CrashPoint(old(fs.disk), ReplacePlan(tmp, path, data), c)
  {
    fs.WriteFile(tmp, data);
    fs.Rename(tmp, path);
    TwoSteps(old(fs.disk), Put(tmp, data), Move(tmp, path));
  }

  /**
   * Wherever the process stops inside an atomic replacement, the target holds its old content or
   * the whole new content, and nothing besides the temporary file has changed.
   */
  lemma ReplaceIsAtomic(d: Disk, tmp: Path, path: Path, data: Bytes, c: Disk)
    requires tmp != path
    requires CrashPoint(d, ReplacePlan(tmp, path, data), c)
    ensures At(c, path) == At(d, path) || At(c, path) == Some(data)
    ensures forall p :: p != path && p != tmp ==> At(c, p) == At(d, p)
    ensures At(Exec(d, ReplacePlan(tmp, path, data)), path) == Some(data)
    ensures At(c, path) != At(d, path) ==> c == Exec(d, ReplacePlan(tmp, path, data))
  {
    TwoSteps(d, Put(tmp, data), Move(tmp, path));
  }
}
