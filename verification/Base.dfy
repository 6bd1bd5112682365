/** Bytes, results and the incoming byte stream shared by every other module. */
module Base {

  type byte = bv8
  type Bytes = seq<byte>

  datatype Option<+T> = None | Some(value: T)

  /** The reasons an operation of weaveFS can fail, one per error path of the program. */
  datatype Error =
    | SourceFailed      // the reader handed in returned an error before its end
    | CorruptIndex      // the index file does not parse
    | NoVersions        // the latest version was asked for and there is none
    | UnknownVersion    // the version asked for is not listed
    | MissingBlob       // the index lists the version but its file is absent
    | MissingVersionID  // a raw write without a version identity
    | ShortHeader       // a blob shorter than the cipher's header
    | NotABlob          // the magic is wrong
    | UnsupportedFormat // the format version is wrong
    | TooLarge          // a message header over the limit
    | BadMessage        // a payload that does not decode
    | CorruptKey        // the key file does not hold a key
    | NoPeerHolds       // no connected peer supplied the version

  datatype Result<+T> = Success(value: T) | Failure(error: Error)

  datatype ReadStatus = Got | Ended | Broken

  function Min(a: nat, b: nat): (m: nat)
    ensures m == a || m == b
    ensures m <= a && m <= b
  {
    if a < b then a else b
  }

  /** The first n bytes, or all of them when there are fewer. */
  function Prefix(s: Bytes, n: nat): (p: Bytes)
    ensures p <= s && |p| == Min(n, |s|)
  {
    s[..Min(n, |s|)]
  }

  /**
   * The receiving end of a connection or an open file. `rest` is what will still arrive;
   * after it the reader sees a clean end of file or an error. How the bytes are cut into
   * pieces is left open: every Read may return any non-empty piece that fits.
   */
  class Stream {
    var rest: Bytes
    const clean: bool

    constructor (rest: Bytes, clean: bool)
      ensures this.rest == rest && this.clean == clean
    {
      this.rest := rest;
      this.clean := clean;
    }

    method Read(max: nat) returns (piece: Bytes, status: ReadStatus)
      requires 0 < max
      modifies this
      ensures old(rest) == piece + rest && |piece| <= max
      ensures status == Got <==> piece != []
      ensures status != Got ==> old(rest) == [] && (status == Ended <==> clean)
    {
      if rest == [] {
        piece := [];
        status := if clean then Ended else Broken;
      } else {
        var n: nat :| 0 < n <= max && n <= |rest|;
        piece, rest := rest[..n], rest[n..];
        status := Got;
      }
    }

    /** io.ReadFull: loop until n bytes have arrived or the stream is over. */
    method ReadFull(n: nat) returns (r: Result<Bytes>)
      modifies this
      ensures |old(rest)| >= n ==> r == Success(old(rest)[..n]) && rest == old(rest)[n..]
      ensures |old(rest)| < n ==> r == Failure(SourceFailed) && rest == []
    {
      var buffer: Bytes := [];
      while |buffer| < n
        invariant |buffer| <= n
        invariant old(rest) == buffer + rest
      {
        var piece, status := Read(n - |buffer|);
        if status != Got {
          return Failure(SourceFailed);
        }
        buffer := buffer + piece;
      }
      assert buffer == old(rest)[..n];
      return Success(buffer);
    }
  }
}
