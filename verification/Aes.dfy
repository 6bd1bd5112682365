/**
 * internal/crypto/aes.go: blobs encrypted in counter mode (section 6.5 of NIST SP 800-38A).
 * The block cipher itself is a parameter: the keystream byte at a position, for an IV.
 */
module Aes {
  import opened Base

  type Keystream = (Bytes, nat) -> byte

  const MAGIC: Bytes := [0x57, 0x46, 0x53, 0x31]
  const FORMAT_VERSION: byte := 0x01
  const IV_SIZE: nat := 16
  const HEADER_SIZE: nat := |MAGIC| + 1 + IV_SIZE

  /** Counter mode: each byte is combined with the keystream byte of its own position. */
  function Mask(ks: Keystream, iv: Bytes, data: Bytes, pos: nat): (r: Bytes)
    ensures |r| == |data|
  {
    seq(|data|, i requires 0 <= i < |data| => data[i] ^ ks(iv, pos + i))
  }

  lemma XorTwice(a: byte, b: byte)
    ensures (a ^ b) ^ b == a
  {
  }

  lemma MaskTwice(ks: Keystream, iv: Bytes, data: Bytes, pos: nat)
    ensures Mask(ks, iv, Mask(ks, iv, data, pos), pos) == data
  {
    var twice := Mask(ks, iv, Mask(ks, iv, data, pos), pos);
    forall i | 0 <= i < |data| ensures twice[i] == data[i] {
      XorTwice(data[i], ks(iv, pos + i));
    }
  }

  lemma MaskConcat(ks: Keystream, iv: Bytes, a: Bytes, b: Bytes, pos: nat)
    ensures Mask(ks, iv, a + b, pos) == Mask(ks, iv, a, pos) + Mask(ks, iv, b, pos + |a|)
  {
  }

  lemma MaskPrefix(ks: Keystream, iv: Bytes, data: Bytes, n: nat)
    requires n <= |data|
    ensures Mask(ks, iv, data, 0)[..n] == Mask(ks, iv, data[..n], 0)
  {
  }

  function Header(iv: Bytes): Bytes {
    MAGIC + [FORMAT_VERSION] + iv
  }

  /** The blob a plaintext is stored as. */
  function Seal(ks: Keystream, iv: Bytes, plain: Bytes): Bytes {
    Header(iv) + Mask(ks, iv, plain, 0)
  }

  /**
   * The format byte by byte: four letters, the format version, the IV, and then each byte of the plaintext combined
   * with the keystream byte of its own position.
   */
  ghost predicate InCounterMode(ks: Keystream, iv: Bytes, plain: Bytes, blob: Bytes) {
    && |iv| == 16 && |blob| == 21 + |plain|
    && blob[0] == 'W' as byte && blob[1] == 'F' as byte && blob[2] == 'S' as byte && blob[3] == '1' as byte
    && blob[4] == 1
    && (forall i :: 0 <= i < 16 ==> blob[5 + i] == iv[i])
    && (forall i :: 0 <= i < |plain| ==> blob[21 + i] == plain[i] ^ ks(iv, i))
  }

  /** What is stored for a plaintext is exactly that. */
  lemma SealedIff(ks: Keystream, iv: Bytes, plain: Bytes, blob: Bytes)
    requires |iv| == IV_SIZE
    ensures blob == Seal(ks, iv, plain) <==> InCounterMode(ks, iv, plain, blob)
  {
    var sealed := Seal(ks, iv, plain);
    forall i | 0 <= i < 16 ensures sealed[5 + i] == iv[i] { }
    forall i | 0 <= i < |plain| ensures sealed[21 + i] == plain[i] ^ ks(iv, i) { }
    if InCounterMode(ks, iv, plain, blob) {
      forall k | 0 <= k < |blob| ensures blob[k] == sealed[k] {
        if 5 <= k < 21 {
          assert blob[5 + (k - 5)] == iv[k - 5];
        } else if 21 <= k {
          assert blob[21 + (k - 21)] == plain[k - 21] ^ ks(iv, k - 21);
        }
      }
    }
  }

  /** What reading a blob through the cipher yields. */
  function Open(ks: Keystream, blob: Bytes): Result<Bytes> {
    if |blob| < HEADER_SIZE then Failure(ShortHeader)
    else if blob[..|MAGIC|] != MAGIC then Failure(NotABlob)
    else if blob[|MAGIC|] != FORMAT_VERSION then Failure(UnsupportedFormat)
    else Success(Mask(ks, blob[|MAGIC| + 1..HEADER_SIZE], blob[HEADER_SIZE..], 0))
  }

  /**
   * The writer EncryptWriter returns. It remembers only how far into the keystream it is; Write
   * yields the bytes that go on to the writer underneath.
   */
  class StreamWriter {
    const ks: Keystream
    const iv: Bytes
    var pos: nat

    constructor (ks: Keystream, iv: Bytes)
      ensures this.ks == ks && this.iv == iv && pos == 0
    {
      this.ks := ks;
      this.iv := iv;
      this.pos := 0;
    }

    method Write(piece: Bytes) returns (out: Bytes)
      modifies this
      ensures out == Mask(ks, iv, piece, old(pos))
      ensures pos == old(pos) + |piece|
    {
      out := Mask(ks, iv, piece, pos);
      pos := pos + |piece|;
    }
  }

  /** The reader DecryptReader returns once it has consumed and checked the header. */
  class StreamReader {
    const ks: Keystream
    const iv: Bytes
    const src: Stream
    var pos: nat

    constructor (ks: Keystream, iv: Bytes, src: Stream)
      ensures this.ks == ks && this.iv == iv && this.src == src && pos == 0
    {
      this.ks := ks;
      this.iv := iv;
      this.src := src;
      this.pos := 0;
    }

    method Read(max: nat) returns (piece: Bytes, status: ReadStatus)
      requires 0 < max
      modifies this, src
      ensures exists sent: Bytes :: old(src.rest) == sent + src.rest && |sent| <= max
                && piece == Mask(ks, iv, sent, old(pos)) && pos == old(pos) + |sent|
      ensures status == Got <==> piece != []
      ensures status != Got ==> old(src.rest) == [] && (status == Ended <==> src.clean)
    {
      var sent;
      sent, status := src.Read(max);
      piece := Mask(ks, iv, sent, pos);
      pos := pos + |sent|;
    }
  }

  method DecryptReader(ks: Keystream, src: Stream) returns (r: Result<StreamReader>)
    modifies src
    ensures r.Success? <==> Open(ks, old(src.rest)).Success?
    ensures r.Failure? ==> Open(ks, old(src.rest)) == Failure(r.error)
    ensures r.Success? ==> fresh(r.value) && r.value.src == src && r.value.ks == ks && r.value.pos == 0
    ensures r.Success? ==> r.value.iv == old(src.rest)[|MAGIC| + 1..HEADER_SIZE]
    ensures r.Success? ==> src.rest == old(src.rest)[HEADER_SIZE..]
  {
    var header := src.ReadFull(HEADER_SIZE);
    if header.Failure? {
      return Failure(ShortHeader);
    }
    if header.value[..|MAGIC|] != MAGIC {
      assert header.value[..|MAGIC|] == old(src.rest)[..|MAGIC|];
      return Failure(NotABlob);
    }
    assert header.value[..|MAGIC|] == old(src.rest)[..|MAGIC|];
    if header.value[|MAGIC|] != FORMAT_VERSION {
      return Failure(UnsupportedFormat);
    }
    assert header.value[|MAGIC| + 1..] == old(src.rest)[|MAGIC| + 1..HEADER_SIZE];
    var reader := new StreamReader(ks, header.value[|MAGIC| + 1..], src);
    return Success(reader);
  }

  /** A blob written in any pieces is the blob of the pieces joined. */
  method EncryptPieces(ks: Keystream, iv: Bytes, pieces: seq<Bytes>) returns (blob: Bytes)
    ensures blob == Seal(ks, iv, Joined(pieces))
    ensures |iv| == IV_SIZE ==> InCounterMode(ks, iv, Joined(pieces), blob)
  {
    var w := new StreamWriter(ks, iv);
    var i := 0;
    blob := Header(iv);
    while i < |pieces|
      invariant 0 <= i <= |pieces|
      invariant w.ks == ks && w.iv == iv && w.pos == |Joined(pieces[..i])|
      invariant blob == Seal(ks, iv, Joined(pieces[..i]))
    {
      var out := w.Write(pieces[i]);
      blob := blob + out;
      JoinedSnoc(pieces, i);
      MaskConcat(ks, iv, Joined(pieces[..i]), pieces[i], 0);
      i := i + 1;
    }
    assert pieces[..i] == pieces;
    if |iv| == IV_SIZE {
      SealedIff(ks, iv, Joined(pieces), blob);
    }
  }

  function Joined(pieces: seq<Bytes>): Bytes {
    if pieces == [] then [] else Joined(pieces[..|pieces| - 1]) + pieces[|pieces| - 1]
  }

  lemma JoinedSnoc(pieces: seq<Bytes>, i: nat)
    requires i < |pieces|
    ensures Joined(pieces[..i + 1]) == Joined(pieces[..i]) + pieces[i]
  {
    assert pieces[..i + 1][..i] == pieces[..i];
  }

  /** Reading a blob to its end through the cipher, in whatever pieces the file yields. */
  method DecryptAll(ks: Keystream, src: Stream, bufferSize: nat) returns (r: Result<Bytes>)
    requires 0 < bufferSize
    modifies src
    ensures src.clean ==> r == Open(ks, old(src.rest))
    ensures !src.clean ==> r.Failure?
  {
    var reader := DecryptReader(ks, src);
    if reader.Failure? {
      return Failure(reader.error);
    }
    var d := reader.value;
    ghost var body := src.rest;
    var plain: Bytes := [];
    while true
      modifies src, d
      invariant d.pos == |plain| <= |body|
      invariant src.rest == body[d.pos..]
      invariant plain == Mask(ks, d.iv, body[..d.pos], 0)
      decreases |src.rest|
    {
      ghost var before := d.pos;
      var piece, status := d.Read(bufferSize);
      if status != Got {
        assert body[..before] == body;
        return if status == Ended then Success(plain) else Failure(SourceFailed);
      }
      MaskConcat(ks, d.iv, body[..before], body[before..d.pos], 0);
      assert body[..d.pos] == body[..before] + body[before..d.pos];
      plain := plain + piece;
    }
  }

  /** The header and nothing else is the overhead of a blob. */
  lemma SealLength(ks: Keystream, iv: Bytes, plain: Bytes)
    requires |iv| == IV_SIZE
    ensures |Seal(ks, iv, plain)| == |plain| + HEADER_SIZE
  {
  }

  /**
   * Decrypting gives the plaintext back; a blob cut anywhere after the header decrypts, without an
   * error, to the matching prefix of the plaintext, and one cut inside the header is an error.
   */
  lemma OpenCutSeal(ks: Keystream, iv: Bytes, plain: Bytes, cut: nat)
    requires |iv| == IV_SIZE && cut <= |Seal(ks, iv, plain)|
    ensures Open(ks, Seal(ks, iv, plain)[..cut]) ==
            if cut < HEADER_SIZE then Failure(ShortHeader) else Success(plain[..cut - HEADER_SIZE])
  {
    var blob := Seal(ks, iv, plain)[..cut];
    if cut >= HEADER_SIZE {
      var n := cut - HEADER_SIZE;
      assert blob[..|MAGIC|] == MAGIC;
      assert blob[|MAGIC| + 1..HEADER_SIZE] == iv;
      MaskPrefix(ks, iv, plain, n);
      assert blob == Header(iv) + Mask(ks, iv, plain, 0)[..n];
      assert blob[HEADER_SIZE..] == Mask(ks, iv, plain[..n], 0);
      MaskTwice(ks, iv, plain[..n], 0);
    }
  }

  lemma OpenSeal(ks: Keystream, iv: Bytes, plain: Bytes)
    requires |iv| == IV_SIZE
    ensures Open(ks, Seal(ks, iv, plain)) == Success(plain)
  {
    var blob := Seal(ks, iv, plain);
    OpenCutSeal(ks, iv, plain, |blob|);
    assert blob[..|blob|] == blob && plain[..|plain|] == plain;
  }

  lemma XorInjective(a: byte, k: byte, l: byte)
    requires a ^ k == a ^ l
    ensures k == l
  {
  }

  lemma OtherKeyReads(ks: Keystream, other: Keystream, iv: Bytes, plain: Bytes)
    requires |iv| == IV_SIZE
    ensures Open(other, Seal(ks, iv, plain)) == Success(Mask(other, iv, Mask(ks, iv, plain, 0), 0))
  {
    var blob := Seal(ks, iv, plain);
    assert blob[..|MAGIC|] == MAGIC && blob[|MAGIC| + 1..HEADER_SIZE] == iv;
    assert blob[HEADER_SIZE..] == Mask(ks, iv, plain, 0);
  }

  /** Two keystreams are the same for the first bytes. */
  ghost predicate Agree(ks: Keystream, other: Keystream, iv: Bytes, n: nat) {
    forall i: nat :: i < n ==> ks(iv, i) == other(iv, i)
  }

  lemma AgreeIff(ks: Keystream, other: Keystream, iv: Bytes, plain: Bytes)
    ensures Mask(ks, iv, plain, 0) == Mask(other, iv, plain, 0) <==> Agree(ks, other, iv, |plain|)
  {
    var x, y := Mask(ks, iv, plain, 0), Mask(other, iv, plain, 0);
    if x == y {
      forall i: nat | i < |plain| ensures ks(iv, i) == other(iv, i) {
        assert x[i] == y[i];
        XorInjective(plain[i], ks(iv, i), other(iv, i));
      }
    }
  }

  /** Under another key a blob reads as its plaintext only if the two keystreams agree as far as it is long. */
  lemma OtherKeyOpensIff(ks: Keystream, other: Keystream, iv: Bytes, plain: Bytes)
    requires |iv| == IV_SIZE
    ensures Open(other, Seal(ks, iv, plain)).Success?
    ensures Open(other, Seal(ks, iv, plain)) == Success(plain) <==> Agree(ks, other, iv, |plain|)
  {
    OtherKeyReads(ks, other, iv, plain);
    AgreeIff(ks, other, iv, plain);
    MaskTwice(other, iv, plain, 0);
    MaskTwice(other, iv, Mask(ks, iv, plain, 0), 0);
  }

  /**
   * What opens, and as what: exactly the blobs of this format, under the IV they carry. Of the others, those too short
   * for a header, those of another kind and those of another version are told apart.
   */
  lemma OpensIff(ks: Keystream, blob: Bytes, plain: Bytes)
    ensures Open(ks, blob) == Success(plain) <==> |blob| >= 21 && InCounterMode(ks, blob[5..21], plain, blob)
    ensures Open(ks, blob) == Failure(ShortHeader) <==> |blob| < 21
    ensures Open(ks, blob) == Failure(NotABlob) <==> |blob| >= 21 && blob[..4] != [0x57, 0x46, 0x53, 0x31]
    ensures Open(ks, blob) == Failure(UnsupportedFormat) <==>
            |blob| >= 21 && blob[..4] == [0x57, 0x46, 0x53, 0x31] && blob[4] != 1
  {
    if |blob| >= 21 {
      var iv := blob[5..21];
      if Open(ks, blob) == Success(plain) {
        MaskTwice(ks, iv, blob[21..], 0);
        assert blob == Seal(ks, iv, plain);
        SealedIff(ks, iv, plain, blob);
      }
      if InCounterMode(ks, iv, plain, blob) {
        SealedIff(ks, iv, plain, blob);
        OpenSeal(ks, iv, plain);
      }
    }
  }
}
