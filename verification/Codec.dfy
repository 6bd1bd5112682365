/** internal/proto/codec.go: length-prefixed frames over a stream that arrives in pieces. */
module Codec {
  import opened Base

  const LENGTH_PREFIX_SIZE: nat := 4
  const MAX_HEADER_BYTES: nat := 0x10_0000

  /** The JSON text of a message, of which only losslessness matters. */
  datatype PayloadCodec<!M> = PayloadCodec(encode: M -> Bytes, decode: Bytes -> Option<M>)

  ghost predicate Lossless<M(!new)>(codec: PayloadCodec<M>) {
    forall m: M :: codec.decode(codec.encode(m)) == Some(m)
  }

  function Value(b: byte): (n: nat)
    ensures n == b as int < 0x100
  {
    b as int
  }

  function ToByte(n: nat): (b: byte)
    requires n < 0x100
    ensures Value(b) == n
  {
    if n == 0 then 0 else ToByte(n - 1) + 1
  }

  /** The i-th of the four base-256 digits of n, most significant first. */
  function Digit(n: nat, i: nat): (d: nat)
    requires i < 4
    ensures d < 0x100
  {
    if i == 0 then n / 0x100_0000 % 0x100
    else if i == 1 then n / 0x1_0000 % 0x100
    else if i == 2 then n / 0x100 % 0x100
    else n % 0x100
  }

  lemma DigitsRejoin(n: nat)
    requires n < 0x1_0000_0000
    ensures Digit(n, 0) * 0x100_0000 + Digit(n, 1) * 0x1_0000 + Digit(n, 2) * 0x100 + Digit(n, 3) == n
  {
    var a, b, c := n / 0x100, n / 0x100 / 0x100, n / 0x100 / 0x100 / 0x100;
    assert n == a * 0x100 + n % 0x100;
    assert a == b * 0x100 + a % 0x100;
    assert b == c * 0x100 + b % 0x100;
    assert b == n / 0x1_0000 && c == n / 0x100_0000 && c < 0x100;
  }

  function LengthPrefix(n: nat): (prefix: Bytes)
    ensures |prefix| == LENGTH_PREFIX_SIZE
  {
    [ToByte(Digit(n, 0)), ToByte(Digit(n, 1)), ToByte(Digit(n, 2)), ToByte(Digit(n, 3))]
  }

  function AnnouncedLength(prefix: Bytes): nat
    requires |prefix| == LENGTH_PREFIX_SIZE
  {
    Value(prefix[0]) * 0x100_0000 + Value(prefix[1]) * 0x1_0000 + Value(prefix[2]) * 0x100 + Value(prefix[3])
  }

  lemma PrefixRoundTrip(n: nat)
    requires n < 0x1_0000_0000
    ensures AnnouncedLength(LengthPrefix(n)) == n
  {
    DigitsRejoin(n);
    var p := LengthPrefix(n);
    assert Value(p[0]) == Digit(n, 0) && Value(p[1]) == Digit(n, 1)
        && Value(p[2]) == Digit(n, 2) && Value(p[3]) == Digit(n, 3);
  }

  /** The number four bytes stand for, most significant first. */
  ghost function BigEndian(b: Bytes): nat
    requires |b| >= 4
  {
    ((Value(b[0]) * 256 + Value(b[1])) * 256 + Value(b[2])) * 256 + Value(b[3])
  }

  function Frame(payload: Bytes): Bytes {
    LengthPrefix(|payload|) + payload
  }

  /** What one read of a message from a stream holding exactly `arriving` yields and leaves. */
  function Parse<M>(codec: PayloadCodec<M>, arriving: Bytes): (r: (Result<M>, Bytes)) {
    if |arriving| < LENGTH_PREFIX_SIZE then (Failure(SourceFailed), [])
    else
      var length := AnnouncedLength(arriving[..LENGTH_PREFIX_SIZE]);
      var body := arriving[LENGTH_PREFIX_SIZE..];
      if length > MAX_HEADER_BYTES then (Failure(TooLarge), body)
      else if |body| < length then (Failure(SourceFailed), [])
      else
        match codec.decode(body[..length])
        case Some(m) => (Success(m), body[length..])
        case None => (Failure(BadMessage), body[length..])
  }

  /** The sending end of a stream. */
  class Wire {
    var sent: Bytes

    constructor ()
      ensures sent == []
    {
      sent := [];
    }

    method Write(data: Bytes)
      modifies this
      ensures sent == old(sent) + data
    {
      sent := sent + data;
    }
  }

  /** One frame in one Write; nothing at all is written for a message over the limit. */
  method WriteMessage<M>(w: Wire, codec: PayloadCodec<M>, v: M) returns (ok: bool)
    modifies w
    ensures ok <==> |codec.encode(v)| <= MAX_HEADER_BYTES
    ensures w.sent == if ok then old(w.sent) + Frame(codec.encode(v)) else old(w.sent)
  {
    var payload := codec.encode(v);
    if |payload| > MAX_HEADER_BYTES {
      return false;
    }
    var frame := new byte[LENGTH_PREFIX_SIZE + |payload|];
    var prefix := LengthPrefix(|payload|);
    frame[0], frame[1], frame[2], frame[3] := prefix[0], prefix[1], prefix[2], prefix[3];
    var i := 0;
    while i < |payload|
      modifies frame
      invariant 0 <= i <= |payload|
      invariant frame[..LENGTH_PREFIX_SIZE] == prefix
      invariant frame[LENGTH_PREFIX_SIZE..LENGTH_PREFIX_SIZE + i] == payload[..i]
    {
      frame[LENGTH_PREFIX_SIZE + i] := payload[i];
      assert frame[LENGTH_PREFIX_SIZE..LENGTH_PREFIX_SIZE + i + 1] == payload[..i] + [payload[i]] == payload[..i + 1];
      i := i + 1;
    }
    assert frame[..] == frame[..LENGTH_PREFIX_SIZE] + frame[LENGTH_PREFIX_SIZE..LENGTH_PREFIX_SIZE + i];
    assert payload[..i] == payload;
    assert frame[..] == Frame(payload);
    w.Write(frame[..]);
    return true;
  }

  /** However the stream is fragmented, reading a message is Parse of everything that will arrive. */
  method ReadMessage<M>(r: Stream, codec: PayloadCodec<M>) returns (m: Result<M>)
    modifies r
    ensures (m, r.rest) == Parse(codec, old(r.rest))
  {
    var prefix := r.ReadFull(LENGTH_PREFIX_SIZE);
    if prefix.Failure? {
      return Failure(prefix.error);
    }
    var length := AnnouncedLength(prefix.value);
    if length > MAX_HEADER_BYTES {
      return Failure(TooLarge);
    }
    var payload := r.ReadFull(length);
    if payload.Failure? {
      return Failure(payload.error);
    }
    match codec.decode(payload.value)
    case Some(v) => return Success(v);
    case None => return Failure(BadMessage);
  }

  /** A frame within the limit is read back whole and nothing after it is consumed. */
  lemma FrameRoundTrip<M(!new)>(codec: PayloadCodec<M>, v: M, tail: Bytes)
    requires Lossless(codec)
    requires |codec.encode(v)| <= MAX_HEADER_BYTES
    ensures Parse(codec, Frame(codec.encode(v)) + tail) == (Success(v), tail)
  {
    var payload := codec.encode(v);
    var arriving := Frame(payload) + tail;
    PrefixRoundTrip(|payload|);
    assert arriving[..LENGTH_PREFIX_SIZE] == LengthPrefix(|payload|);
    assert arriving[LENGTH_PREFIX_SIZE..] == payload + tail;
    assert (payload + tail)[..|payload|] == payload;
    assert (payload + tail)[|payload|..] == tail;
  }

  /** A stream that ends anywhere inside a frame yields an error, never a message. */
  lemma CutFrameIsAnError<M>(codec: PayloadCodec<M>, payload: Bytes, cut: nat)
    requires |payload| <= MAX_HEADER_BYTES
    requires cut < |Frame(payload)|
    ensures Parse(codec, Frame(payload)[..cut]) == (Failure(SourceFailed), [])
  {
    var arriving := Frame(payload)[..cut];
    if cut >= LENGTH_PREFIX_SIZE {
      assert arriving[..LENGTH_PREFIX_SIZE] == LengthPrefix(|payload|);
      PrefixRoundTrip(|payload|);
    }
  }

  /**
   * A message and then a body, cut off anywhere: inside the frame it is an error; after it the message
   * is read whole and what is left is the beginning of the body that arrived.
   */
  lemma CutMessageThenBody<M(!new)>(codec: PayloadCodec<M>, v: M, body: Bytes, cut: nat)
    requires Lossless(codec) && |codec.encode(v)| <= MAX_HEADER_BYTES
    requires cut <= |Frame(codec.encode(v)) + body|
    ensures var frame := Frame(codec.encode(v));
            Parse(codec, (frame + body)[..cut]) ==
            if cut < |frame| then (Failure(SourceFailed), []) else (Success(v), body[..cut - |frame|])
  {
    var frame := Frame(codec.encode(v));
    if cut < |frame| {
      assert (frame + body)[..cut] == frame[..cut];
      CutFrameIsAnError(codec, codec.encode(v), cut);
    } else {
      assert (frame + body)[..cut] == frame + body[..cut - |frame|];
      FrameRoundTrip(codec, v, body[..cut - |frame|]);
    }
  }

  ghost function Frames<M>(codec: PayloadCodec<M>, messages: seq<M>): Bytes {
    if messages == [] then [] else Frame(codec.encode(messages[0])) + Frames(codec, messages[1..])
  }

  /** Repeated Parse: the messages read, or None when some read failed, and the bytes left. */
  ghost function ParseMany<M>(codec: PayloadCodec<M>, arriving: Bytes, count: nat): (Option<seq<M>>, Bytes) {
    if count == 0 then (Some([]), arriving)
    else
      var (first, rest) := Parse(codec, arriving);
      if first.Failure? then (None, rest)
      else
        var (others, left) := ParseMany(codec, rest, count - 1);
        if others.None? then (None, left) else (Some([first.value] + others.value), left)
  }

  lemma {:induction false} MessagesThenBlob<M(!new)>(codec: PayloadCodec<M>, messages: seq<M>, blob: Bytes)
    requires Lossless(codec)
    requires forall m <- messages :: |codec.encode(m)| <= MAX_HEADER_BYTES
    ensures ParseMany(codec, Frames(codec, messages) + blob, |messages|) == (Some(messages), blob)
  {
    if messages == [] {
      assert Frames(codec, messages) + blob == blob;
    } else {
      var tail := Frames(codec, messages[1..]) + blob;
      assert Frames(codec, messages) + blob == Frame(codec.encode(messages[0])) + tail;
      FrameRoundTrip(codec, messages[0], tail);
      MessagesThenBlob(codec, messages[1..], blob);
      assert messages == [messages[0]] + messages[1..];
    }
  }

  /** A frame byte by byte: the length of its payload, most significant byte first, and then the payload. */
  lemma FrameBytes(payload: Bytes)
    requires |payload| < 0x1_0000_0000
    ensures |Frame(payload)| == 4 + |payload| && Frame(payload)[4..] == payload
    ensures BigEndian(Frame(payload)) == |payload|
  {
    DigitsRejoin(|payload|);
  }

  /** Two announcements of one length are the same four bytes. */
  lemma PrefixIsUnique(b: Bytes)
    requires |b| == 4
    ensures AnnouncedLength(b) == BigEndian(b) && LengthPrefix(BigEndian(b)) == b
  {
    var n := BigEndian(b);
    var p := LengthPrefix(n);
    PrefixRoundTrip(n);
    SameDigits(p, b);
  }

  lemma SameByte(a: byte, b: byte)
    requires Value(a) == Value(b)
    ensures a == b
  {
  }

  lemma DigitsAreUnique(a: nat, b: nat, c: nat, d: nat, a': nat, b': nat, c': nat, d': nat)
    requires a < 256 && b < 256 && c < 256 && d < 256 && a' < 256 && b' < 256 && c' < 256 && d' < 256
    requires ((a * 256 + b) * 256 + c) * 256 + d == ((a' * 256 + b') * 256 + c') * 256 + d'
    ensures a == a' && b == b' && c == c' && d == d'
  {
  }

  lemma SameDigits(p: Bytes, b: Bytes)
    requires |p| == |b| == 4 && BigEndian(p) == BigEndian(b)
    ensures p == b
  {
    DigitsAreUnique(Value(p[0]), Value(p[1]), Value(p[2]), Value(p[3]),
                    Value(b[0]), Value(b[1]), Value(b[2]), Value(b[3]));
    forall i | 0 <= i < 4 ensures p[i] == b[i] {
      SameByte(p[i], b[i]);
    }
  }

  /**
   * Exactly what reads as a message: a frame of at most one mebibyte whose payload decodes to it, and all that comes
   * after it is left. An announcement above that limit is refused without reading on.
   */
  lemma ParseSucceedsIff<M>(codec: PayloadCodec<M>, arriving: Bytes, m: M, rest: Bytes)
    ensures Parse(codec, arriving) == (Success(m), rest) <==>
            exists payload: Bytes ::
              |payload| <= 0x10_0000 && arriving == Frame(payload) + rest && codec.decode(payload) == Some(m)
  {
    if Parse(codec, arriving) == (Success(m), rest) {
      var payload := FramedFrom(codec, arriving);
    }
    forall payload: Bytes
           | |payload| <= 0x10_0000 && arriving == Frame(payload) + rest && codec.decode(payload) == Some(m)
      ensures Parse(codec, arriving) == (Success(m), rest)
    {
      FramedParses(codec, payload, rest);
    }
  }

  /** An announcement above the limit is refused, and nothing more is read. */
  lemma TooLargeIff<M>(codec: PayloadCodec<M>, arriving: Bytes)
    ensures Parse(codec, arriving).0 == Failure(TooLarge) <==> |arriving| >= 4 && BigEndian(arriving[..4]) > 0x10_0000
    ensures Parse(codec, arriving).0 == Failure(TooLarge) ==> Parse(codec, arriving).1 == arriving[4..]
  {
    if |arriving| >= 4 {
      PrefixIsUnique(arriving[..4]);
    }
  }

  lemma FramedFrom<M>(codec: PayloadCodec<M>, arriving: Bytes) returns (payload: Bytes)
    requires Parse(codec, arriving).0.Success?
    ensures |payload| <= MAX_HEADER_BYTES && arriving == Frame(payload) + Parse(codec, arriving).1
    ensures codec.decode(payload) == Some(Parse(codec, arriving).0.value)
  {
    ParsedIsFramed(codec, arriving);
    payload := arriving[4..][..AnnouncedLength(arriving[..4])];
  }

  lemma ParsedIsFramed<M>(codec: PayloadCodec<M>, arriving: Bytes)
    requires Parse(codec, arriving).0.Success?
    ensures var n := AnnouncedLength(arriving[..4]);
            && n <= |arriving[4..]| && n <= MAX_HEADER_BYTES
            && var payload, rest := arriving[4..][..n], Parse(codec, arriving).1;
               arriving == Frame(payload) + rest && codec.decode(payload) == Some(Parse(codec, arriving).0.value)
  {
    PrefixIsUnique(arriving[..4]);
    var n := AnnouncedLength(arriving[..4]);
    Rejoin(arriving, n);
  }

  lemma Rejoin(arriving: Bytes, n: nat)
    requires 4 + n <= |arriving|
    ensures arriving == arriving[..4] + arriving[4..][..n] + arriving[4..][n..]
  {
  }

  lemma FramedParses<M>(codec: PayloadCodec<M>, payload: Bytes, rest: Bytes)
    requires |payload| <= MAX_HEADER_BYTES && codec.decode(payload).Some?
    ensures Parse(codec, Frame(payload) + rest) == (Success(codec.decode(payload).value), rest)
  {
    var arriving := Frame(payload) + rest;
    PrefixRoundTrip(|payload|);
    assert arriving[..LENGTH_PREFIX_SIZE] == LengthPrefix(|payload|);
    assert arriving[LENGTH_PREFIX_SIZE..] == payload + rest;
    assert (payload + rest)[..|payload|] == payload && (payload + rest)[|payload|..] == rest;
  }
}
