/** internal/crypto/key.go: the node's key, made once and the same for every later start. */
module KeyFile {
  import opened Base
  import opened Files

  const KEY_SIZE: nat := 32

  const KEY_PATH: Path := ["encryption.key"]
  const TMP_PATH: Path := ["encryption.key.tmp"]

  function Digit(n: byte): byte {
    if n < 10 then 48 + n else 87 + n
  }

  function Nibble(c: byte): Option<byte> {
    if 48 <= c <= 57 then Some(c - 48)
    else if 97 <= c <= 102 then Some(c - 87)
    else if 65 <= c <= 70 then Some(c - 55)
    else None
  }

  function HexEncode(data: Bytes): (r: Bytes)
    ensures |r| == 2 * |data|
  {
    if data == [] then [] else [Digit(data[0] >> 4), Digit(data[0] & 0x0f)] + HexEncode(data[1..])
  }

  function HexDecode(text: Bytes): Option<Bytes> {
    if text == [] then Some([])
    else if |text| == 1 then None
    else
      match (Nibble(text[0]), Nibble(text[1]), HexDecode(text[2..]))
      case (Some(hi), Some(lo), Some(rest)) => Some([(hi << 4) | lo] + rest)
      case _ => None
  }

  predicate IsSpace(c: byte) {
    c == 32 || 9 <= c <= 13
  }

  function TrimLeft(text: Bytes): Bytes {
    if text != [] && IsSpace(text[0]) then TrimLeft(text[1..]) else text
  }

  function TrimRight(text: Bytes): Bytes {
    if text != [] && IsSpace(text[|text| - 1]) then TrimRight(text[..|text| - 1]) else text
  }

  function DecodeKey(text: Bytes): Option<Bytes> {
    match HexDecode(TrimRight(TrimLeft(text)))
    case Some(key) => if |key| == KEY_SIZE then Some(key) else None
    case None => None
  }

  lemma DigitsOfByte(b: byte)
    ensures Nibble(Digit(b >> 4)) == Some(b >> 4) && Nibble(Digit(b & 0x0f)) == Some(b & 0x0f)
    ensures ((b >> 4) << 4) | (b & 0x0f) == b
    ensures !IsSpace(Digit(b >> 4)) && !IsSpace(Digit(b & 0x0f))
  {
    assert b >> 4 < 16 && b & 0x0f < 16;
  }

  lemma {:induction false} HexRoundTrip(data: Bytes)
    ensures HexDecode(HexEncode(data)) == Some(data)
    ensures forall i :: 0 <= i < |HexEncode(data)| ==> !IsSpace(HexEncode(data)[i])
  {
    if data != [] {
      DigitsOfByte(data[0]);
      HexRoundTrip(data[1..]);
      var text := HexEncode(data);
      assert text[2..] == HexEncode(data[1..]);
      assert [data[0]] + data[1..] == data;
    }
  }

  /** A key file yields the key it was made from, with or without trailing white space. */
  lemma KeyRoundTrip(key: Bytes, space: Bytes)
    requires |key| == KEY_SIZE && forall c <- space :: IsSpace(c)
    ensures DecodeKey(HexEncode(key) + space) == Some(key)
  {
    HexRoundTrip(key);
    var text := HexEncode(key);
    assert TrimLeft(text + space) == text + space;
    TrimsSpace(text, space);
  }

  lemma {:induction false} TrimsSpace(text: Bytes, space: Bytes)
    requires text != [] && !IsSpace(text[|text| - 1]) && forall c <- space :: IsSpace(c)
    ensures TrimRight(text + space) == text
  {
    if space == [] {
      assert text + space == text;
    } else {
      var init := space[..|space| - 1];
      assert (text + space)[..|text + space| - 1] == text + init;
      assert space[|space| - 1] in space;
      TrimsSpace(text, init);
    }
  }

  /** What a start does to the key file: nothing if there is one, an atomic write of a new key otherwise. */
  function KeyPlan(d: Disk, random: Bytes): seq<Micro> {
    if KEY_PATH in d then [] else ReplacePlan(TMP_PATH, KEY_PATH, HexEncode(random))
  }

  function KeyResult(d: Disk, random: Bytes): Result<Bytes> {
    if KEY_PATH in d then
      match DecodeKey(d[KEY_PATH])
      case Some(key) => Success(key)
      case None => Failure(CorruptKey)
    else Success(random)
  }

  method LoadOrCreateKey(fs: FileSystem, random: Bytes) returns (key: Result<Bytes>)
    modifies fs
    ensures fs.disk == Exec(old(fs.disk), KeyPlan(old(fs.disk), random))
    ensures forall c :: c in fs.seen ==> c in old(fs.seen) || CrashPoint(old(fs.disk), KeyPlan(old(fs.disk), random), c)
    ensures key == KeyResult(old(fs.disk), random)
  {
    if KEY_PATH in fs.disk {
      var decoded := DecodeKey(fs.disk[KEY_PATH]);
      match decoded
      case Some(k) => return Success(k);
      case None => return Failure(CorruptKey);
    }
    WriteFileAtomic(fs, TMP_PATH, KEY_PATH, HexEncode(random));
    return Success(random);
  }

  /** One start of the node: the disk it finds, the random bytes it draws, where it ends, and whether by a crash. */
  datatype Start = Start(before: Disk, random: Bytes, crashed: bool, after: Disk)

  ghost predicate Possible(s: Start) {
    && |s.random| == KEY_SIZE
    && if s.crashed then CrashPoint(s.before, KeyPlan(s.before, s.random), s.after)
       else s.after == Exec(s.before, KeyPlan(s.before, s.random))
  }

  /** Successive starts of one data directory; in between nothing touches the key file. */
  ghost predicate History(starts: seq<Start>) {
    && (forall s <- starts :: Possible(s))
    && forall k :: 0 <= k < |starts| - 1 ==> At(starts[k + 1].before, KEY_PATH) == At(starts[k].after, KEY_PATH)
  }

  lemma StartKeepsKey(s: Start, key: Bytes)
    requires Possible(s) && |key| == KEY_SIZE && At(s.before, KEY_PATH) == Some(HexEncode(key))
    ensures At(s.after, KEY_PATH) == Some(HexEncode(key)) && KeyResult(s.before, s.random) == Success(key)
  {
    KeyRoundTrip(key, []);
    assert HexEncode(key) + [] == HexEncode(key);
  }

  /** A start that finds no key leaves none, or one whole key: the one it returns if it returns. */
  lemma StartMakesKey(s: Start)
    requires Possible(s) && KEY_PATH !in s.before
    ensures At(s.after, KEY_PATH) == None || At(s.after, KEY_PATH) == Some(HexEncode(s.random))
    ensures !s.crashed ==>
              At(s.after, KEY_PATH) == Some(HexEncode(s.random)) && KeyResult(s.before, s.random) == Success(s.random)
  {
    TwoSteps(s.before, Put(TMP_PATH, HexEncode(s.random)), Move(TMP_PATH, KEY_PATH));
    ReplaceIsAtomic(s.before, TMP_PATH, KEY_PATH, HexEncode(s.random), s.after);
  }

  /** However often the node is started and killed, every start that returns a key returns the same one. */
  lemma OneKeyForever(starts: seq<Start>, i: nat, j: nat)
    requires History(starts) && i < j < |starts| && !starts[i].crashed && !starts[j].crashed
    requires KEY_PATH !in starts[0].before
    ensures KeyResult(starts[i].before, starts[i].random).Success?
    ensures KeyResult(starts[i].before, starts[i].random) == KeyResult(starts[j].before, starts[j].random)
  {
    KeyAfter(starts, i);
    var key := KeyResult(starts[i].before, starts[i].random).value;
    KeyStays(starts, i, j, key);
    assert starts[j] in starts;
    StartKeepsKey(starts[j], key);
  }

  lemma {:induction false} KeyAfter(starts: seq<Start>, i: nat)
    requires History(starts) && i < |starts| && KEY_PATH !in starts[0].before
    ensures At(starts[i].after, KEY_PATH) == None
         || exists key :: |key| == KEY_SIZE && At(starts[i].after, KEY_PATH) == Some(HexEncode(key))
    ensures !starts[i].crashed ==>
              var r := KeyResult(starts[i].before, starts[i].random);
              r.Success? && |r.value| == KEY_SIZE && At(starts[i].after, KEY_PATH) == Some(HexEncode(r.value))
  {
    var s := starts[i];
    assert s in starts;
    if i > 0 {
      KeyAfter(starts, i - 1);
      assert At(starts[i - 1 + 1].before, KEY_PATH) == At(starts[i - 1].after, KEY_PATH);
    }
    if KEY_PATH in s.before {
      var key :| |key| == KEY_SIZE && At(starts[i - 1].after, KEY_PATH) == Some(HexEncode(key));
      StartKeepsKey(s, key);
    } else {
      StartMakesKey(s);
    }
  }

  lemma {:induction false} KeyStays(starts: seq<Start>, i: nat, j: nat, key: Bytes)
    requires History(starts) && i < j < |starts| && |key| == KEY_SIZE
    requires At(starts[i].after, KEY_PATH) == Some(HexEncode(key))
    ensures At(starts[j].before, KEY_PATH) == Some(HexEncode(key))
  {
    assert At(starts[j - 1 + 1].before, KEY_PATH) == At(starts[j - 1].after, KEY_PATH);
    if i < j - 1 {
      KeyStays(starts, i, j - 1, key);
      assert starts[j - 1] in starts;
      StartKeepsKey(starts[j - 1], key);
    }
  }

  // ---- What the text of a key is ----

  function Lower(c: byte): byte {
    if 65 <= c <= 70 then c + 32 else c
  }

  function LowerAll(text: Bytes): Bytes {
    seq(|text|, i requires 0 <= i < |text| => Lower(text[i]))
  }

  const DIGITS: string := "0123456789abcdef"

  lemma DigitChars(b: byte)
    ensures Digit(b >> 4) as char == DIGITS[b as int / 16] && Digit(b & 0x0f) as char == DIGITS[b as int % 16]
  {
    assert (b >> 4) as int == b as int / 16 && (b & 0x0f) as int == b as int % 16;
  }

  lemma EncodeStep(data: Bytes)
    requires data != []
    ensures HexEncode(data)[0] == Digit(data[0] >> 4) && HexEncode(data)[1] == Digit(data[0] & 0x0f)
    ensures HexEncode(data)[2..] == HexEncode(data[1..])
  {
  }

  /** Two hexadecimal digits for each byte, the more significant first. */
  lemma {:induction false} HexAt(data: Bytes, i: nat)
    requires i < |data|
    ensures HexEncode(data)[2 * i] as char == DIGITS[data[i] as int / 16]
    ensures HexEncode(data)[2 * i + 1] as char == DIGITS[data[i] as int % 16]
  {
    EncodeStep(data);
    if i > 0 {
      HexAt(data[1..], i - 1);
      assert HexEncode(data)[2 * i] == HexEncode(data)[2..][2 * (i - 1)];
      assert HexEncode(data)[2 * i + 1] == HexEncode(data)[2..][2 * (i - 1) + 1];
    } else {
      DigitChars(data[0]);
    }
  }

  lemma LowerNibble(c: byte, n: byte)
    ensures Nibble(c) == Some(n) <==> n < 16 && Lower(c) == Digit(n)
  {
  }

  lemma ByteOfNibbles(hi: byte, lo: byte)
    requires hi < 16 && lo < 16
    ensures ((hi << 4) | lo) >> 4 == hi && ((hi << 4) | lo) & 0x0f == lo
  {
  }

  lemma NothingDecodes(text: Bytes, data: Bytes)
    requires |text| < 2 || data == []
    ensures HexDecode(text) == Some(data) <==> text == [] && data == []
    ensures LowerAll(text) == HexEncode(data) <==> text == [] && data == []
  {
    if data == [] {
      assert HexEncode(data) == [];
    } else {
      assert |HexEncode(data)| >= 2;
    }
  }

  /** Exactly what decodes, and to what: the digits of those bytes, in either case. */
  lemma {:induction false} HexDecodeIff(text: Bytes, data: Bytes)
    ensures HexDecode(text) == Some(data) <==> LowerAll(text) == HexEncode(data)
    decreases |text|
  {
    if |text| < 2 || data == [] {
      NothingDecodes(text, data);
    } else {
      HexDecodeIff(text[2..], data[1..]);
      PairDecodesIff(text, data);
    }
  }

  lemma PairDecodesIff(text: Bytes, data: Bytes)
    requires |text| >= 2 && data != []
    requires HexDecode(text[2..]) == Some(data[1..]) <==> LowerAll(text[2..]) == HexEncode(data[1..])
    ensures HexDecode(text) == Some(data) <==> LowerAll(text) == HexEncode(data)
  {
    FirstByte(text, data);
    OneByteIff(text[0], text[1], data[0]);
    LowerParts(text);
    PairsIff([Lower(text[0]), Lower(text[1])], LowerAll(text[2..]), [Digit(data[0] >> 4), Digit(data[0] & 0x0f)],
             HexEncode(data[1..]));
  }

  lemma LowerParts(text: Bytes)
    requires |text| >= 2
    ensures LowerAll(text) == [Lower(text[0]), Lower(text[1])] + LowerAll(text[2..])
  {
  }

  lemma PairsIff(a: Bytes, x: Bytes, b: Bytes, y: Bytes)
    requires |a| == |b| == 2
    ensures a + x == b + y <==> a[0] == b[0] && a[1] == b[1] && x == y
  {
    assert a == b <==> a[0] == b[0] && a[1] == b[1];
    if a + x == b + y {
      assert a == (a + x)[..2] && b == (b + y)[..2] && x == (a + x)[2..] && y == (b + y)[2..];
    }
  }

  lemma OneByteIff(c: byte, d: byte, b: byte)
    ensures Nibble(c).Some? && Nibble(d).Some? && (Nibble(c).value << 4) | Nibble(d).value == b <==>
            Lower(c) == Digit(b >> 4) && Lower(d) == Digit(b & 0x0f)
  {
    LowerNibble(c, b >> 4);
    LowerNibble(d, b & 0x0f);
    DigitsOfByte(b);
    if Nibble(c).Some? && Nibble(d).Some? {
      ByteOfNibbles(Nibble(c).value, Nibble(d).value);
    }
  }

  lemma FirstByte(text: Bytes, data: Bytes)
    requires |text| >= 2 && data != []
    ensures HexDecode(text) == Some(data) <==>
            Nibble(text[0]).Some? && Nibble(text[1]).Some?
            && (Nibble(text[0]).value << 4) | Nibble(text[1]).value == data[0]
            && HexDecode(text[2..]) == Some(data[1..])
  {
    assert data == [data[0]] + data[1..];
  }

  /** A key file that is there is never touched, whatever it holds; one that does not decode is an error. */
  lemma ExistingIsOnlyRead(s: Start)
    requires Possible(s) && KEY_PATH in s.before
    ensures s.after == s.before
    ensures KeyResult(s.before, s.random) ==
            match DecodeKey(s.before[KEY_PATH])
            case Some(key) => Success(key)
            case None => Failure(CorruptKey)
  {
  }
}
