/**
 * Text and byte representations shared by the NFC record codec.
 *
 * JavaScript strings are sequences of UTF-16 code units, so the codec works
 * on `Utf16` (a `seq<u16>`) rather than on Dafny strings, whose characters
 * exclude the surrogate range. The UTF-8 encoder and decoder follow the bit
 * layout of section 3 of RFC 3629 for one to three bytes; they work on code
 * units, not on code points. Each bit operation of the source is written as
 * the equivalent arithmetic on non-overlapping bit fields: `x >> k` is
 * `x / 2^k`, `x & (2^k - 1)` is `x % 2^k` and an `|` of disjoint fields is a sum.
 */
module NfcText {

  import opened Optional

  /** One UTF-16 code unit, the element of a JavaScript string. */
  newtype u16 = x: int | 0 <= x < 0x10000

  type Utf16 = seq<u16>

  /** A Java `byte`, as an Android byte array hands it to JavaScript. */
  newtype sbyte = x: int | -128 <= x < 128

  /** An unsigned byte, as an iOS `Uint8Array` holds it. */
  newtype uint8 = x: int | 0 <= x < 256

  datatype Result<+T> = Ok(value: T) | Err(message: string)

  /** The message of the error `bytesToString` throws on a truncated sequence. */
  const TRUNCATED := "Un-expected encoding error, UTF-8 stream truncated, or incorrect"

  /** The code units of an ASCII literal. */
  function Ascii(s: string): (r: Utf16)
    ensures |r| == |s|
  {
    seq(|s|, i requires 0 <= i < |s| => (s[i] as int % 0x10000) as u16)
  }

  /** `x & 0xff` on a JavaScript number holding an integer: the low eight bits. */
  function Low8(x: int): (r: int)
    ensures 0 <= r < 256 && (0 <= x < 256 ==> r == x)
    ensures -128 <= x < 0 ==> r == x + 256
  {
    x % 256
  }

  /** `(b & mask) === mask`: every bit set in `mask` is set in the low byte of `b`. */
  predicate MaskMatches(b: int, mask: bv8) {
    (Low8(b) as bv8) & mask == mask
  }

  /**
   * The byte-order test of `bytesToString`: the first three bytes, masked
   * with 0xef, 0xbb and 0xbf, give those masks back.
   */
  predicate BomMasked(bytes: seq<int>) {
    |bytes| >= 3 && MaskMatches(bytes[0], 0xef) && MaskMatches(bytes[1], 0xbb) && MaskMatches(bytes[2], 0xbf)
  }

  // ---------------------------------------------------------------- UTF-8

  /**
   * The bytes of one code unit: 0xxxxxxx below 128, 110xxxxx 10xxxxxx below
   * 2048 and 1110xxxx 10xxxxxx 10xxxxxx otherwise.
   */
  function EncodeUnit(c: u16): (r: seq<int>)
    ensures 1 <= |r| <= 3
    ensures forall i :: 0 <= i < |r| ==> 0 <= r[i] < 256
  {
    var n := c as int;
    if n < 128 then [n]
    else if n < 2048 then [n / 64 + 192, n % 64 + 128]
    else [n / 4096 + 224, (n / 64) % 64 + 128, n % 64 + 128]
  }

  /** `stringToBytes` as a function: the bytes of every code unit, in order. */
  function Utf8Encode(s: Utf16): (r: seq<int>)
    ensures |s| <= |r| <= 3 * |s|
  {
    if s == [] then [] else EncodeUnit(s[0]) + Utf8Encode(s[1..])
  }

  lemma {:induction false} Utf8EncodeAppend(s: Utf16, c: u16)
    ensures Utf8Encode(s + [c]) == Utf8Encode(s) + EncodeUnit(c)
  {
    if s == [] {
      assert [] + [c] == [c];
      assert [c][1..] == [];
    } else {
      assert (s + [c])[0] == s[0] && (s + [c])[1..] == s[1..] + [c];
      Utf8EncodeAppend(s[1..], c);
    }
  }

  lemma {:induction false} Utf8EncodeConcat(s: Utf16, t: Utf16)
    ensures Utf8Encode(s + t) == Utf8Encode(s) + Utf8Encode(t)
  {
    if s == [] {
      assert s + t == t;
    } else {
      assert (s + t)[0] == s[0] && (s + t)[1..] == s[1..] + t;
      Utf8EncodeConcat(s[1..], t);
    }
  }

  /**
   * The byte layout of section 3 of RFC 3629 for one code unit: the number
   * of bytes, the marker bits of the lead (0, 110, 1110) and continuation
   * (10) bytes, and that the payload bits spell the code unit.
   */
  lemma EncodeUnitLayout(c: u16)
    ensures var r := EncodeUnit(c); var n := c as int;
      && (n < 128 ==> |r| == 1 && r[0] == n)
      && (128 <= n < 2048 ==>
            |r| == 2 && r[0] / 32 == 6 && r[1] / 64 == 2 && (r[0] % 32) * 64 + r[1] % 64 == n)
      && (2048 <= n ==>
            |r| == 3 && r[0] / 16 == 14 && r[1] / 64 == 2 && r[2] / 64 == 2
            && (r[0] % 16) * 4096 + (r[1] % 64) * 64 + r[2] % 64 == n)
  {
    var n := c as int;
    var q := n / 64;
    assert q * 64 + n % 64 == n;
    assert (q / 64) * 64 + q % 64 == q;
    assert n / 4096 == q / 64;
  }

  /** `p` in front of a decoded text; an error stays an error. */
  function Concat(p: Utf16, r: Result<Utf16>): Result<Utf16> {
    match r
    case Ok(t) => Ok(p + t)
    case Err(m) => Err(m)
  }

  /** The code unit of a two-byte sequence: `((c & 31) << 6) | (c2 & 63)`. */
  function Unit2(c: int, c2: int): u16
    requires 0 <= c < 256 && 0 <= c2 < 256
  {
    ((c % 32) * 64 + c2 % 64) as u16
  }

  /** The code unit of a three-byte sequence: `((c & 15) << 12) | ((c2 & 63) << 6) | (c3 & 63)`. */
  function Unit3(c: int, c2: int, c3: int): u16
    requires 0 <= c < 256 && 0 <= c2 < 256 && 0 <= c3 < 256
  {
    ((c % 16) * 4096 + (c2 % 64) * 64 + c3 % 64) as u16
  }

  /**
   * The decoding loop of `bytesToString` from some position on: a lead
   * below 128 is one unit, a lead in 192..223 takes one more byte, and any
   * other lead (a continuation byte included) takes two more. A lead
   * without the bytes it needs is the truncation error.
   */
  function DecodeBytes(bytes: seq<int>): (r: Result<Utf16>)
    ensures r.Err? ==> r.message == TRUNCATED
    decreases |bytes|
  {
    if bytes == [] then Ok([])
    else
      var c := Low8(bytes[0]);
      if c < 128 then Concat([c as u16], DecodeBytes(bytes[1..]))
      else if 191 < c < 224 then
        if |bytes| < 2 then Err(TRUNCATED)
        else Concat([Unit2(c, Low8(bytes[1]))], DecodeBytes(bytes[2..]))
      else
        if |bytes| < 3 then Err(TRUNCATED)
        else Concat([Unit3(c, Low8(bytes[1]), Low8(bytes[2]))], DecodeBytes(bytes[3..]))
  }

  /** `bytesToString` as a function: skip a masked byte-order mark, then decode. */
  function Utf8Decode(bytes: seq<int>): Result<Utf16> {
    DecodeBytes(if BomMasked(bytes) then bytes[3..] else bytes)
  }

  lemma ConcatEmpty(r: Result<Utf16>)
    ensures Concat([], r) == r
  {
    match r
    case Ok(t) => assert [] + t == t;
    case Err(_) =>
  }

  lemma ConcatAssoc(p: Utf16, q: Utf16, r: Result<Utf16>)
    ensures Concat(p, Concat(q, r)) == Concat(p + q, r)
  {
    match r
    case Ok(t) => assert p + (q + t) == (p + q) + t;
    case Err(_) =>
  }

  /** Decoding the bytes of one code unit in front of more bytes gives that unit back first. */
  lemma DecodeUnit(c: u16, rest: seq<int>)
    ensures DecodeBytes(EncodeUnit(c) + rest) == Concat([c], DecodeBytes(rest))
  {
    var bytes := EncodeUnit(c) + rest;
    var n := c as int;
    if n < 128 {
      assert bytes[1..] == rest;
    } else if n < 2048 {
      assert bytes[2..] == rest;
      Unit2Inverse(n);
      assert Low8(bytes[0]) == n / 64 + 192 && Low8(bytes[1]) == n % 64 + 128;
    } else {
      assert bytes[3..] == rest;
      Unit3Inverse(n);
      assert Low8(bytes[0]) == n / 4096 + 224;
      assert Low8(bytes[1]) == (n / 64) % 64 + 128 && Low8(bytes[2]) == n % 64 + 128;
    }
  }

  /** The two bytes `EncodeUnit` writes for a unit in 128..2047 give it back. */
  lemma Unit2Inverse(n: int)
    requires 128 <= n < 2048
    ensures Unit2(n / 64 + 192, n % 64 + 128) == n as u16
  {
    var b0, b1 := n / 64 + 192, n % 64 + 128;
    assert b0 % 32 == n / 64;
    assert b1 % 64 == n % 64;
    assert (n / 64) * 64 + n % 64 == n;
  }

  /** The three bytes `EncodeUnit` writes for a unit from 2048 on give it back. */
  lemma Unit3Inverse(n: int)
    requires 2048 <= n < 65536
    ensures Unit3(n / 4096 + 224, (n / 64) % 64 + 128, n % 64 + 128) == n as u16
  {
    var q := n / 64;
    var b0, b1, b2 := n / 4096 + 224, q % 64 + 128, n % 64 + 128;
    assert n / 4096 == q / 64;
    assert b0 % 16 == q / 64;
    assert b1 % 64 == q % 64 && b2 % 64 == n % 64;
    assert q * 64 + n % 64 == n;
    assert (q / 64) * 64 + q % 64 == q;
    assert (q / 64) * 4096 + (q % 64) * 64 + n % 64 == n;
  }

  /** Decoding (without the byte-order test) inverts `Utf8Encode`. */
  lemma {:induction false} DecodeEncode(s: Utf16)
    ensures DecodeBytes(Utf8Encode(s)) == Ok(s)
  {
    if s != [] {
      DecodeUnit(s[0], Utf8Encode(s[1..]));
      DecodeEncode(s[1..]);
      assert [s[0]] + s[1..] == s;
    }
  }

  /** Decoding reads only the low eight bits of each number. */
  lemma {:induction false} DecodeLow8(xs: seq<int>, ys: seq<int>)
    requires |xs| == |ys| && forall i :: 0 <= i < |xs| ==> Low8(xs[i]) == Low8(ys[i])
    ensures DecodeBytes(xs) == DecodeBytes(ys)
    decreases |xs|
  {
    if xs != [] {
      var c := Low8(xs[0]);
      if c < 128 {
        DecodeLow8(xs[1..], ys[1..]);
      } else if 191 < c < 224 {
        if |xs| >= 2 { DecodeLow8(xs[2..], ys[2..]); }
      } else {
        if |xs| >= 3 { DecodeLow8(xs[3..], ys[3..]); }
      }
    }
  }

  lemma MaskNeedsHighBit(b: int)
    requires 0 <= b < 128
    ensures !MaskMatches(b, 0xef)
  {
    var v := b as bv8;
    assert v < 0x80;
    assert v & 0xef == 0xef ==> v & 0x80 == 0x80;
  }

  /** An ASCII first byte, followed by any encoded text, decodes to that unit and the text. */
  lemma DecodeAsciiThenText(n: int, s: Utf16)
    requires 0 <= n < 128
    ensures Utf8Decode([n] + Utf8Encode(s)) == Ok([n as u16] + s)
  {
    MaskNeedsHighBit(n);
    assert ([n] + Utf8Encode(s))[1..] == Utf8Encode(s);
    DecodeEncode(s);
  }

  /**
   * The round trip `bytesToString(stringToBytes(s)) == s` holds whenever
   * the encoded bytes do not pass the masked byte-order test.
   */
  lemma Utf8RoundTrip(s: Utf16)
    requires !BomMasked(Utf8Encode(s))
    ensures Utf8Decode(Utf8Encode(s)) == Ok(s)
  {
    DecodeEncode(s);
  }

  /** A leading U+FEFF is encoded as EF BB BF, which the decoder skips as a byte-order mark. */
  lemma Utf8RoundTripDropsBom(s: Utf16)
    ensures Utf8Decode(Utf8Encode([0xFEFF as u16] + s)) == Ok(s)
  {
    var bom := [0xFEFF as u16];
    Utf8EncodeConcat(bom, s);
    BomEncoding();
    var e := [0xEF, 0xBB, 0xBF] + Utf8Encode(s);
    BomBytesMasked(Utf8Encode(s));
    assert e[3..] == Utf8Encode(s);
    DecodeEncode(s);
  }

  lemma BomEncoding()
    ensures Utf8Encode([0xFEFF as u16]) == [0xEF, 0xBB, 0xBF]
  {
    assert [0xFEFF as u16][1..] == [];
    assert EncodeUnit(0xFEFF as u16) == [0xEF, 0xBB, 0xBF];
  }

  lemma BomBytesMasked(t: seq<int>)
    ensures BomMasked([0xEF, 0xBB, 0xBF] + t)
  {
    assert Low8(0xEF) == 0xEF && Low8(0xBB) == 0xBB && Low8(0xBF) == 0xBF;
  }

  // ---------------------------------------------------------------- hex

  /** The lower-case hex digit of `d`. */
  function HexDigit(d: int): (c: u16)
    requires 0 <= d < 16
    ensures (d < 10 ==> c as int == '0' as int + d) && (d >= 10 ==> c as int == 'a' as int + d - 10)
  {
    if d < 10 then (48 + d) as u16 else (87 + d) as u16
  }

  /** `b.toString(16)` for a byte value: one digit below 16, two from 16 on. */
  function ByteToHex(b: int): (r: Utf16)
    requires 0 <= b < 256
  {
    if b < 16 then [HexDigit(b)] else [HexDigit(b / 16), HexDigit(b % 16)]
  }

  /** Two lower-case, zero-padded hex digits of a byte value. */
  function HexPair(b: int): (r: Utf16)
    requires 0 <= b < 256
    ensures |r| == 2
  {
    [HexDigit(b / 16), HexDigit(b % 16)]
  }

  /** The value of one hex digit character (either case); -1 for anything else. */
  function HexDigitValue(c: u16): int {
    var n := c as int;
    if 48 <= n <= 57 then n - 48
    else if 97 <= n <= 102 then n - 87
    else if 65 <= n <= 70 then n - 55
    else -1
  }

  /** Reading back the digit of `HexDigit`. */
  lemma HexDigitRoundTrip(d: int)
    requires 0 <= d < 16
    ensures HexDigitValue(HexDigit(d)) == d
  {}

  /** The two digits of `HexPair(b)` give `b` back. */
  lemma HexPairRoundTrip(b: int)
    requires 0 <= b < 256
    ensures HexDigitValue(HexPair(b)[0]) * 16 + HexDigitValue(HexPair(b)[1]) == b
  {
    HexDigitRoundTrip(b / 16);
    HexDigitRoundTrip(b % 16);
  }

  /** Every byte as two lower-case, zero-padded hex digits of its low eight bits, concatenated. */
  function HexString(bytes: seq<int>): (r: Utf16)
    ensures |r| == 2 * |bytes|
  {
    if bytes == [] then [] else HexPair(Low8(bytes[0])) + HexString(bytes[1..])
  }

  lemma {:induction false} HexStringAt(bytes: seq<int>, i: int)
    requires 0 <= i < |bytes|
    ensures HexString(bytes)[2 * i..2 * i + 2] == HexPair(Low8(bytes[i]))
  {
    if i > 0 {
      HexStringAt(bytes[1..], i - 1);
      var h, t := HexPair(Low8(bytes[0])), HexString(bytes[1..]);
      assert HexString(bytes) == h + t;
      assert |h| == 2 && 2 * (i - 1) + 2 <= |t|;
      assert (h + t)[2 * i..2 * i + 2] == t[2 * (i - 1)..2 * (i - 1) + 2];
    }
  }

  lemma {:induction false} HexStringAppend(a: seq<int>, b: seq<int>)
    ensures HexString(a + b) == HexString(a) + HexString(b)
  {
    if a != [] {
      assert (a + b)[0] == a[0] && (a + b)[1..] == a[1..] + b;
      HexStringAppend(a[1..], b);
      assert HexString(a + b) == HexPair(Low8(a[0])) + (HexString(a[1..]) + HexString(b));
    } else {
      assert a + b == b;
    }
  }

  // ---------------------------------------------------------------- records

  /** The fields of an `android.nfc.NdefRecord`. */
  datatype NdefRecord = NdefRecord(tnf: int, recordType: seq<sbyte>, id: seq<sbyte>, payload: seq<sbyte>)

  datatype NdefMessage = NdefMessage(records: seq<NdefRecord>)

  /**
   * The JSON view of a record (`NfcNdefRecord`). `id` and `payload` hold
   * the numbers of the arrays the source renders; the JSON text itself is
   * produced by a library and is not part of this model.
   */
  datatype RecordJson = RecordJson(
    tnf: int,
    recordType: Option<int>,
    id: seq<int>,
    payload: seq<int>,
    payloadAsHexString: Utf16,
    payloadAsStringWithPrefix: Utf16,
    payloadAsString: Utf16)

  /** A Java byte array seen as JavaScript numbers. */
  function Ints(b: seq<sbyte>): (r: seq<int>)
    ensures |r| == |b| && forall i :: 0 <= i < |b| ==> r[i] == b[i] as int
  {
    seq(|b|, i requires 0 <= i < |b| => b[i] as int)
  }

  /**
   * `s.substring(start)`: `start` is clamped to `0..|s|`; `None` stands for
   * NaN, which reads as 0.
   */
  function SubstringFrom(s: Utf16, start: Option<int>): (r: Utf16)
    ensures start.None? ==> r == s
    ensures start.Some? && 0 <= start.value <= |s| ==> r == s[start.value..]
  {
    match start
    case None => s
    case Some(k) => if k <= 0 then s else if k >= |s| then [] else s[k..]
  }

  /** `s.slice(1)`. */
  function SliceFromOne(s: Utf16): Utf16 {
    if s == [] then [] else s[1..]
  }

  /**
   * `NfcUriProtocols[i] || ''` for an index that may be missing (`None`) or
   * out of range: the entry, or the empty string.
   */
  function ProtocolAt(protocols: seq<Utf16>, i: Option<int>): Utf16 {
    if i.Some? && 0 <= i.value < |protocols| then protocols[i.value] else []
  }
}
