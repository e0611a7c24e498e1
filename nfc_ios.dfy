/**
 * The reading side of the iOS NFC plugin: the NDEF payload bytes of a
 * reader session rendered as hex text, decimal numbers and one character
 * per byte, and the JSON view of each record.
 */
module NfcIos {

  import opened Optional
  import opened NfcText

  /** An `NFCNDEFPayload`: its type name format and its type, identifier and payload bytes. */
  datatype NfcPayload = NfcPayload(typeNameFormat: int, recordType: seq<uint8>, identifier: seq<uint8>, payload: seq<uint8>)

  function Bytes(bs: seq<uint8>): (r: seq<int>)
    ensures |r| == |bs| && forall i :: 0 <= i < |bs| ==> r[i] == bs[i] as int
  {
    seq(|bs|, i requires 0 <= i < |bs| => bs[i] as int)
  }

  /** One code unit per byte, with the byte as its code. */
  function Units(bs: seq<uint8>): (r: Utf16)
    ensures |r| == |bs| && forall i :: 0 <= i < |bs| ==> r[i] as int == bs[i] as int
  {
    seq(|bs|, i requires 0 <= i < |bs| => bs[i] as int as u16)
  }

  // ---------------------------------------------------------------- hexToDec

  /** `toLowerCase` on one code unit, for the ASCII letters. */
  function AsciiLower(c: u16): u16 {
    if 65 <= c as int <= 90 then (c as int + 32) as u16 else c
  }

  function Lower(s: Utf16): (r: Utf16)
    ensures |r| == |s| && forall i :: 0 <= i < |s| ==> r[i] == AsciiLower(s[i])
  {
    seq(|s|, i requires 0 <= i < |s| => AsciiLower(s[i]))
  }

  /** `'0123456789abcdefgh'.indexOf(c)`: 0..17, or -1 when `c` is not listed. */
  function DigitIndex(c: u16): (d: int)
    ensures -1 <= d < 18
  {
    var n := c as int;
    if 48 <= n <= 57 then n - 48 else if 97 <= n <= 104 then n - 87 else -1
  }

  /** The accumulation of the `hexToDec` loop: `result * 16 + digitValue`, left to right. */
  function HexFold(s: Utf16): int {
    if s == [] then 0 else HexFold(s[..|s| - 1]) * 16 + DigitIndex(AsciiLower(s[|s| - 1]))
  }

  function Pow16(n: nat): (p: nat)
    ensures p >= 1
  {
    if n == 0 then 1 else 16 * Pow16(n - 1)
  }

  predicate IsHexDigits(s: Utf16) {
    forall i :: 0 <= i < |s| ==> HexDigitValue(s[i]) >= 0
  }

  /** The value of a numeral in base 16, digit by positional weight. */
  function HexValue(s: Utf16): (v: nat)
    requires IsHexDigits(s)
  {
    if s == [] then 0 else HexDigitValue(s[0]) * Pow16(|s| - 1) + HexValue(s[1..])
  }

  lemma {:induction false} HexValueSnoc(s: Utf16, c: u16)
    requires IsHexDigits(s) && HexDigitValue(c) >= 0
    ensures IsHexDigits(s + [c]) && HexValue(s + [c]) == HexValue(s) * 16 + HexDigitValue(c)
  {
    assert IsHexDigits(s + [c]);
    if s == [] {
      assert [] + [c] == [c];
    } else {
      var t := s + [c];
      assert t[0] == s[0] && t[1..] == s[1..] + [c];
      HexValueSnoc(s[1..], c);
      var a, p, r := HexDigitValue(s[0]), Pow16(|s| - 1), HexValue(s[1..]);
      assert Pow16(|t| - 1) == 16 * p;
      assert HexValue(t) == a * (16 * p) + (r * 16 + HexDigitValue(c));
      Mul16(a, p);
    }
  }

  lemma Mul16(a: int, p: int)
    ensures a * (16 * p) == (a * p) * 16
  {}

  /** Either case of a hex digit reads as its value in `hexToDec`. */
  lemma DigitIndexOfHexDigit(c: u16)
    requires HexDigitValue(c) >= 0
    ensures DigitIndex(AsciiLower(c)) == HexDigitValue(c)
  {}

  /**
   * On a string of hex digits of either case, the digit-by-digit
   * accumulation of `hexToDec` is the positional base-16 value.
   */
  lemma {:induction false} HexFoldIsValue(s: Utf16)
    requires IsHexDigits(s)
    ensures HexFold(s) == HexValue(s)
  {
    if s != [] {
      var init := s[..|s| - 1];
      var c := s[|s| - 1];
      assert s == init + [c];
      assert IsHexDigits(init);
      HexFoldIsValue(init);
      DigitIndexOfHexDigit(c);
      HexValueSnoc(init, c);
    }
  }

  /** `hexToDec` on a zero-padded byte pair gives the byte. */
  lemma HexFoldPair(b: int)
    requires 0 <= b < 256
    ensures HexFold(HexPair(b)) == b
  {
    var p := HexPair(b);
    HexDigitRoundTrip(b / 16);
    HexDigitRoundTrip(b % 16);
    DigitIndexOfHexDigit(p[0]);
    DigitIndexOfHexDigit(p[1]);
    assert p[..1] == [p[0]] && [p[0]][..0] == [];
    assert HexFold(p[..1]) == DigitIndex(AsciiLower(p[0]));
    assert HexFold(p) == HexFold(p[..1]) * 16 + DigitIndex(AsciiLower(p[1]));
  }

  /** `hexToDec`: undefined for undefined, else the accumulated value of the lower-cased text. */
  method HexToDec(hex: Option<Utf16>) returns (r: Option<int>)
    ensures r.None? <==> hex.None?
    ensures hex.Some? ==> r.value == HexFold(hex.value)
  {
    if hex.None? {
      return None;
    }
    var result := 0;
    var h := Lower(hex.value);
    for i := 0 to |h|
      invariant result == HexFold(hex.value[..i])
    {
      var digitValue := DigitIndex(h[i]);
      assert hex.value[..i + 1][..i] == hex.value[..i];
      result := result * 16 + digitValue;
    }
    assert hex.value[..|h|] == hex.value;
    return Some(result);
  }

  // ---------------------------------------------------------------- buf2hex

  /** `('00' + x.toString(16)).slice(-2)`: the last two units, which are the zero-padded pair. */
  function PadHex(x: uint8): (r: Utf16)
    ensures r == HexPair(x as int)
  {
    var t := Ascii("00") + ByteToHex(x as int);
    t[|t| - 2..]
  }

  /** `buf2hexArray`: one padded pair per byte. */
  function Buf2HexArray(b: seq<uint8>): (r: seq<Utf16>)
    ensures |r| == |b| && forall i :: 0 <= i < |b| ==> r[i] == HexPair(b[i] as int) && IsHexDigits(r[i])
  {
    seq(|b|, i requires 0 <= i < |b| => PadHex(b[i]))
  }

  /** `buf2hexString`: the pairs joined with no separator; 2n lower-case digits for n bytes. */
  function Buf2HexString(b: seq<uint8>): (r: Utf16)
    ensures r == HexString(Bytes(b))
  {
    if b == [] then [] else
      assert Bytes(b)[1..] == Bytes(b[1..]);
      PadHex(b[0]) + Buf2HexString(b[1..])
  }

  function Flatten(ss: seq<Utf16>): Utf16 {
    if ss == [] then [] else ss[0] + Flatten(ss[1..])
  }

  /** Joining the array of `buf2hexArray` gives the string of `buf2hexString`. */
  lemma {:induction false} JoinHexArray(b: seq<uint8>)
    ensures Flatten(Buf2HexArray(b)) == Buf2HexString(b)
  {
    if b != [] {
      assert Buf2HexArray(b)[1..] == Buf2HexArray(b[1..]);
      JoinHexArray(b[1..]);
    }
  }

  // ---------------------------------------------------------------- hex2a

  /** The white space and line terminators `parseInt` skips. */
  predicate IsJsSpace(c: u16) {
    var n := c as int;
    (9 <= n <= 13) || n == 32 || n == 0xA0 || n == 0x1680 || (0x2000 <= n <= 0x200A)
    || n == 0x2028 || n == 0x2029 || n == 0x202F || n == 0x205F || n == 0x3000 || n == 0xFEFF
  }

  function SkipSpace(s: Utf16): (r: Utf16)
    ensures |r| <= |s|
  {
    if s != [] && IsJsSpace(s[0]) then SkipSpace(s[1..]) else s
  }

  /** The length of the longest prefix of hex digits. */
  function HexDigitsPrefix(s: Utf16): (n: nat)
    ensures n <= |s| && IsHexDigits(s[..n])
  {
    if s != [] && HexDigitValue(s[0]) >= 0 then
      var n := 1 + HexDigitsPrefix(s[1..]);
      assert s[..n] == [s[0]] + s[1..][..n - 1];
      n
    else 0
  }

  /**
   * `parseInt(s, 16)`: leading white space, a sign and a `0x` prefix are
   * skipped, then the longest run of hex digits is read; `None` is NaN.
   */
  function ParseIntHex(s: Utf16): Option<int> {
    var t := SkipSpace(s);
    var negative := t != [] && t[0] as int == 45;
    var u := if t != [] && (t[0] as int == 45 || t[0] as int == 43) then t[1..] else t;
    var v := if |u| >= 2 && u[0] as int == 48 && (u[1] as int == 120 || u[1] as int == 88) then u[2..] else u;
    var n := HexDigitsPrefix(v);
    if n == 0 then None else Some(if negative then -(HexValue(v[..n]) as int) else HexValue(v[..n]))
  }

  /** `String.fromCharCode`: NaN gives unit 0, any other integer is taken modulo 2^16. */
  function FromCharCode(x: Option<int>): u16 {
    if x.None? then 0 else (x.value % 0x10000) as u16
  }

  /** What `hex2a` builds: one unit per (at most) two characters of the text. */
  function Hex2aSpec(hex: Utf16): Utf16
    decreases |hex|
  {
    if hex == [] then []
    else
      var k := if |hex| < 2 then |hex| else 2;
      [FromCharCode(ParseIntHex(hex[..k]))] + Hex2aSpec(hex[k..])
  }

  function Rest(s: Utf16, i: nat): Utf16 {
    if i <= |s| then s[i..] else []
  }

  /** `hex2a`: walks the text two characters at a time. */
  method Hex2a(hex: Utf16) returns (str: Utf16)
    ensures str == Hex2aSpec(hex)
  {
    str := [];
    var i := 0;
    while i < |hex|
      invariant 0 <= i <= |hex| + 1
      invariant str + Hex2aSpec(Rest(hex, i)) == Hex2aSpec(hex)
      decreases |hex| - i
    {
      var end := if i + 2 <= |hex| then i + 2 else |hex|;
      var code := FromCharCode(ParseIntHex(hex[i..end]));
      Hex2aStep(hex, str, i, end);
      str := str + [code];
      i := i + 2;
    }
    assert Rest(hex, i) == [];
  }

  /** One turn of the `hex2a` loop keeps its invariant. */
  lemma Hex2aStep(hex: Utf16, str: Utf16, i: nat, end: nat)
    requires i < |hex| && end == (if i + 2 <= |hex| then i + 2 else |hex|)
    requires str + Hex2aSpec(Rest(hex, i)) == Hex2aSpec(hex)
    ensures (str + [FromCharCode(ParseIntHex(hex[i..end]))]) + Hex2aSpec(Rest(hex, i + 2)) == Hex2aSpec(hex)
  {
    var code, after := FromCharCode(ParseIntHex(hex[i..end])), Hex2aSpec(Rest(hex, i + 2));
    Hex2aSpecFront(hex, i, end);
    AppendAssoc(str, [code], after);
  }

  lemma AppendAssoc<T>(a: seq<T>, b: seq<T>, c: seq<T>)
    ensures (a + b) + c == a + (b + c)
  {}

  /** One turn of the `hex2a` loop: the pair at `i` and then the text after it. */
  lemma Hex2aSpecFront(hex: Utf16, i: nat, end: nat)
    requires i < |hex| && end == (if i + 2 <= |hex| then i + 2 else |hex|)
    ensures Hex2aSpec(Rest(hex, i)) == [FromCharCode(ParseIntHex(hex[i..end]))] + Hex2aSpec(Rest(hex, i + 2))
  {
    var t := hex[i..];
    assert Rest(hex, i) == t && t != [];
    assert t[..end - i] == hex[i..end];
    assert t[end - i..] == Rest(hex, i + 2);
  }

  /** `parseInt` on a zero-padded pair reads back the byte. */
  lemma ParsePair(b: int)
    requires 0 <= b < 256
    ensures ParseIntHex(HexPair(b)) == Some(b)
  {
    var p := HexPair(b);
    HexPairRoundTrip(b);
    PairIsHexDigits(b);
    assert !IsJsSpace(p[0]);
    assert SkipSpace(p) == p;
    assert p[1] as int != 120 && p[1] as int != 88;
    assert p[1..][1..] == [];
    assert HexDigitsPrefix(p) == 2;
    assert p[..2] == p;
    assert HexValue(p[1..]) == HexDigitValue(p[1]) by {
      assert p[1..][1..] == [];
    }
    assert HexValue(p) == HexDigitValue(p[0]) * 16 + HexDigitValue(p[1]);
  }

  /** `hex2a` of the hex text of some bytes gives one unit per byte, with the byte as its code. */
  lemma {:induction false} Hex2aOfHexString(bs: seq<uint8>)
    ensures Hex2aSpec(Buf2HexString(bs)) == Units(bs)
  {
    if bs != [] {
      ParsePair(bs[0] as int);
      Hex2aPair(PadHex(bs[0]), Buf2HexString(bs[1..]), bs[0] as int);
      Hex2aOfHexString(bs[1..]);
      UnitsCons(bs);
    }
  }

  lemma UnitsDrop(bs: seq<uint8>, n: nat)
    requires n <= |bs|
    ensures Units(bs)[n..] == Units(bs[n..])
  {}

  lemma UnitsCons(bs: seq<uint8>)
    requires bs != []
    ensures Units(bs) == [bs[0] as int as u16] + Units(bs[1..])
  {
    assert Units(bs)[1..] == Units(bs[1..]);
  }

  /** `hex2a` reads a leading pair that `parseInt` takes to `x` as the unit `x`. */
  lemma Hex2aPair(p: Utf16, rest: Utf16, x: int)
    requires |p| == 2 && 0 <= x < 256 && ParseIntHex(p) == Some(x)
    ensures Hex2aSpec(p + rest) == [x as u16] + Hex2aSpec(rest)
  {
    var t := p + rest;
    assert t[..2] == p && t[2..] == rest;
  }

  /** `nsdataToASCIIString`: hex text, then `hex2a`. */
  method NsdataToAsciiString(data: seq<uint8>) returns (str: Utf16)
    ensures str == Units(data)
  {
    str := Hex2a(Buf2HexString(data));
    Hex2aOfHexString(data);
  }

  // ---------------------------------------------------------------- hexToDecArray

  /** What `hexToDecArray` renders: the element-wise `hexToDec` values. */
  function HexFoldAll(hexArray: seq<Utf16>): (r: seq<int>)
    ensures |r| == |hexArray| && forall i :: 0 <= i < |hexArray| ==> r[i] == HexFold(hexArray[i])
  {
    seq(|hexArray|, i requires 0 <= i < |hexArray| => HexFold(hexArray[i]))
  }

  /**
   * `hexToDecArray`, up to the JSON rendering: the array whose i-th element
   * is the accumulated value of hexArray[i].
   */
  method HexToDecArray(hexArray: seq<Utf16>) returns (resultArray: seq<int>)
    ensures resultArray == HexFoldAll(hexArray)
  {
    resultArray := [];
    for i := 0 to |hexArray|
      invariant |resultArray| == i
      invariant forall k :: 0 <= k < i ==> resultArray[k] == HexFold(hexArray[k])
    {
      var result := 0;
      var hex := Lower(hexArray[i]);
      for j := 0 to |hex|
        invariant result == HexFold(hexArray[i][..j])
      {
        var digitValue := DigitIndex(hex[j]);
        assert hexArray[i][..j + 1][..j] == hexArray[i][..j];
        result := result * 16 + digitValue;
      }
      assert hexArray[i][..|hex|] == hexArray[i];
      resultArray := resultArray + [result];
    }
  }

  /** On the pairs of `buf2hexArray`, `hexToDecArray` gives the bytes back. */
  lemma HexToDecArrayOfBytes(b: seq<uint8>)
    ensures HexFoldAll(Buf2HexArray(b)) == Bytes(b)
  {
    forall i | 0 <= i < |b|
      ensures HexFold(Buf2HexArray(b)[i]) == b[i] as int
    {
      HexFoldPair(b[i] as int);
    }
  }

  // ---------------------------------------------------------------- recordToJSON

  predicate IsDecimalDigit(c: u16) {
    48 <= c as int <= 57
  }

  /**
   * Unary `+` on a pair of hex digits: the decimal reading when both are
   * decimal digits, NaN (`None`) when a letter is present (two characters
   * are too few for an exponent or a radix prefix).
   */
  function PlusOfHexPair(p: Utf16): (r: Option<int>)
    requires |p| == 2 && IsHexDigits(p)
    ensures r.Some? ==> 0 <= r.value < 100
  {
    if IsDecimalDigit(p[0]) && IsDecimalDigit(p[1]) then Some((p[0] as int - 48) * 10 + (p[1] as int - 48)) else None
  }

  /**
   * The array index a pair of hex digits names as a property key: a
   * canonical decimal numeral, so no leading zero and no letter; `None`
   * for any other key.
   */
  function ArrayIndexOfKey(p: Utf16): (r: Option<int>)
    requires |p| == 2 && IsHexDigits(p)
    ensures r.Some? ==> 10 <= r.value < 100
  {
    if 49 <= p[0] as int <= 57 && IsDecimalDigit(p[1]) then Some((p[0] as int - 48) * 10 + (p[1] as int - 48)) else None
  }

  lemma PairIsHexDigits(b: int)
    requires 0 <= b < 256
    ensures IsHexDigits(HexPair(b))
  {
    HexPairRoundTrip(b);
  }

  /** The record type `recordToJSON` reports: `hexToDec` of the first type pair. */
  function DecimalType(record: NfcPayload): Option<int> {
    var typeHex := Buf2HexArray(record.recordType);
    if typeHex == [] then None else Some(HexFold(typeHex[0]))
  }

  /** The fields `recordToJSON` computes before it treats Text and URI records. */
  function RecordJsonWith(record: NfcPayload, text: Utf16): RecordJson {
    RecordJson(record.typeNameFormat, DecimalType(record),
               HexFoldAll(Buf2HexArray(record.identifier)), HexFoldAll(Buf2HexArray(record.payload)),
               Buf2HexString(record.payload), Hex2aSpec(Buf2HexString(record.payload)), text)
  }

  /**
   * What every view of a record reports from its bytes: the TNF, the type
   * byte, the id and payload bytes, the payload's hex text, and a string
   * with one unit per payload byte.
   */
  predicate ReportsBytes(record: NfcPayload, r: RecordJson) {
    && r.tnf == record.typeNameFormat
    && r.recordType == (if record.recordType == [] then None else Some(record.recordType[0] as int))
    && r.id == Bytes(record.identifier) && r.payload == Bytes(record.payload)
    && r.payloadAsHexString == HexString(Bytes(record.payload))
    && r.payloadAsStringWithPrefix == Units(record.payload)
  }

  lemma RecordJsonWithFields(record: NfcPayload, text: Utf16)
    ensures ReportsBytes(record, RecordJsonWith(record, text))
    ensures RecordJsonWith(record, text).payloadAsString == text
  {
    HexToDecArrayOfBytes(record.identifier);
    HexToDecArrayOfBytes(record.payload);
    Hex2aOfHexString(record.payload);
    if record.recordType != [] { HexFoldPair(record.recordType[0] as int); }
  }

  /**
   * `recordToJSON` as written: the Text status byte is read with unary `+`
   * on its hex text, and the URI identifier code indexes the protocol list
   * with its hex text as a property key.
   */
  function RecordToJsonAsWritten(record: NfcPayload, protocols: seq<Utf16>): (r: RecordJson)
    ensures ReportsBytes(record, r)
    ensures r.recordType != Some(0x54) && r.recordType != Some(0x55) ==> r.payloadAsString == r.payloadAsStringWithPrefix
  {
    var text := AsWrittenText(record, protocols);
    RecordJsonWithFields(record, text);
    RecordJsonWith(record, text)
  }

  /** The `payloadAsString` of `recordToJSON` as written. */
  function AsWrittenText(record: NfcPayload, protocols: seq<Utf16>): Utf16 {
    var hexArray := Buf2HexArray(record.payload);
    var full := Hex2aSpec(Buf2HexString(record.payload));
    var decimalType := DecimalType(record);
    if decimalType == Some(84) then
      var len := if hexArray == [] then None else PlusOfHexPair(hexArray[0]);
      SubstringFrom(full, if len.None? then None else Some(len.value + 1))
    else if decimalType == Some(85) then
      var key := if hexArray == [] then None else ArrayIndexOfKey(hexArray[0]);
      ProtocolAt(protocols, key) + SliceFromOne(full)
    else full
  }

  /**
   * `recordToJSON` with the status byte and the identifier code read as the
   * byte values they are (the reading of the Android handler).
   */
  function RecordToJson(record: NfcPayload, protocols: seq<Utf16>): (r: RecordJson)
    ensures ReportsBytes(record, r)
    ensures r.recordType != Some(0x54) && r.recordType != Some(0x55) ==> r.payloadAsString == r.payloadAsStringWithPrefix
  {
    var text := CorrectedText(record, protocols);
    RecordJsonWithFields(record, text);
    RecordJsonWith(record, text)
  }

  /** The `payloadAsString` of the corrected reading. */
  function CorrectedText(record: NfcPayload, protocols: seq<Utf16>): Utf16 {
    var full := Hex2aSpec(Buf2HexString(record.payload));
    var first: Option<int> := if record.payload == [] then None else Some(record.payload[0] as int);
    var decimalType := DecimalType(record);
    if decimalType == Some(84) then
      SubstringFrom(full, if first.None? then None else Some(first.value + 1))
    else if decimalType == Some(85) then
      ProtocolAt(protocols, first) + SliceFromOne(full)
    else full
  }

  /** A Text record drops the status byte and the language code it counts. */
  lemma TextRecordStripsLanguage(record: NfcPayload, protocols: seq<Utf16>)
    requires record.recordType != [] && record.recordType[0] == 0x54
    requires record.payload != [] && record.payload[0] as int + 1 <= |record.payload|
    ensures RecordToJson(record, protocols).payloadAsString == Units(record.payload[record.payload[0] as int + 1..])
  {
    HexFoldPair(0x54);
    assert DecimalType(record) == Some(0x54);
    CorrectedTextOfText(record, protocols);
    Hex2aOfHexString(record.payload);
    UnitsDrop(record.payload, record.payload[0] as nat + 1);
  }

  lemma CorrectedTextOfText(record: NfcPayload, protocols: seq<Utf16>)
    requires DecimalType(record) == Some(0x54) && record.payload != []
    ensures CorrectedText(record, protocols) == SubstringFrom(Hex2aSpec(Buf2HexString(record.payload)), Some(record.payload[0] as int + 1))
  {}

  /** A URI record is the protocol of its identifier code (or '') and the payload after the code. */
  lemma UriRecordPrefixes(record: NfcPayload, protocols: seq<Utf16>)
    requires record.recordType != [] && record.recordType[0] == 0x55 && record.payload != []
    ensures RecordToJson(record, protocols).payloadAsString
      == ProtocolAt(protocols, Some(record.payload[0] as int)) + Units(record.payload[1..])
  {
    Hex2aOfHexString(record.payload);
    UnitsDrop(record.payload, 1);
  }

  /**
   * Where the as-written reading is exact: every field but `payloadAsString`
   * always, and that one too for other types, for a Text status byte below
   * 10 and for an empty payload.
   */
  lemma AsWrittenAgrees(record: NfcPayload, protocols: seq<Utf16>)
    ensures var w := RecordToJsonAsWritten(record, protocols); var c := RecordToJson(record, protocols);
      w.(payloadAsString := c.payloadAsString) == c
    ensures var w := RecordToJsonAsWritten(record, protocols); var c := RecordToJson(record, protocols);
      DecimalType(record) != Some(84) && DecimalType(record) != Some(85) ==> w == c
    ensures var w := RecordToJsonAsWritten(record, protocols); var c := RecordToJson(record, protocols);
      DecimalType(record) == Some(84) && (record.payload == [] || record.payload[0] < 10) ==> w == c
  {
    assert RecordToJsonAsWritten(record, protocols) == RecordJsonWith(record, AsWrittenText(record, protocols));
    assert RecordToJson(record, protocols) == RecordJsonWith(record, CorrectedText(record, protocols));
    if DecimalType(record) == Some(84) && (record.payload == [] || record.payload[0] < 10) {
      SmallStatusAgrees(record, protocols);
    }
  }

  lemma SmallStatusAgrees(record: NfcPayload, protocols: seq<Utf16>)
    requires DecimalType(record) == Some(84) && (record.payload == [] || record.payload[0] < 10)
    ensures AsWrittenText(record, protocols) == CorrectedText(record, protocols)
  {
    if record.payload != [] {
      var b := record.payload[0] as int;
      var pair := Buf2HexArray(record.payload)[0];
      assert pair == HexPair(b) == [48 as u16, (48 + b) as u16];
      assert PlusOfHexPair(pair) == Some(b);
    }
  }

  /** For a URI identifier code 1 to 9 the as-written lookup finds no protocol. */
  lemma UriAsWrittenLosesPrefix(record: NfcPayload, protocols: seq<Utf16>)
    requires record.recordType != [] && record.recordType[0] == 0x55
    requires record.payload != [] && 1 <= record.payload[0] <= 9
    ensures RecordToJsonAsWritten(record, protocols).payloadAsString == Units(record.payload[1..])
  {
    var full := Hex2aSpec(Buf2HexString(record.payload));
    Hex2aOfHexString(record.payload);
    HexFoldPair(0x55);
    assert DecimalType(record) == Some(0x55);
    var pair := Buf2HexArray(record.payload)[0];
    assert pair == HexPair(record.payload[0] as int);
    assert ArrayIndexOfKey(pair) == None;
    assert AsWrittenText(record, protocols) == SliceFromOne(full);
    UnitsDrop(record.payload, 1);
  }

  const EXAMPLE_COM: seq<uint8> := [101, 120, 97, 109, 112, 108, 101, 46, 99, 111, 109]

  /** The URI record "https://example.com" (identifier code 4) reads as "example.com" as written. */
  lemma UriFindingExample(protocols: seq<Utf16>)
    requires |protocols| > 4 && protocols[4] == Ascii("https://")
    ensures var record := NfcPayload(1, [0x55], [], [4] + EXAMPLE_COM);
      && RecordToJsonAsWritten(record, protocols).payloadAsString == Units(EXAMPLE_COM)
      && RecordToJson(record, protocols).payloadAsString == Ascii("https://") + Units(EXAMPLE_COM)
  {
    var record := NfcPayload(1, [0x55], [], [4] + EXAMPLE_COM);
    assert record.payload[1..] == EXAMPLE_COM;
    UriAsWrittenLosesPrefix(record, protocols);
    UriRecordPrefixes(record, protocols);
  }

  /** For a Text status byte whose hex text holds a letter, the as-written reading strips nothing. */
  lemma TextAsWrittenKeepsPrefix(record: NfcPayload, protocols: seq<Utf16>)
    requires record.recordType != [] && record.recordType[0] == 0x54
    requires record.payload != [] && (record.payload[0] as int % 16 >= 10 || record.payload[0] as int / 16 >= 10)
    ensures RecordToJsonAsWritten(record, protocols).payloadAsString == Units(record.payload)
  {
    assert Buf2HexArray(record.payload)[0] == HexPair(record.payload[0] as int);
  }

  /** "zh-Hant-TW" (10 units). */
  const ZH_HANT_TW: seq<uint8> := [122, 104, 45, 72, 97, 110, 116, 45, 84, 87]

  /** A Text record "Hi" with the 10-unit language code "zh-Hant-TW" keeps its status byte and code as written. */
  lemma TextFindingExample(protocols: seq<Utf16>)
    ensures var record := NfcPayload(1, [0x54], [], [10] + ZH_HANT_TW + [72, 105]);
      && RecordToJsonAsWritten(record, protocols).payloadAsString == Units([10] + ZH_HANT_TW + [72, 105])
      && RecordToJson(record, protocols).payloadAsString == Units([72, 105])
  {
    var record := NfcPayload(1, [0x54], [], [10] + ZH_HANT_TW + [72, 105]);
    TextAsWrittenKeepsPrefix(record, protocols);
    TextRecordStripsLanguage(record, protocols);
    assert record.payload[11..] == [72, 105];
  }

  /** `f` of each element of `xs`, in order: what a loop pushing `f(xs[i])` collects. */
  function Collect<A, B>(f: A -> B, xs: seq<A>): (r: seq<B>)
    ensures |r| == |xs|
    decreases |xs|
  {
    if xs == [] then [] else Collect(f, xs[..|xs| - 1]) + [f(xs[|xs| - 1])]
  }

  lemma {:induction false} CollectAt<A, B>(f: A -> B, xs: seq<A>, i: int)
    requires 0 <= i < |xs|
    ensures Collect(f, xs)[i] == f(xs[i])
    decreases |xs|
  {
    var n := |xs| - 1;
    if i < n {
      CollectAt(f, xs[..n], i);
    }
  }

  lemma CollectAll<A, B>(f: A -> B, xs: seq<A>)
    ensures forall i :: 0 <= i < |xs| ==> Collect(f, xs)[i] == f(xs[i])
  {
    forall i | 0 <= i < |xs|
      ensures Collect(f, xs)[i] == f(xs[i])
    {
      CollectAt(f, xs, i);
    }
  }

  /**
   * `messageToJSON`: one view per record, in order. With `intended` false
   * each view is `recordToJSON` as written, which is what the program
   * returns; with `intended` true it is the corrected reading.
   */
  method MessageToJson(records: seq<NfcPayload>, protocols: seq<Utf16>, intended: bool) returns (result: seq<RecordJson>)
    ensures |result| == |records|
    ensures !intended ==> forall i :: 0 <= i < |records| ==> result[i] == RecordToJsonAsWritten(records[i], protocols)
    ensures intended ==> forall i :: 0 <= i < |records| ==> result[i] == RecordToJson(records[i], protocols)
  {
    var view := (record: NfcPayload) =>
      if intended then RecordToJson(record, protocols) else RecordToJsonAsWritten(record, protocols);
    result := [];
    for i := 0 to |records|
      invariant result == Collect(view, records[..i])
    {
      assert records[..i + 1][..i] == records[..i];
      result := result + [view(records[i])];
    }
    assert records[..|records|] == records;
    CollectAll(view, records);
  }

  /** `ndefToJson`: null for a null message, else the records of `messageToJSON`. */
  method NdefToJson(message: Option<seq<NfcPayload>>, protocols: seq<Utf16>, intended: bool)
    returns (r: Option<seq<RecordJson>>)
    ensures r.None? <==> message.None?
    ensures r.Some? ==> |r.value| == |message.value|
    ensures r.Some? && !intended ==>
      forall i :: 0 <= i < |r.value| ==> r.value[i] == RecordToJsonAsWritten(message.value[i], protocols)
    ensures r.Some? && intended ==>
      forall i :: 0 <= i < |r.value| ==> r.value[i] == RecordToJson(message.value[i], protocols)
  {
    if message.None? {
      return None;
    }
    var records := MessageToJson(message.value, protocols, intended);
    return Some(records);
  }
}
