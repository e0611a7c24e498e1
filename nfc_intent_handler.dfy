/**
 * The reading side of the Android NFC plugin (`NfcIntentHandler`): byte
 * arrays to hex text, to JavaScript arrays and to strings, and records,
 * messages and tags to their JSON view.
 */
module NfcIntentHandler {

  import opened Optional
  import opened NfcText

  /** RTD_TEXT[0] and RTD_URI[0] of `android.nfc.NdefRecord`: 'T' and 'U'. */
  const RTD_TEXT: sbyte := 0x54
  const RTD_URI: sbyte := 0x55

  /** The fields of an `android.nfc.Tag` the handler reads. */
  datatype Tag = Tag(id: seq<sbyte>, techList: seq<string>)

  /** The fields of an `android.nfc.tech.Ndef` the handler reads. */
  datatype Ndef = Ndef(
    ndefType: string,
    maxSize: int,
    writable: bool,
    cachedMessage: Option<NdefMessage>,
    canMakeReadOnly: bool,
    tag: Option<Tag>)

  /** `NfcNdefData` as `ndefToJSON` fills it. */
  datatype NdefJson = NdefJson(
    ndefType: Option<char>,
    maxSize: int,
    writable: bool,
    message: Option<seq<RecordJson>>,
    canMakeReadOnly: bool,
    id: Option<seq<int>>,
    techList: Option<seq<string>>)

  /** `byteArrayToJSArray`: the same numbers, in order. */
  method ByteArrayToJSArray(bytes: seq<sbyte>) returns (result: seq<int>)
    ensures |result| == |bytes|
    ensures forall i :: 0 <= i < |bytes| ==> result[i] == bytes[i] as int
  {
    result := [];
    for i := 0 to |bytes|
      invariant |result| == i
      invariant forall k :: 0 <= k < i ==> result[k] == bytes[k] as int
    {
      result := result + [bytes[i] as int];
    }
  }

  /**
   * `bytesToHexString`: for each byte b, the digits of b (or of b + 256
   * when b is negative), zero-padded to two. The digits read back to that
   * unsigned value.
   */
  method BytesToHexString(bytes: seq<sbyte>) returns (s: Utf16)
    ensures |s| == 2 * |bytes|
    ensures s == HexString(Ints(bytes))
    ensures forall i :: 0 <= i < |bytes| ==>
      s[2 * i..2 * i + 2] == HexPair(if bytes[i] >= 0 then bytes[i] as int else 256 + bytes[i] as int)
    ensures forall i :: 0 <= i < |bytes| ==>
      HexDigitValue(s[2 * i]) * 16 + HexDigitValue(s[2 * i + 1]) == Low8(bytes[i] as int)
  {
    s := [];
    for i := 0 to |bytes|
      invariant s == HexString(Ints(bytes[..i]))
    {
      var dec: int := if bytes[i] >= 0 then bytes[i] as int else 256 + bytes[i] as int;
      var hex := ByteToHex(dec);
      if |hex| == 1 {
        hex := [48 as u16] + hex;
      }
      PaddedHex(dec);
      assert hex == HexPair(Low8(bytes[i] as int));
      HexStringSnoc(bytes, i);
      s := s + hex;
    }
    assert bytes[..|bytes|] == bytes;
    SignedHexPairs(bytes);
  }

  /** `HexStringPairs` for signed Java bytes, whose low eight bits are `b` or `256 + b`. */
  lemma SignedHexPairs(bytes: seq<sbyte>)
    ensures var s := HexString(Ints(bytes));
      && (forall i :: 0 <= i < |bytes| ==>
            s[2 * i..2 * i + 2] == HexPair(if bytes[i] >= 0 then bytes[i] as int else 256 + bytes[i] as int))
      && (forall i :: 0 <= i < |bytes| ==>
            HexDigitValue(s[2 * i]) * 16 + HexDigitValue(s[2 * i + 1]) == Low8(bytes[i] as int))
  {
    HexStringPairs(Ints(bytes));
  }

  /** Zero-padding `dec.toString(16)` to two digits gives the hex pair. */
  lemma PaddedHex(dec: int)
    requires 0 <= dec < 256
    ensures var hex := ByteToHex(dec); (if |hex| == 1 then [48 as u16] + hex else hex) == HexPair(dec)
  {}

  /** One more byte appends its hex pair. */
  lemma HexStringSnoc(bytes: seq<sbyte>, i: nat)
    requires i < |bytes|
    ensures HexString(Ints(bytes[..i + 1])) == HexString(Ints(bytes[..i])) + HexPair(Low8(bytes[i] as int))
  {
    assert Ints(bytes[..i + 1]) == Ints(bytes[..i]) + [bytes[i] as int];
    HexStringAppend(Ints(bytes[..i]), [bytes[i] as int]);
  }

  /** Every pair of the hex text is the pair of its byte, and reads back as the byte. */
  lemma HexStringPairs(xs: seq<int>)
    ensures forall i :: 0 <= i < |xs| ==>
      HexString(xs)[2 * i..2 * i + 2] == HexPair(Low8(xs[i]))
      && HexDigitValue(HexString(xs)[2 * i]) * 16 + HexDigitValue(HexString(xs)[2 * i + 1]) == Low8(xs[i])
  {
    forall i | 0 <= i < |xs|
      ensures HexString(xs)[2 * i..2 * i + 2] == HexPair(Low8(xs[i]))
      ensures HexDigitValue(HexString(xs)[2 * i]) * 16 + HexDigitValue(HexString(xs)[2 * i + 1]) == Low8(xs[i])
    {
      HexStringPairAt(xs, i);
    }
  }

  lemma HexStringPairAt(xs: seq<int>, i: nat)
    requires i < |xs|
    ensures HexString(xs)[2 * i..2 * i + 2] == HexPair(Low8(xs[i]))
    ensures HexDigitValue(HexString(xs)[2 * i]) * 16 + HexDigitValue(HexString(xs)[2 * i + 1]) == Low8(xs[i])
  {
    var h, b := HexString(xs), Low8(xs[i]);
    HexStringAt(xs, i);
    assert h[2 * i..2 * i + 2] == HexPair(b);
    PairDigits(h, 2 * i, b);
  }

  /** Two characters that are the hex pair of `b` read back as `b`. */
  lemma PairDigits(h: Utf16, j: nat, b: int)
    requires 0 <= b < 256 && j + 2 <= |h| && h[j..j + 2] == HexPair(b)
    ensures HexDigitValue(h[j]) * 16 + HexDigitValue(h[j + 1]) == b
  {
    HexPairRoundTrip(b);
    assert h[j] == h[j..j + 2][0] && h[j + 1] == h[j..j + 2][1];
  }

  /**
   * `bytesToString`: starts after the first three bytes when they pass the
   * masked byte-order test, then decodes lead byte by lead byte.
   */
  method BytesToString(bytes: seq<int>) returns (r: Result<Utf16>)
    ensures r == Utf8Decode(bytes)
  {
    var result: Utf16 := [];
    var i := 0;
    if |bytes| >= 3 {
      if MaskMatches(bytes[0], 0xef) && MaskMatches(bytes[1], 0xbb) && MaskMatches(bytes[2], 0xbf) {
        i := 3;
      }
    }
    ghost var start := i;
    ConcatEmpty(DecodeBytes(bytes[start..]));
    assert bytes[start..] == if BomMasked(bytes) then bytes[3..] else bytes;
    while i < |bytes|
      invariant start <= i <= |bytes|
      invariant DecodeBytes(bytes[start..]) == Concat(result, DecodeBytes(bytes[i..]))
      decreases |bytes| - i
    {
      var c := Low8(bytes[i]);
      DecodeAt(bytes, i);
      if c < 128 {
        ConcatAssoc(result, [c as u16], DecodeBytes(bytes[i + 1..]));
        result := result + [c as u16];
        i := i + 1;
      } else if c > 191 && c < 224 {
        if i + 1 >= |bytes| {
          return Err(TRUNCATED);
        }
        var c2 := Low8(bytes[i + 1]);
        ConcatAssoc(result, [Unit2(c, c2)], DecodeBytes(bytes[i + 2..]));
        result := result + [Unit2(c, c2)];
        i := i + 2;
      } else {
        if i + 2 >= |bytes| || i + 1 >= |bytes| {
          return Err(TRUNCATED);
        }
        var c2 := Low8(bytes[i + 1]);
        var c3 := Low8(bytes[i + 2]);
        ConcatAssoc(result, [Unit3(c, c2, c3)], DecodeBytes(bytes[i + 3..]));
        result := result + [Unit3(c, c2, c3)];
        i := i + 3;
      }
    }
    assert result + [] == result;
    r := Ok(result);
  }

  /** The decoding of the bytes from `i` on, by the lead byte at `i`. */
  lemma DecodeAt(bytes: seq<int>, i: nat)
    requires i < |bytes|
    ensures var c, t := Low8(bytes[i]), DecodeBytes(bytes[i..]);
      && (c < 128 ==> t == Concat([c as u16], DecodeBytes(bytes[i + 1..])))
      && (191 < c < 224 && i + 1 < |bytes| ==> t == Concat([Unit2(c, Low8(bytes[i + 1]))], DecodeBytes(bytes[i + 2..])))
      && (!(c < 128) && !(191 < c < 224) && i + 2 < |bytes| ==>
            t == Concat([Unit3(c, Low8(bytes[i + 1]), Low8(bytes[i + 2]))], DecodeBytes(bytes[i + 3..])))
      && (!(c < 128) && (if 191 < c < 224 then i + 1 >= |bytes| else i + 2 >= |bytes|) ==> t == Err(TRUNCATED))
  {
    var u := bytes[i..];
    assert u[0] == bytes[i];
    if i + 1 <= |bytes| { assert u[1..] == bytes[i + 1..]; }
    if i + 2 <= |bytes| { assert u[2..] == bytes[i + 2..]; assert u[1] == bytes[i + 1]; }
    if i + 3 <= |bytes| { assert u[3..] == bytes[i + 3..]; assert u[2] == bytes[i + 2]; }
  }

  /**
   * `recordToJSON`: the payload decoded as UTF-8 is `payloadAsStringWithPrefix`;
   * a Text record drops its first payload[0] + 1 characters, a URI record
   * swaps its first character for the protocol prefix of code payload[0].
   * A decoding error is the exception the source throws.
   */
  function RecordToJson(record: NdefRecord, protocols: seq<Utf16>): (r: Result<RecordJson>)
    ensures r.Ok? <==> Utf8Decode(Ints(record.payload)).Ok?
    ensures r.Err? ==> r.message == TRUNCATED
    ensures r.Ok? ==> r.value.payloadAsStringWithPrefix == Utf8Decode(Ints(record.payload)).value
    ensures r.Ok? ==> r.value.payloadAsHexString == HexString(Ints(record.payload))
    ensures r.Ok? ==> r.value.id == Ints(record.id) && r.value.payload == Ints(record.payload)
  {
    var decoded := Utf8Decode(Ints(record.payload));
    if decoded.Err? then Err(decoded.message)
    else
      var full := decoded.value;
      var first: Option<int> := if record.payload == [] then None else Some(record.payload[0] as int);
      var recordType: Option<int> := if record.recordType == [] then None else Some(record.recordType[0] as int);
      var text :=
        if recordType == Some(RTD_TEXT as int) then
          SubstringFrom(full, if first.None? then None else Some(first.value + 1))
        else if recordType == Some(RTD_URI as int) then
          ProtocolAt(protocols, first) + SliceFromOne(full)
        else full;
      Ok(RecordJson(record.tnf, recordType, Ints(record.id), Ints(record.payload),
                    HexString(Ints(record.payload)), full, text))
  }

  /** A Text record's `payloadAsString` is the decoded payload without its first payload[0] + 1 units. */
  lemma TextRecordStripsLanguage(record: NdefRecord, protocols: seq<Utf16>)
    requires record.recordType != [] && record.recordType[0] == RTD_TEXT
    requires record.payload != [] && RecordToJson(record, protocols).Ok?
    ensures var full := Utf8Decode(Ints(record.payload)).value;
      RecordToJson(record, protocols).value.payloadAsString
        == SubstringFrom(full, Some(record.payload[0] as int + 1))
  {}

  /** A URI record's `payloadAsString` is the protocol of code payload[0] (or '') and the rest of the text. */
  lemma UriRecordPrefixes(record: NdefRecord, protocols: seq<Utf16>)
    requires record.recordType != [] && record.recordType[0] == RTD_URI
    requires record.payload != [] && RecordToJson(record, protocols).Ok?
    ensures var full := Utf8Decode(Ints(record.payload)).value;
      var code := record.payload[0] as int;
      RecordToJson(record, protocols).value.payloadAsString
        == (if 0 <= code < |protocols| then protocols[code] else []) + SliceFromOne(full)
  {}

  /** Other record types keep the whole decoded payload. */
  lemma OtherRecordUnchanged(record: NdefRecord, protocols: seq<Utf16>)
    requires record.recordType == [] || (record.recordType[0] != RTD_TEXT && record.recordType[0] != RTD_URI)
    requires RecordToJson(record, protocols).Ok?
    ensures RecordToJson(record, protocols).value.payloadAsString
      == RecordToJson(record, protocols).value.payloadAsStringWithPrefix
  {}

  /** `messageToJSON`: null for a null message or when any record throws, else one view per record, in order. */
  method MessageToJson(message: Option<NdefMessage>, protocols: seq<Utf16>) returns (r: Option<seq<RecordJson>>)
    ensures message.None? ==> r.None?
    ensures message.Some? ==>
      (r.Some? <==> forall k :: 0 <= k < |message.value.records| ==> RecordToJson(message.value.records[k], protocols).Ok?)
    ensures r.Some? ==> message.Some? && |r.value| == |message.value.records|
    ensures r.Some? ==> forall k :: 0 <= k < |r.value| ==> Ok(r.value[k]) == RecordToJson(message.value.records[k], protocols)
  {
    if message.None? {
      return None;
    }
    var records := message.value.records;
    var result: seq<RecordJson> := [];
    for i := 0 to |records|
      invariant |result| == i
      invariant forall k :: 0 <= k < i ==> Ok(result[k]) == RecordToJson(records[k], protocols)
    {
      var record := RecordToJson(records[i], protocols);
      if record.Err? {
        // the exception is caught and logged; the caller gets null
        return None;
      }
      result := result + [record.value];
    }
    r := Some(result);
  }

  /** `techListToJSON`: null for a null tag, else its technologies in order. */
  method TechListToJson(tag: Option<Tag>) returns (r: Option<seq<string>>)
    ensures tag.None? <==> r.None?
    ensures tag.Some? ==> r == Some(tag.value.techList)
  {
    if tag.None? {
      return None;
    }
    var techList: seq<string> := [];
    var source := tag.value.techList;
    for i := 0 to |source|
      invariant techList == source[..i]
    {
      techList := techList + [source[i]];
    }
    assert source[..|source|] == source;
    r := Some(techList);
  }

  /**
   * `ndefToJSON`: null for a null Ndef; otherwise its properties, the cached
   * message as `messageToJSON` renders it, and id and technologies only when
   * the Ndef has a tag.
   */
  method NdefToJson(ndef: Option<Ndef>, protocols: seq<Utf16>) returns (r: Option<NdefJson>)
    ensures ndef.None? <==> r.None?
    ensures r.Some? ==>
      && r.value.maxSize == ndef.value.maxSize && r.value.writable == ndef.value.writable
      && r.value.canMakeReadOnly == ndef.value.canMakeReadOnly
      && r.value.ndefType == (if ndef.value.ndefType == "" then None else Some(ndef.value.ndefType[0]))
    ensures r.Some? ==> (r.value.id.Some? <==> ndef.value.tag.Some?) && (r.value.techList.Some? <==> ndef.value.tag.Some?)
    ensures r.Some? && ndef.value.tag.Some? ==>
      r.value.id == Some(Ints(ndef.value.tag.value.id)) && r.value.techList == Some(ndef.value.tag.value.techList)
    ensures r.Some? ==> (ndef.value.cachedMessage.None? ==> r.value.message.None?)
    ensures r.Some? && ndef.value.cachedMessage.Some? ==>
      var records := ndef.value.cachedMessage.value.records;
      && (r.value.message.Some? <==> forall k :: 0 <= k < |records| ==> RecordToJson(records[k], protocols).Ok?)
      && (r.value.message.Some? ==>
            |r.value.message.value| == |records|
            && forall k :: 0 <= k < |records| ==> Ok(r.value.message.value[k]) == RecordToJson(records[k], protocols))
  {
    if ndef.None? {
      return None;
    }
    var n := ndef.value;
    var message := MessageToJson(n.cachedMessage, protocols);
    var result := NdefJson(if n.ndefType == "" then None else Some(n.ndefType[0]),
                           n.maxSize, n.writable, message, n.canMakeReadOnly, None, None);
    if n.tag.Some? {
      var id := ByteArrayToJSArray(n.tag.value.id);
      assert id == Ints(n.tag.value.id);
      var techList := TechListToJson(n.tag);
      result := result.(id := Some(id), techList := techList);
    }
    r := Some(result);
  }
}
