/**
 * The writing side of the Android NFC plugin: UTF-8 encoding of strings,
 * Text and URI records built from `WriteTagOptions`, and the checks made
 * before a message is written to a tag.
 */
module NfcAndroid {

  import opened Optional
  import opened NfcText
  import NfcIntentHandler
  import Decimal

  datatype TextRecord = TextRecord(text: Utf16, languageCode: Option<Utf16>, id: Option<seq<int>>)

  datatype UriRecord = UriRecord(uri: Utf16, id: Option<seq<int>>)

  datatype WriteTagOptions = WriteTagOptions(textRecords: Option<seq<TextRecord>>, uriRecords: Option<seq<UriRecord>>)

  /** `android.nfc.NdefRecord.TNF_WELL_KNOWN`. */
  const TNF_WELL_KNOWN := 1

  /**
   * A JavaScript number stored into a Java byte array: its low eight bits,
   * read as a signed byte.
   */
  function ToJavaByte(x: int): (b: sbyte)
    ensures -128 <= x < 128 ==> b as int == x
    ensures Low8(b as int) == Low8(x)
  {
    ((x + 128) % 256 - 128) as sbyte
  }

  function JavaBytes(xs: seq<int>): (r: seq<sbyte>)
    ensures |r| == |xs| && forall i :: 0 <= i < |xs| ==> r[i] == ToJavaByte(xs[i])
  {
    seq(|xs|, i requires 0 <= i < |xs| => ToJavaByte(xs[i]))
  }

  /** `stringToBytes`: appends one, two or three bytes per code unit. */
  method StringToBytes(input: Utf16) returns (bytes: seq<int>)
    ensures bytes == Utf8Encode(input)
  {
    bytes := [];
    for n := 0 to |input|
      invariant bytes == Utf8Encode(input[..n])
    {
      var c := input[n] as int;
      ghost var before := bytes;
      if c < 128 {
        bytes := bytes + [c];
      } else if c > 127 && c < 2048 {
        bytes := bytes + [c / 64 + 192];
        bytes := bytes + [c % 64 + 128];
        assert bytes == before + [c / 64 + 192, c % 64 + 128];
      } else {
        bytes := bytes + [c / 4096 + 224];
        bytes := bytes + [(c / 64) % 64 + 128];
        bytes := bytes + [c % 64 + 128];
        assert bytes == before + [c / 4096 + 224, (c / 64) % 64 + 128, c % 64 + 128];
      }
      assert bytes == before + EncodeUnit(input[n]);
      assert input[..n + 1] == input[..n] + [input[n]];
      Utf8EncodeAppend(input[..n], input[n]);
    }
    assert input[..|input|] == input;
  }

  // ---------------------------------------------------------------- text records

  /** The language code of a Text record: `languageCode || 'en'`. */
  function LanguageOf(t: TextRecord): Utf16 {
    if t.languageCode.None? || t.languageCode.value == [] then Ascii("en") else t.languageCode.value
  }

  function IdOf(id: Option<seq<int>>): seq<int> {
    if id.None? then [] else id.value
  }

  /** The record `jsonToNdefRecords` builds for a Text record. */
  function TextRecordFor(t: TextRecord): NdefRecord {
    var lang := LanguageOf(t);
    NdefRecord(TNF_WELL_KNOWN, [0x54], JavaBytes(IdOf(t.id)), JavaBytes([|lang|] + Utf8Encode(lang + t.text)))
  }

  // ---------------------------------------------------------------- URI records

  predicate StartsWith(s: Utf16, p: Utf16) {
    |p| <= |s| && s[..|p|] == p
  }

  /** A prefix JavaScript treats as false: undefined or the empty string. */
  predicate Falsy(prefix: Option<Utf16>) {
    prefix.None? || prefix.value == []
  }

  /** One turn of the `forEach` that chooses the prefix. */
  function PrefixStep(prefix: Option<Utf16>, protocol: Utf16, uri: Utf16): Option<Utf16> {
    if (Falsy(prefix) || prefix == Some(Ascii("urn:"))) && StartsWith(uri, protocol) then Some(protocol) else prefix
  }

  /** The prefix after the `forEach` has visited all of `candidates`, in order. */
  function PrefixAfter(candidates: seq<Utf16>, uri: Utf16): Option<Utf16> {
    if candidates == [] then None
    else PrefixStep(PrefixAfter(candidates[..|candidates| - 1], uri), candidates[|candidates| - 1], uri)
  }

  /** The chosen prefix over `NfcUriProtocols.slice(1)`, '' when none is set. */
  function UriPrefix(protocols: seq<Utf16>, uri: Utf16): Utf16 {
    var p := PrefixAfter(if protocols == [] then [] else protocols[1..], uri);
    if Falsy(p) then [] else p.value
  }

  /** `Array.prototype.indexOf`: the first position of `x`, or -1. */
  function IndexOf(xs: seq<Utf16>, x: Utf16): (i: int)
    ensures -1 <= i < |xs|
    ensures i >= 0 ==> xs[i] == x && forall k :: 0 <= k < i ==> xs[k] != x
    ensures i == -1 ==> x !in xs
  {
    if xs == [] then -1
    else if xs[0] == x then 0
    else var j := IndexOf(xs[1..], x); if j < 0 then -1 else j + 1
  }

  /** `uri.slice(k)`. */
  function Drop(s: Utf16, k: nat): Utf16 {
    if k <= |s| then s[k..] else []
  }

  /** The record `jsonToNdefRecords` builds for a URI record. */
  function UriRecordFor(u: UriRecord, protocols: seq<Utf16>): NdefRecord {
    var prefix := UriPrefix(protocols, u.uri);
    NdefRecord(TNF_WELL_KNOWN, [0x55], JavaBytes(IdOf(u.id)),
               JavaBytes([IndexOf(protocols, prefix)] + Utf8Encode(Drop(u.uri, |prefix|))))
  }

  function TextRecordsFor(ts: seq<TextRecord>): (r: seq<NdefRecord>)
    ensures |r| == |ts| && forall i :: 0 <= i < |ts| ==> r[i] == TextRecordFor(ts[i])
  {
    seq(|ts|, i requires 0 <= i < |ts| => TextRecordFor(ts[i]))
  }

  function UriRecordsFor(us: seq<UriRecord>, protocols: seq<Utf16>): (r: seq<NdefRecord>)
    ensures |r| == |us| && forall i :: 0 <= i < |us| ==> r[i] == UriRecordFor(us[i], protocols)
  {
    seq(|us|, i requires 0 <= i < |us| => UriRecordFor(us[i], protocols))
  }

  function Listed<T>(xs: Option<seq<T>>): seq<T> {
    if xs.None? then [] else xs.value
  }

  /** The records of a `WriteTagOptions`: Text records first, then URI records, each group in input order. */
  function RecordsFor(input: WriteTagOptions, protocols: seq<Utf16>): seq<NdefRecord> {
    TextRecordsFor(Listed(input.textRecords)) + UriRecordsFor(Listed(input.uriRecords), protocols)
  }

  /** Copies numbers into a fresh Java byte array. */
  method CopyToByteArray(values: seq<int>) returns (a: array<sbyte>)
    ensures fresh(a) && a[..] == JavaBytes(values)
  {
    a := new sbyte[|values|];
    for j := 0 to |values|
      invariant forall k :: 0 <= k < j ==> a[k] == ToJavaByte(values[k])
    {
      a[j] := ToJavaByte(values[j]);
    }
  }

  /** The body of the first loop of `jsonToNdefRecords`, for one Text record. */
  method BuildTextRecord(textRecord: TextRecord) returns (r: NdefRecord)
    ensures r == TextRecordFor(textRecord)
  {
    var langCode := LanguageOf(textRecord);
    var encoded := StringToBytes(langCode + textRecord.text);
    encoded := [|langCode|] + encoded;
    var id := CopyToByteArray(IdOf(textRecord.id));
    var payload := CopyToByteArray(encoded);
    r := NdefRecord(TNF_WELL_KNOWN, [0x54], id[..], payload[..]);
  }

  /** The `forEach` over `NfcUriProtocols.slice(1)` that chooses a URI's prefix. */
  method ChoosePrefix(protocols: seq<Utf16>, uri: Utf16) returns (chosen: Utf16)
    ensures chosen == UriPrefix(protocols, uri)
  {
    var candidates := if protocols == [] then [] else protocols[1..];
    var prefix: Option<Utf16> := None;
    for j := 0 to |candidates|
      invariant prefix == PrefixAfter(candidates[..j], uri)
    {
      assert candidates[..j + 1][..j] == candidates[..j];
      if (Falsy(prefix) || prefix == Some(Ascii("urn:"))) && StartsWith(uri, candidates[j]) {
        prefix := Some(candidates[j]);
      }
    }
    assert candidates[..|candidates|] == candidates;
    chosen := if Falsy(prefix) then [] else prefix.value;
  }

  /** The body of the second loop of `jsonToNdefRecords`, for one URI record. */
  method BuildUriRecord(uriRecord: UriRecord, protocols: seq<Utf16>) returns (r: NdefRecord)
    ensures r == UriRecordFor(uriRecord, protocols)
  {
    var prefix := ChoosePrefix(protocols, uriRecord.uri);
    var encoded := StringToBytes(Drop(uriRecord.uri, |prefix|));
    encoded := [IndexOf(protocols, prefix)] + encoded;
    var id := CopyToByteArray(IdOf(uriRecord.id));
    var payload := CopyToByteArray(encoded);
    r := NdefRecord(TNF_WELL_KNOWN, [0x55], id[..], payload[..]);
  }

  /** `jsonToNdefRecords`: fills an array of exactly as many records as there are inputs. */
  method JsonToNdefRecords(input: WriteTagOptions, protocols: seq<Utf16>) returns (records: array<NdefRecord>)
    ensures fresh(records)
    ensures records[..] == RecordsFor(input, protocols)
  {
    var texts := Listed(input.textRecords);
    var uris := Listed(input.uriRecords);
    records := new NdefRecord[|texts| + |uris|];
    FillTextRecords(records, texts);
    FillUriRecords(records, texts, uris, protocols);
  }

  /** The first loop of `jsonToNdefRecords`: one Text record per input, from index 0. */
  method FillTextRecords(records: array<NdefRecord>, texts: seq<TextRecord>)
    requires |texts| <= records.Length
    modifies records
    ensures records[..|texts|] == TextRecordsFor(texts)
    ensures records[|texts|..] == old(records[|texts|..])
  {
    ghost var want := TextRecordsFor(texts);
    for i := 0 to |texts|
      invariant forall k :: 0 <= k < i ==> records[k] == want[k]
      invariant records[|texts|..] == old(records[|texts|..])
    {
      var r := BuildTextRecord(texts[i]);
      records[i] := r;
    }
    assert records[..|texts|] == want;
  }

  /** The second loop of `jsonToNdefRecords`: one URI record per input, after the Text records. */
  method FillUriRecords(records: array<NdefRecord>, texts: seq<TextRecord>, uris: seq<UriRecord>, protocols: seq<Utf16>)
    requires records.Length == |texts| + |uris| && records[..|texts|] == TextRecordsFor(texts)
    modifies records
    ensures records[..] == TextRecordsFor(texts) + UriRecordsFor(uris, protocols)
  {
    ghost var want := TextRecordsFor(texts) + UriRecordsFor(uris, protocols);
    var recordCounter := |texts|;
    for i := 0 to |uris|
      invariant recordCounter == |texts| + i
      invariant forall k :: 0 <= k < |texts| + i ==> records[k] == want[k]
    {
      var r := BuildUriRecord(uris[i], protocols);
      records[recordCounter] := r;
      recordCounter := recordCounter + 1;
    }
    assert records[..] == want;
  }

  /** The count and the order of the records: text records, then URI records. */
  lemma RecordsLayout(input: WriteTagOptions, protocols: seq<Utf16>)
    ensures var rs := RecordsFor(input, protocols);
      var nt := |Listed(input.textRecords)|;
      && |rs| == nt + |Listed(input.uriRecords)|
      && (forall i :: 0 <= i < nt ==> rs[i].recordType == [0x54] && rs[i] == TextRecordFor(input.textRecords.value[i]))
      && (forall i :: nt <= i < |rs| ==>
            rs[i].recordType == [0x55] && rs[i] == UriRecordFor(input.uriRecords.value[i - nt], protocols))
  {}

  /** A Text record's payload is the length of its language code, then the UTF-8 of code and text. */
  lemma TextRecordLayout(t: TextRecord)
    requires |LanguageOf(t)| < 128
    ensures var r := TextRecordFor(t);
      && r.recordType == [0x54] && r.tnf == TNF_WELL_KNOWN
      && Ints(r.id) == seq(|IdOf(t.id)|, i requires 0 <= i < |IdOf(t.id)| => ToJavaByte(IdOf(t.id)[i]) as int)
      && r.payload[0] as int == |LanguageOf(t)|
      && Ints(r.payload[1..]) == seq(|Utf8Encode(LanguageOf(t) + t.text)|,
           i requires 0 <= i < |Utf8Encode(LanguageOf(t) + t.text)| => ToJavaByte(Utf8Encode(LanguageOf(t) + t.text)[i]) as int)
      && (t.languageCode.None? ==> LanguageOf(t) == Ascii("en"))
  {}

  // ---------------------------------------------------------------- prefix choice

  lemma {:induction false} PrefixAfterIsCandidate(candidates: seq<Utf16>, uri: Utf16)
    ensures var p := PrefixAfter(candidates, uri); p.Some? ==> p.value in candidates && StartsWith(uri, p.value)
  {
    if candidates != [] {
      PrefixAfterIsCandidate(candidates[..|candidates| - 1], uri);
    }
  }

  /** A chosen prefix is a listed protocol (after the first) that starts the URI. */
  lemma UriPrefixIsListedPrefix(protocols: seq<Utf16>, uri: Utf16)
    ensures var p := UriPrefix(protocols, uri);
      p == [] || (p in protocols[1..] && StartsWith(uri, p))
  {
    PrefixAfterIsCandidate(if protocols == [] then [] else protocols[1..], uri);
  }

  lemma {:induction false} FalsyBeforeMatch(candidates: seq<Utf16>, uri: Utf16, j: nat)
    requires j <= |candidates|
    requires forall i :: 0 <= i < j ==> candidates[i] == [] || !StartsWith(uri, candidates[i])
    ensures Falsy(PrefixAfter(candidates[..j], uri))
  {
    if j > 0 {
      assert candidates[..j][..j - 1] == candidates[..j - 1];
      FalsyBeforeMatch(candidates, uri, j - 1);
    }
  }

  lemma {:induction false} PrefixSticks(candidates: seq<Utf16>, uri: Utf16, k: nat, j: nat)
    requires k < j <= |candidates|
    requires var p := PrefixAfter(candidates[..k + 1], uri); p.Some? && p.value != [] && p.value != Ascii("urn:")
    ensures PrefixAfter(candidates[..j], uri) == PrefixAfter(candidates[..k + 1], uri)
  {
    if j > k + 1 {
      assert candidates[..j][..j - 1] == candidates[..j - 1];
      PrefixSticks(candidates, uri, k, j - 1);
    }
  }

  /**
   * The first non-empty listed protocol that starts the URI is chosen,
   * unless it is 'urn:' (which a later match may replace).
   */
  lemma FirstMatchChosen(protocols: seq<Utf16>, uri: Utf16, k: nat)
    requires 1 <= k < |protocols|
    requires protocols[k] != [] && StartsWith(uri, protocols[k]) && protocols[k] != Ascii("urn:")
    requires forall i :: 1 <= i < k ==> protocols[i] == [] || !StartsWith(uri, protocols[i])
    ensures UriPrefix(protocols, uri) == protocols[k]
  {
    var cs := protocols[1..];
    FalsyBeforeMatch(cs, uri, k - 1);
    assert cs[..k][..k - 1] == cs[..k - 1];
    assert PrefixAfter(cs[..k], uri) == Some(protocols[k]);
    PrefixSticks(cs, uri, k - 1, |cs|);
    assert cs[..|cs|] == cs;
  }

  /** With no listed protocol (after the first) starting the URI, the prefix is ''. */
  lemma NoMatchNoPrefix(protocols: seq<Utf16>, uri: Utf16)
    requires forall i :: 1 <= i < |protocols| ==> protocols[i] == [] || !StartsWith(uri, protocols[i])
    ensures UriPrefix(protocols, uri) == []
  {
    if protocols != [] {
      var cs := protocols[1..];
      FalsyBeforeMatch(cs, uri, |cs|);
      assert cs[..|cs|] == cs;
    }
  }

  // ---------------------------------------------------------------- read back

  lemma JavaBytesDecode(xs: seq<int>)
    ensures Utf8Decode(Ints(JavaBytes(xs))) == Utf8Decode(xs)
  {
    var ys := Ints(JavaBytes(xs));
    assert forall i :: 0 <= i < |xs| ==> Low8(ys[i]) == Low8(xs[i]);
    assert BomMasked(ys) == BomMasked(xs);
    if BomMasked(xs) {
      DecodeLow8(ys[3..], xs[3..]);
    } else {
      DecodeLow8(ys, xs);
    }
  }

  /**
   * A Text record written by `jsonToNdefRecords` and read by `recordToJSON`
   * gives back its text, for a language code shorter than 128 units.
   */
  lemma TextRecordReadsBack(t: TextRecord, protocols: seq<Utf16>)
    requires |LanguageOf(t)| < 128
    ensures var r := NfcIntentHandler.RecordToJson(TextRecordFor(t), protocols);
      r.Ok? && r.value.payloadAsString == t.text
      && r.value.payloadAsStringWithPrefix == [|LanguageOf(t)| as u16] + LanguageOf(t) + t.text
  {
    var lang := LanguageOf(t);
    var xs := [|lang|] + Utf8Encode(lang + t.text);
    JavaBytesDecode(xs);
    DecodeAsciiThenText(|lang|, lang + t.text);
    var full := [|lang| as u16] + (lang + t.text);
    assert full[|lang| + 1..] == t.text;
  }

  /**
   * A URI record written by `jsonToNdefRecords` and read by `recordToJSON`
   * gives back its URI, when the protocol list has at most 128 entries and
   * its entry 0 is the empty prefix.
   */
  lemma UriRecordReadsBack(u: UriRecord, protocols: seq<Utf16>)
    requires 0 < |protocols| <= 128 && protocols[0] == []
    ensures var r := NfcIntentHandler.RecordToJson(UriRecordFor(u, protocols), protocols);
      r.Ok? && r.value.payloadAsString == u.uri
  {
    var p := UriPrefix(protocols, u.uri);
    UriCodeOfPrefix(protocols, u.uri);
    CodedPayloadReadsBack(UriRecordFor(u, protocols), protocols, IndexOf(protocols, p), Drop(u.uri, |p|));
  }

  /** The identifier code of the chosen prefix is below 128, names that prefix, and the prefix and the rest make up the URI. */
  lemma UriCodeOfPrefix(protocols: seq<Utf16>, uri: Utf16)
    requires 0 < |protocols| <= 128 && protocols[0] == []
    ensures var p := UriPrefix(protocols, uri); var idx := IndexOf(protocols, p);
      && 0 <= idx < 128 && idx < |protocols| && protocols[idx] == p
      && p + Drop(uri, |p|) == uri
  {
    var p := UriPrefix(protocols, uri);
    UriPrefixIsListedPrefix(protocols, uri);
    if p == [] {
      assert IndexOf(protocols, p) == 0;
    } else {
      assert p in protocols by {
        var j :| 0 <= j < |protocols[1..]| && protocols[1..][j] == p;
        assert protocols[j + 1] == p;
      }
      assert uri[..|p|] == p;
    }
    assert uri == uri[..|p|] + uri[|p|..];
  }

  /** A URI record whose payload is an ASCII code followed by encoded text reads as that code's protocol and the text. */
  lemma CodedPayloadReadsBack(record: NdefRecord, protocols: seq<Utf16>, idx: int, rest: Utf16)
    requires 0 <= idx < 128 && idx < |protocols|
    requires record.recordType == [0x55] && record.payload == JavaBytes([idx] + Utf8Encode(rest))
    ensures var r := NfcIntentHandler.RecordToJson(record, protocols);
      r.Ok? && r.value.payloadAsString == protocols[idx] + rest
  {
    var xs := [idx] + Utf8Encode(rest);
    JavaBytesDecode(xs);
    DecodeAsciiThenText(idx, rest);
    assert Utf8Decode(Ints(record.payload)) == Ok([idx as u16] + rest);
    assert record.payload[0] as int == idx by {
      assert ToJavaByte(idx) as int == idx;
    }
    NfcIntentHandler.UriRecordPrefixes(record, protocols);
    assert SliceFromOne([idx as u16] + rest) == rest;
  }

  // ---------------------------------------------------------------- writing

  /** What the tag offers: an Ndef technology, or else whether it is NDEF-formatable. */
  datatype NdefTech = NdefTech(writable: bool, maxSize: int)

  datatype TagTech = TagTech(ndef: Option<NdefTech>, formatable: bool)

  /** The tag operations `writeNdefMessage` performs, in order. */
  datatype TagOp = Connect | Format | Write | Close

  /**
   * How `writeNdefMessage` ends: null (`Done`), one of its error strings,
   * or an exception thrown by a tag operation it does not guard, which
   * `writeTag` passes on to `reject`.
   */
  datatype WriteOutcome = Done | Refused(message: string) | Threw(op: TagOp)

  /**
   * Running unguarded `steps` on a tag whose `failing` operations throw:
   * the operations performed are the steps up to and including the first
   * one that throws; the run is `Done` exactly when none of the steps
   * throws, and otherwise ends with that operation's exception.
   */
  predicate RunsUntilThrow(steps: seq<TagOp>, failing: set<TagOp>, ops: seq<TagOp>, outcome: WriteOutcome) {
    && |ops| <= |steps| && ops == steps[..|ops|]
    && (forall k :: 0 <= k < |ops| - 1 ==> ops[k] !in failing)
    && (outcome.Done? || outcome.Threw?)
    && (outcome.Done? <==> ops == steps && forall k :: 0 <= k < |steps| ==> steps[k] !in failing)
    && (outcome.Threw? ==> ops != [] && ops[|ops| - 1] in failing && outcome.op == ops[|ops| - 1])
  }

  /** The run that stops at step i, the first that throws. */
  lemma ThrowsAt(steps: seq<TagOp>, failing: set<TagOp>, i: nat)
    requires i < |steps| && steps[i] in failing
    requires forall k :: 0 <= k < i ==> steps[k] !in failing
    ensures RunsUntilThrow(steps, failing, steps[..i + 1], Threw(steps[i]))
  {
    assert steps[..i + 1][i] == steps[i];
  }

  /** The run in which no step throws. */
  lemma RunsThrough(steps: seq<TagOp>, failing: set<TagOp>)
    requires forall k :: 0 <= k < |steps| ==> steps[k] !in failing
    ensures RunsUntilThrow(steps, failing, steps, Done)
  {
    assert steps[..|steps|] == steps;
  }

  /** The message `writeNdefMessage` returns for a message over the tag's capacity. */
  function TooLong(maxSize: int, size: nat): string {
    "Message too long; tag capacity is " + Decimal.IntToString(maxSize)
      + " bytes, message is " + Decimal.IntToString(size) + " bytes"
  }

  /**
   * `writeNdefMessage` on a tag whose `failing` operations throw. Only the
   * Ndef connection is guarded (its exception becomes 'connection failed');
   * an exception from connect, format or close of a formatable tag, or from
   * writing or closing an Ndef tag, escapes and ends the call.
   */
  method WriteNdefMessage(tag: TagTech, size: nat, failing: set<TagOp>) returns (outcome: WriteOutcome, ops: seq<TagOp>)
    ensures tag.ndef.None? && !tag.formatable ==> outcome == Refused("Tag doesn't support NDEF") && ops == []
    ensures tag.ndef.None? && tag.formatable ==> RunsUntilThrow([Connect, Format, Close], failing, ops, outcome)
    ensures tag.ndef.Some? && Connect in failing ==> outcome == Refused("connection failed") && ops == [Connect]
    ensures tag.ndef.Some? && Connect !in failing && !tag.ndef.value.writable ==>
      outcome == Refused("Tag not writable") && ops == [Connect]
    ensures tag.ndef.Some? && Connect !in failing && tag.ndef.value.writable && tag.ndef.value.maxSize < size ==>
      outcome == Refused(TooLong(tag.ndef.value.maxSize, size)) && ops == [Connect]
    ensures tag.ndef.Some? && Connect !in failing && tag.ndef.value.writable && size <= tag.ndef.value.maxSize ==>
      ops != [] && ops[0] == Connect && RunsUntilThrow([Write, Close], failing, ops[1..], outcome)
    ensures outcome.Done? <==>
      (tag.ndef.None? && tag.formatable && Connect !in failing && Format !in failing && Close !in failing)
      || (tag.ndef.Some? && Connect !in failing && tag.ndef.value.writable && size <= tag.ndef.value.maxSize
          && Write !in failing && Close !in failing)
  {
    ops := [];
    if tag.ndef.None? {
      if !tag.formatable {
        return Refused("Tag doesn't support NDEF"), ops;
      }
      var steps := [Connect, Format, Close];
      ops := ops + [Connect];
      if Connect in failing {
        ThrowsAt(steps, failing, 0);
        assert ops == steps[..1];
        return Threw(Connect), ops;
      }
      ops := ops + [Format];
      if Format in failing {
        ThrowsAt(steps, failing, 1);
        assert ops == steps[..2];
        return Threw(Format), ops;
      }
      ops := ops + [Close];
      if Close in failing {
        ThrowsAt(steps, failing, 2);
        assert ops == steps[..3];
        return Threw(Close), ops;
      }
      RunsThrough(steps, failing);
      return Done, ops;
    }
    var ndef := tag.ndef.value;
    ops := ops + [Connect];
    if Connect in failing {
      return Refused("connection failed"), ops;
    }
    if !ndef.writable {
      return Refused("Tag not writable"), ops;
    }
    var maxSize := ndef.maxSize;
    if maxSize < size {
      return Refused(TooLong(maxSize, size)), ops;
    }
    var steps := [Write, Close];
    ops := ops + [Write];
    if Write in failing {
      ThrowsAt(steps, failing, 0);
      assert ops[1..] == steps[..1];
      return Threw(Write), ops;
    }
    ops := ops + [Close];
    if Close in failing {
      ThrowsAt(steps, failing, 1);
      assert ops[1..] == steps[..2];
      return Threw(Close), ops;
    }
    RunsThrough(steps, failing);
    assert ops[1..] == steps;
    outcome := Done;
  }
}
