/**
 * The platform-independent part of the HTTP plugin: request bodies and
 * their constructors, header iteration, the one-line-per-item summaries
 * logged for headers and bodies, and the classification of response
 * status codes into errors.
 */
module HttpCommon {

  import opened Optional
  import Decimal

  // ---------------------------------------------------------------- bodies

  /** The multipart media types a multipart body may declare. */
  datatype MultipartType = Alternative | Mixed | Digest | Parallel | FormData {
    function Text(): string {
      match this
      case Alternative => "multipart/alternative"
      case Mixed => "multipart/mixed"
      case Digest => "multipart/digest"
      case Parallel => "multipart/parallel"
      case FormData => "multipart/form-data"
    }
  }

  /** A header value: one string or an array of strings. */
  datatype HeaderValue = Single(value: string) | Many(values: seq<string>)

  /** Headers in the order `Object.entries` lists them. */
  type Headers = seq<(string, HeaderValue)>

  /**
   * A request body. A JSON body carries the text `JSON.stringify` makes of
   * its value; a bytes body its byte values.
   */
  datatype Body =
    | FileBody(fileName: string, mediaType: string)
    | TextBody(text: string, mediaType: string)
    | JsonBody(json: string, mediaType: string)
    | BytesBody(bytes: seq<int>, mediaType: string)
    | MultipartBody(parts: seq<Part>, multipartType: MultipartType)

  /** A multipart part, built by `formValuePart`, `formFilePart` and `part`. */
  datatype Part =
    | FormValue(name: string, value: string)
    | FormFile(name: string, fileName: string, body: Body)
    | GenericPart(name: string, body: Body, headers: Option<Headers>)

  const OCTET_STREAM := "application/octet-stream"

  /** `fileBody`; an absent media type defaults to 'application/octet-stream'. */
  function MakeFileBody(fileName: string, mediaType: Option<string>): (b: Body)
    ensures b.FileBody? && b.fileName == fileName
    ensures b.mediaType == if mediaType.Some? then mediaType.value else OCTET_STREAM
  {
    FileBody(fileName, mediaType.GetOr(OCTET_STREAM))
  }

  /** `textBody`; an absent media type defaults to 'text/plain'. */
  function MakeTextBody(text: string, mediaType: Option<string>): (b: Body)
    ensures b.TextBody? && b.text == text
    ensures b.mediaType == if mediaType.Some? then mediaType.value else "text/plain"
  {
    TextBody(text, mediaType.GetOr("text/plain"))
  }

  /** `jsonBody`; an absent media type defaults to 'application/json'. */
  function MakeJsonBody(json: string, mediaType: Option<string>): (b: Body)
    ensures b.JsonBody? && b.json == json
    ensures b.mediaType == if mediaType.Some? then mediaType.value else "application/json"
  {
    JsonBody(json, mediaType.GetOr("application/json"))
  }

  /** `bytesBody`; an absent media type defaults to 'application/octet-stream'. */
  function MakeBytesBody(bytes: seq<int>, mediaType: Option<string>): (b: Body)
    ensures b.BytesBody? && b.bytes == bytes
    ensures b.mediaType == if mediaType.Some? then mediaType.value else OCTET_STREAM
  {
    BytesBody(bytes, mediaType.GetOr(OCTET_STREAM))
  }

  /** `multiPartBody`; an absent media type defaults to 'multipart/form-data'. */
  function MakeMultiPartBody(parts: seq<Part>, mediaType: Option<MultipartType>): (b: Body)
    ensures b.MultipartBody? && b.parts == parts
    ensures b.multipartType.Text() == if mediaType.Some? then mediaType.value.Text() else "multipart/form-data"
  {
    MultipartBody(parts, mediaType.GetOr(FormData))
  }

  /** The media type a body reports. */
  function MediaType(b: Body): string {
    if b.MultipartBody? then b.multipartType.Text() else b.mediaType
  }

  // ---------------------------------------------------------------- headers

  /** The (name, value) pairs `loopHeaders` passes to its callback, in order. */
  function Emitted(headers: Headers): seq<(string, string)> {
    if headers == [] then []
    else
      var (key, value) := headers[0];
      (match value
       case Single(v) => [(key, v)]
       case Many(vs) => seq(|vs|, i requires 0 <= i < |vs| => (key, vs[i])))
      + Emitted(headers[1..])
  }

  function ValueCount(v: HeaderValue): nat {
    if v.Single? then 1 else |v.values|
  }

  function TotalCount(headers: Headers): nat {
    if headers == [] then 0 else ValueCount(headers[0].1) + TotalCount(headers[1..])
  }

  /** `loopHeaders`: one callback per string value and one per array element. */
  method LoopHeaders(headers: Headers) returns (calls: seq<(string, string)>)
    ensures calls == Emitted(headers)
  {
    calls := [];
    for e := 0 to |headers|
      invariant calls + Emitted(headers[e..]) == Emitted(headers)
    {
      var (key, value) := headers[e];
      assert headers[e..][1..] == headers[e + 1..];
      if value.Single? {
        calls := calls + [(key, value.value)];
      } else {
        var before := calls;
        for k := 0 to |value.values|
          invariant calls == before + seq(k, i requires 0 <= i < k => (key, value.values[i]))
        {
          calls := calls + [(key, value.values[k])];
        }
      }
    }
    assert headers[|headers|..] == [];
  }

  /** The pairs of two runs of headers, one after the other. */
  lemma {:induction false} EmittedAppend(a: Headers, b: Headers)
    ensures Emitted(a + b) == Emitted(a) + Emitted(b)
  {
    if a != [] {
      assert (a + b)[0] == a[0] && (a + b)[1..] == a[1..] + b;
      EmittedAppend(a[1..], b);
    } else {
      assert a + b == b;
    }
  }

  /** One call per value: the number of pairs is the number of values. */
  lemma {:induction false} EmittedCount(headers: Headers)
    ensures |Emitted(headers)| == TotalCount(headers)
  {
    if headers != [] {
      EmittedCount(headers[1..]);
    }
  }

  /** Every pair names its header and holds one of its values, in element order. */
  lemma EmittedEntry(key: string, value: HeaderValue)
    ensures value.Single? ==> Emitted([(key, value)]) == [(key, value.value)]
    ensures value.Many? ==>
      |Emitted([(key, value)])| == |value.values| && forall i :: 0 <= i < |value.values| ==> Emitted([(key, value)])[i] == (key, value.values[i])
  {
    assert [(key, value)][1..] == [];
  }

  // ---------------------------------------------------------------- line summaries

  /** `s.slice(0, n)`. */
  function Take(s: string, n: nat): (r: string)
    ensures |r| <= n && r == s[..if |s| < n then |s| else n]
  {
    if |s| <= n then s else s[..n]
  }

  /** The closure `append` of the summaries: a newline before every line but the first. */
  function AppendLine(result: string, line: string): string {
    (if |result| > 0 then result + "\n" else result) + line
  }

  function AppendAll(result: string, lines: seq<string>): string
    decreases |lines|
  {
    if lines == [] then result else AppendAll(AppendLine(result, lines[0]), lines[1..])
  }

  /** The lines joined by newlines. */
  function JoinLines(lines: seq<string>): string {
    if lines == [] then "" else if |lines| == 1 then lines[0] else lines[0] + "\n" + JoinLines(lines[1..])
  }

  lemma {:induction false} AppendAllConcat(result: string, a: seq<string>, b: seq<string>)
    ensures AppendAll(result, a + b) == AppendAll(AppendAll(result, a), b)
    decreases |a|
  {
    if a == [] {
      assert a + b == b;
    } else {
      assert (a + b)[0] == a[0] && (a + b)[1..] == a[1..] + b;
      AppendAllConcat(AppendLine(result, a[0]), a[1..], b);
    }
  }

  predicate NonEmptyLines(lines: seq<string>) {
    forall i :: 0 <= i < |lines| ==> lines[i] != ""
  }

  lemma {:induction false} AppendAllNonEmpty(result: string, lines: seq<string>)
    requires result != [] && NonEmptyLines(lines)
    ensures AppendAll(result, lines) == result + (if lines == [] then "" else "\n" + JoinLines(lines))
    decreases |lines|
  {
    if lines != [] {
      AppendAllNonEmpty(AppendLine(result, lines[0]), lines[1..]);
      if |lines| > 1 {
        assert result + "\n" + lines[0] + ("\n" + JoinLines(lines[1..]))
          == result + ("\n" + (lines[0] + "\n" + JoinLines(lines[1..])));
      }
    }
  }

  /** From an empty result, appending non-empty lines joins them with newlines. */
  lemma AppendAllJoins(lines: seq<string>)
    requires NonEmptyLines(lines)
    ensures AppendAll("", lines) == JoinLines(lines)
  {
    if lines != [] {
      assert AppendLine("", lines[0]) == lines[0];
      AppendAllNonEmpty(lines[0], lines[1..]);
    }
  }

  /** The line `printHeaders` appends for one pair, indentation included. */
  function HeaderLine(indentation: string, pair: (string, string)): string {
    indentation + pair.0 + ": " + Take(pair.1, 60)
  }

  function HeaderLines(indentation: string, pairs: seq<(string, string)>): (r: seq<string>)
    ensures |r| == |pairs| && NonEmptyLines(r)
    ensures forall i :: 0 <= i < |pairs| ==> r[i] == HeaderLine(indentation, pairs[i])
  {
    seq(|pairs|, i requires 0 <= i < |pairs| => HeaderLine(indentation, pairs[i]))
  }

  /** `printHeaders`: 'NO HEADERS' for null headers or when no line was appended. */
  method PrintHeaders(headers: Option<Headers>, indentation: string) returns (r: string)
    ensures headers.None? ==> r == "NO HEADERS"
    ensures headers.Some? && Emitted(headers.value) == [] ==> r == "NO HEADERS"
    ensures headers.Some? && Emitted(headers.value) != [] ==>
      r == JoinLines(HeaderLines(indentation, Emitted(headers.value)))
  {
    if headers.None? {
      return "NO HEADERS";
    }
    var pairs := LoopHeaders(headers.value);
    var result := "";
    for k := 0 to |pairs|
      invariant result == AppendAll("", HeaderLines(indentation, pairs[..k]))
    {
      assert HeaderLines(indentation, pairs[..k + 1]) == HeaderLines(indentation, pairs[..k]) + [HeaderLine(indentation, pairs[k])];
      AppendAllConcat("", HeaderLines(indentation, pairs[..k]), [HeaderLine(indentation, pairs[k])]);
      result := AppendLine(result, HeaderLine(indentation, pairs[k]));
    }
    assert pairs[..|pairs|] == pairs;
    AppendAllJoins(HeaderLines(indentation, pairs));
    r := if result == "" then "NO HEADERS" else result;
  }

  const STEP := "    "

  /** The line `printContentSummary` appends for a body itself. */
  function BodyHeader(b: Body): string {
    match b
    case BytesBody(bytes, mediaType) => "BYTES: " + mediaType + " with " + Decimal.NatToString(|bytes|) + " bytes"
    case TextBody(text, mediaType) =>
      "TEXT: " + mediaType + " \"" + Take(text, 60) + "\" [" + Decimal.NatToString(|text|) + " chars]"
    case FileBody(fileName, mediaType) => "FILE: " + mediaType + " from " + fileName
    case JsonBody(json, _) => "JSON: " + Take(json, 60) + " [" + Decimal.NatToString(|json|) + " chars]"
    case MultipartBody(parts, multipartType) =>
      "MULTIPART: " + multipartType.Text() + " with " + Decimal.NatToString(|parts|) + " parts"
  }

  /** The line `printContentSummary` appends for a part itself; a generic part shows neither name nor headers. */
  function PartHeader(p: Part): string {
    match p
    case FormValue(name, value) => "FORM-VALUE: " + name + " = " + Take(value, 60)
    case FormFile(name, fileName, _) => "FORM-FILE: " + name + " [" + fileName + "] with body:"
    case GenericPart(_, _, _) => "PART: "
  }

  /** The lines `printContentSummary` appends for a body printed at `indentation`. */
  function BodyLines(b: Body, indentation: string): seq<string>
    decreases b
  {
    [indentation + BodyHeader(b)] + (if b.MultipartBody? then PartsLines(b.parts, indentation + STEP) else [])
  }

  /** The lines of a run of parts, in order. */
  function PartsLines(parts: seq<Part>, indentation: string): seq<string>
    decreases parts
  {
    if parts == [] then [] else PartLines(parts[0], indentation) + PartsLines(parts[1..], indentation)
  }

  /** The lines of one part: its own line, then the lines of its body four spaces deeper. */
  function PartLines(p: Part, indentation: string): seq<string>
    decreases p
  {
    [indentation + PartHeader(p)] + (if p.FormValue? then [] else BodyLines(p.body, indentation + STEP))
  }

  /** What `printContentSummary` returns. */
  function Summary(body: Option<Body>): string {
    if body.None? then "NO BODY"
    else
      var r := AppendAll("", BodyLines(body.value, ""));
      if r == "" then "NO BODY" else r
  }

  /** `indentation.substring(0, indentation.length - 4)`. */
  function UnIndented(s: string): string {
    if |s| >= 4 then s[..|s| - 4] else ""
  }

  lemma AppendAllOne(result: string, line: string, rest: seq<string>)
    ensures AppendAll(result, [line] + rest) == AppendAll(AppendLine(result, line), rest)
  {
    assert ([line] + rest)[0] == line && ([line] + rest)[1..] == rest;
  }

  lemma {:induction false} PartsLinesSnoc(parts: seq<Part>, i: nat, indentation: string)
    requires i < |parts|
    ensures PartsLines(parts[..i + 1], indentation) == PartsLines(parts[..i], indentation) + PartLines(parts[i], indentation)
    decreases i
  {
    if i == 0 {
      assert parts[..1][1..] == [];
    } else {
      var tail := parts[1..];
      assert parts[..i + 1][0] == parts[0] && parts[..i + 1][1..] == tail[..i];
      assert parts[..i][0] == parts[0] && parts[..i][1..] == tail[..i - 1];
      assert tail[i - 1] == parts[i];
      PartsLinesSnoc(tail, i - 1, indentation);
      LinesAssoc(PartLines(parts[0], indentation), PartsLines(tail[..i - 1], indentation), PartLines(parts[i], indentation));
    }
  }

  lemma LinesAssoc(a: seq<string>, b: seq<string>, c: seq<string>)
    ensures a + (b + c) == (a + b) + c
  {}

  /**
   * The state `printContentSummary` keeps while it walks a body: the text
   * appended so far and the current indentation.
   */
  class SummaryPrinter {
    var result: string
    var indentation: string

    constructor ()
      ensures result == "" && indentation == ""
    {
      result := "";
      indentation := "";
    }

    method Append(line: string)
      modifies this
      ensures result == AppendLine(old(result), old(indentation) + line)
      ensures indentation == old(indentation)
    {
      if |result| > 0 {
        result := result + "\n";
      }
      result := result + indentation;
      result := result + line;
    }

    method Indent()
      modifies this
      ensures indentation == old(indentation) + STEP && result == old(result)
    {
      indentation := indentation + STEP;
    }

    method UnIndent()
      modifies this
      ensures indentation == UnIndented(old(indentation)) && result == old(result)
    {
      indentation := if |indentation| >= 4 then indentation[..|indentation| - 4] else "";
    }

    /** `loop`: appends the lines of `b` and leaves the indentation as it found it. */
    method Loop(b: Body)
      modifies this
      ensures result == AppendAll(old(result), BodyLines(b, old(indentation)))
      ensures indentation == old(indentation)
      decreases b
    {
      var ind := indentation;
      var start := result;
      Append(BodyHeader(b));
      AppendAllOne(start, ind + BodyHeader(b), if b.MultipartBody? then PartsLines(b.parts, ind + STEP) else []);
      if b.MultipartBody? {
        Indent();
        LoopParts(b.parts);
        UnIndent();
        assert UnIndented(ind + STEP) == ind;
      } else {
        assert AppendAll(result, []) == result;
      }
    }

    /** The `for` loop of the multipart case: each part in order, at the current indentation. */
    method LoopParts(parts: seq<Part>)
      modifies this
      ensures result == AppendAll(old(result), PartsLines(parts, old(indentation)))
      ensures indentation == old(indentation)
      decreases parts
    {
      var ind := indentation;
      var start := result;
      for i := 0 to |parts|
        invariant indentation == ind
        invariant result == AppendAll(start, PartsLines(parts[..i], ind))
      {
        assert parts[i] in parts;
        PartsLinesSnoc(parts, i, ind);
        AppendAllConcat(start, PartsLines(parts[..i], ind), PartLines(parts[i], ind));
        LoopPart(parts[i]);
      }
      assert parts[..|parts|] == parts;
    }

    /** `loopPart`: appends the lines of `p`; a generic part's headers are printed into a discarded string. */
    method LoopPart(p: Part)
      modifies this
      ensures result == AppendAll(old(result), PartLines(p, old(indentation)))
      ensures indentation == old(indentation)
      decreases p
    {
      var ind := indentation;
      var start := result;
      Append(PartHeader(p));
      AppendAllOne(start, ind + PartHeader(p), if p.FormValue? then [] else BodyLines(p.body, ind + STEP));
      match p
      case FormValue(_, _) =>
        assert AppendAll(result, []) == result;
      case FormFile(_, _, body) =>
        Indent();
        Loop(body);
        UnIndent();
        assert UnIndented(ind + STEP) == ind;
      case GenericPart(_, body, headers) =>
        Indent();
        var _ := PrintHeaders(headers, indentation);
        Loop(body);
        UnIndent();
        assert UnIndented(ind + STEP) == ind;
    }
  }

  /** `printContentSummary`: the lines of the body from no indentation, or 'NO BODY'. */
  method PrintContentSummary(body: Option<Body>) returns (r: string)
    ensures r == Summary(body)
  {
    if body.None? {
      return "NO BODY";
    }
    var printer := new SummaryPrinter();
    printer.Loop(body.value);
    r := if printer.result == "" then "NO BODY" else printer.result;
  }

  // ---------------------------------------------------------------- summary properties

  predicate Indented(lines: seq<string>, indentation: string) {
    forall i :: 0 <= i < |lines| ==> |lines[i]| > |indentation| && lines[i][..|indentation|] == indentation
  }

  lemma DeeperIsIndented(lines: seq<string>, indentation: string)
    requires Indented(lines, indentation + STEP)
    ensures Indented(lines, indentation)
  {
    forall i | 0 <= i < |lines|
      ensures |lines[i]| > |indentation| && lines[i][..|indentation|] == indentation
    {
      assert lines[i][..|indentation|] == lines[i][..|indentation + STEP|][..|indentation|];
    }
  }

  /** Every line of a body printed at `indentation` starts with it and has text after it. */
  lemma {:induction false} BodyLinesIndented(b: Body, indentation: string)
    ensures Indented(BodyLines(b, indentation), indentation)
    decreases b
  {
    var rest := if b.MultipartBody? then PartsLines(b.parts, indentation + STEP) else [];
    if b.MultipartBody? {
      PartsLinesIndented(b.parts, indentation + STEP);
    }
    DeeperIsIndented(rest, indentation);
    assert (indentation + BodyHeader(b))[..|indentation|] == indentation;
    assert |BodyHeader(b)| > 0;
  }

  lemma {:induction false} PartLinesIndented(p: Part, indentation: string)
    ensures Indented(PartLines(p, indentation), indentation)
    decreases p
  {
    var rest := if p.FormValue? then [] else BodyLines(p.body, indentation + STEP);
    if !p.FormValue? {
      BodyLinesIndented(p.body, indentation + STEP);
    }
    DeeperIsIndented(rest, indentation);
    assert (indentation + PartHeader(p))[..|indentation|] == indentation;
    assert |PartHeader(p)| > 0;
  }

  lemma {:induction false} PartsLinesIndented(parts: seq<Part>, indentation: string)
    ensures Indented(PartsLines(parts, indentation), indentation)
    decreases parts
  {
    if parts != [] {
      PartLinesIndented(parts[0], indentation);
      PartsLinesIndented(parts[1..], indentation);
    }
  }

  /** The summary is never empty: 'NO BODY' for a null body, else one line per item joined by newlines. */
  lemma SummaryNeverEmpty(body: Option<Body>)
    ensures Summary(body) != ""
    ensures body.None? ==> Summary(body) == "NO BODY"
    ensures body.Some? ==> Summary(body) == JoinLines(BodyLines(body.value, ""))
  {
    if body.Some? {
      BodyLinesIndented(body.value, "");
      AppendAllJoins(BodyLines(body.value, ""));
      var ls := BodyLines(body.value, "");
      assert JoinLines(ls) != "" by {
        if |ls| > 1 { assert |JoinLines(ls)| >= |ls[0]|; }
      }
    }
  }

  /** Multipart parts, and the body of a form-file or generic part, are printed four spaces deeper. */
  lemma NestedContentDeeper(b: Body, p: Part, indentation: string)
    requires b.MultipartBody?
    requires !p.FormValue?
    ensures BodyLines(b, indentation)[1..] == PartsLines(b.parts, indentation + STEP)
    ensures Indented(BodyLines(b, indentation)[1..], indentation + STEP)
    ensures PartLines(p, indentation)[1..] == BodyLines(p.body, indentation + STEP)
    ensures Indented(PartLines(p, indentation)[1..], indentation + STEP)
  {
    PartsLinesIndented(b.parts, indentation + STEP);
    BodyLinesIndented(p.body, indentation + STEP);
  }

  /** A generic part prints the same whatever its name and headers. */
  lemma PartHeadersNotPrinted(name1: string, name2: string, body: Body, h1: Option<Headers>, h2: Option<Headers>, indentation: string)
    ensures PartLines(GenericPart(name1, body, h1), indentation) == PartLines(GenericPart(name2, body, h2), indentation)
    ensures PartLines(GenericPart(name1, body, h1), indentation)[0] == indentation + "PART: "
  {}

  lemma NoColonInPlaceholder()
    ensures forall c :: 0 <= c < |"NO HEADERS"| ==> "NO HEADERS"[c] != ':'
  {}

  /** Every header line has a colon right after the header's name, so none reads 'NO HEADERS'. */
  lemma HeaderLineNotPlaceholder(indentation: string, pair: (string, string))
    ensures var line := HeaderLine(indentation, pair);
      |indentation + pair.0| < |line| && line[|indentation + pair.0|] == ':' && line != "NO HEADERS"
  {
    var line := HeaderLine(indentation, pair);
    var at := |indentation + pair.0|;
    assert line == (indentation + pair.0) + (": " + Take(pair.1, 60));
    assert line[at] == ':';
    NoColonInPlaceholder();
  }

  /** Headers print as 'NO HEADERS' exactly when there is no header or no value. */
  lemma NoHeadersExactly(headers: Option<Headers>, indentation: string)
    ensures var r := if headers.None? then "NO HEADERS"
                     else var s := AppendAll("", HeaderLines(indentation, Emitted(headers.value)));
                          if s == "" then "NO HEADERS" else s;
      r == "NO HEADERS" <==> headers.None? || Emitted(headers.value) == []
  {
    if headers.Some? {
      var pairs := Emitted(headers.value);
      var ls := HeaderLines(indentation, pairs);
      AppendAllJoins(ls);
      if ls != [] {
        var at := |indentation + pairs[0].0|;
        HeaderLineNotPlaceholder(indentation, pairs[0]);
        assert JoinLines(ls)[at] == ':' by {
          if |ls| > 1 {
            assert JoinLines(ls) == ls[0] + ("\n" + JoinLines(ls[1..]));
          }
        }
        NoColonInPlaceholder();
      }
    }
  }

  // ---------------------------------------------------------------- response errors

  /** The two error classes; a `TransientError` is also an `HttpError`. */
  datatype ErrorClass = HttpErrorClass | TransientErrorClass

  /** An error raised for a response: its class (which also names it) and its message. */
  datatype HttpError = HttpError(errorClass: ErrorClass, message: string) {
    /** `this.constructor.name`. */
    function Name(): string {
      if errorClass == TransientErrorClass then "TransientError" else "HttpError"
    }

    /** `instanceof`: every error is an `HttpError`, a transient one is also a `TransientError`. */
    predicate InstanceOf(c: ErrorClass) {
      c == HttpErrorClass || errorClass == c
    }
  }

  /** `getResponseError`. */
  function GetResponseError(statusCode: int): (r: Option<HttpError>)
    ensures r.None? <==> 200 <= statusCode < 300
    ensures r.Some? && r.value.InstanceOf(TransientErrorClass) <==> statusCode >= 500
    ensures 400 <= statusCode < 500 ==> r == Some(HttpError(HttpErrorClass, "error.client." + Decimal.IntToString(statusCode)))
    ensures statusCode >= 500 ==> r.value.message == "error.server" && r.value.Name() == "TransientError"
    ensures (300 <= statusCode < 400 || statusCode < 200) ==> r == Some(HttpError(HttpErrorClass, "error.protocol"))
  {
    if statusCode >= 500 then Some(HttpError(TransientErrorClass, "error.server"))
    else if statusCode >= 400 then Some(HttpError(HttpErrorClass, "error.client." + Decimal.IntToString(statusCode)))
    else if statusCode >= 300 || statusCode < 200 then Some(HttpError(HttpErrorClass, "error.protocol"))
    else None
  }

  /** The status classes of section 15 of RFC 9110, by the first digit of a three-digit code. */
  datatype StatusClass = Informational | Successful | Redirection | ClientError | ServerError

  function ClassOf(statusCode: int): StatusClass
    requires 100 <= statusCode < 600
  {
    match statusCode / 100
    case 1 => Informational
    case 2 => Successful
    case 3 => Redirection
    case 4 => ClientError
    case 5 => ServerError
  }

  /**
   * On the codes RFC 9110 defines, success yields no error, a server error
   * a transient one, a client error one naming the code, and the other
   * classes a protocol error.
   */
  lemma ResponseErrorByClass(statusCode: int)
    requires 100 <= statusCode < 600
    ensures var r := GetResponseError(statusCode);
      && (r.None? <==> ClassOf(statusCode) == Successful)
      && (r.Some? && r.value.Name() == "TransientError" <==> ClassOf(statusCode) == ServerError)
      && (r.Some? && r.value.message == "error.protocol" <==> ClassOf(statusCode) in {Informational, Redirection})
      && (ClassOf(statusCode) == ClientError ==> r.value.message == "error.client." + Decimal.IntToString(statusCode))
  {
    var r := GetResponseError(statusCode);
    if ClassOf(statusCode) == ClientError {
      assert r.value.message[..13] == "error.client.";
    }
    if ClassOf(statusCode) == ServerError || ClassOf(statusCode) == ClientError {
      assert r.value.message != "error.protocol" by {
        if ClassOf(statusCode) == ClientError { assert |r.value.message| > 14; }
      }
    }
  }

  /** Every transient error is an `HttpError`; only server errors are transient. */
  lemma TransientIsHttpError(statusCode: int)
    ensures var r := GetResponseError(statusCode);
      r.Some? ==> r.value.InstanceOf(HttpErrorClass)
    ensures var r := GetResponseError(statusCode);
      r.Some? && r.value.InstanceOf(TransientErrorClass) ==> statusCode >= 500
  {}
}
