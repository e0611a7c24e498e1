/**
 * The values the SQLite layer reads out of a result row, and the errors
 * it raises.
 */
module SqliteValues {

  import Decimal

  newtype int64 = x: int | -0x8000_0000_0000_0000 <= x < 0x8000_0000_0000_0000

  /** A double, carried as its IEEE 754 bit pattern. */
  newtype Float64Bits = x: int | 0 <= x < 0x1_0000_0000_0000_0000

  newtype byte = x: int | 0 <= x < 256

  /** A column value as the JavaScript side receives it. */
  datatype Value = Int64(i: int64) | Double(bits: Float64Bits) | Text(text: string) | Blob(bytes: seq<byte>) | Null

  /**
   * One column of the current row: the storage class the engine reports
   * (`sqlite3_column_type`) and what each typed reader returns for it.
   */
  datatype Cell = Cell(tag: int, asInt64: int64, asDouble: Float64Bits, asText: string, asBlob: seq<byte>)

  /** The type codes of the SQLite C interface. */
  const SQLITE_INTEGER := 1
  const SQLITE_FLOAT := 2
  const SQLITE_TEXT := 3
  const SQLITE_BLOB := 4
  const SQLITE_NULL := 5

  /** A column the statement does not have reads as NULL. */
  const NULL_CELL := Cell(SQLITE_NULL, 0, 0, "", [])

  /**
   * An error of the layer: one built by `throwNormalizedError` from a
   * result code and a context prefix, or the text of any other thrown error.
   */
  datatype Error = Normalized(prefix: string, code: int) | Thrown(message: string)

  datatype Outcome<+T> = Ok(value: T) | Fail(error: Error)

  /** The message text: prefix, code and the engine's description of the code (`errstr`). */
  function Message(e: Error, errstr: int -> string): (r: string)
    ensures e.Normalized? ==> |e.prefix| < |r| && r[..|e.prefix|] == e.prefix
    ensures e.Thrown? ==> r == e.message
  {
    match e
    case Normalized(prefix, code) => prefix + Decimal.IntToString(code) + " " + errstr(code)
    case Thrown(message) => message
  }

  /**
   * The code can be read back from a normalised message: two errors with the
   * same prefix and the same message have the same code, whatever text the
   * engine gives for each code.
   */
  lemma MessageNamesCode(prefix: string, c1: int, c2: int, errstr: int -> string)
    requires Message(Normalized(prefix, c1), errstr) == Message(Normalized(prefix, c2), errstr)
    ensures c1 == c2
  {
    var d1, d2 := Decimal.IntToString(c1), Decimal.IntToString(c2);
    var t := Message(Normalized(prefix, c1), errstr)[|prefix|..];
    MessageAfterPrefix(prefix, c1, errstr);
    MessageAfterPrefix(prefix, c2, errstr);
    FirstSpaceAfter(d1, errstr(c1));
    FirstSpaceAfter(d2, errstr(c2));
    assert d1 == t[..|d1|];
    assert d2 == t[..|d2|];
    Decimal.IntToStringInjective(c1, c2);
  }

  lemma MessageAfterPrefix(prefix: string, code: int, errstr: int -> string)
    ensures Message(Normalized(prefix, code), errstr)[|prefix|..] == Decimal.IntToString(code) + " " + errstr(code)
  {
    var rest := Decimal.IntToString(code) + " " + errstr(code);
    assert Message(Normalized(prefix, code), errstr) == prefix + rest;
  }

  /** The position of the first space, or the length when there is none. */
  function FirstSpace(t: string): (r: nat)
    ensures r <= |t|
  {
    if t == [] || t[0] == ' ' then 0 else 1 + FirstSpace(t[1..])
  }

  lemma {:induction false} FirstSpaceAfter(d: string, rest: string)
    requires forall k :: 0 <= k < |d| ==> d[k] != ' '
    ensures FirstSpace(d + " " + rest) == |d|
  {
    if d != [] {
      assert (d + " " + rest)[1..] == d[1..] + " " + rest;
      FirstSpaceAfter(d[1..], rest);
    }
  }

  function UnknownType(tag: int): Error {
    Thrown("unknown.type: " + Decimal.IntToString(tag))
  }

  /** `getValues`: one reader per storage class; any other tag is an error naming it. */
  function DecodeValue(c: Cell): (r: Outcome<Value>)
    ensures r.Ok? <==> 1 <= c.tag <= 5
    ensures c.tag == SQLITE_INTEGER ==> r == Ok(Int64(c.asInt64))
    ensures c.tag == SQLITE_FLOAT ==> r == Ok(Double(c.asDouble))
    ensures c.tag == SQLITE_TEXT ==> r == Ok(Text(c.asText))
    ensures c.tag == SQLITE_BLOB ==> r == Ok(Blob(c.asBlob))
    ensures c.tag == SQLITE_NULL ==> r == Ok(Null)
    ensures r.Fail? ==> r.error == UnknownType(c.tag)
  {
    match c.tag
    case 1 => Ok(Int64(c.asInt64))
    case 2 => Ok(Double(c.asDouble))
    case 3 => Ok(Text(c.asText))
    case 4 => Ok(Blob(c.asBlob))
    case 5 => Ok(Null)
    case _ => Fail(UnknownType(c.tag))
  }

  /** `getValuesAsString`: integers and doubles are read through the text reader. */
  function DecodeValueAsString(c: Cell): (r: Outcome<Value>)
    ensures r.Ok? <==> 1 <= c.tag <= 5
    ensures 1 <= c.tag <= 3 ==> r == Ok(Text(c.asText))
    ensures c.tag == SQLITE_BLOB ==> r == Ok(Blob(c.asBlob))
    ensures c.tag == SQLITE_NULL ==> r == Ok(Null)
    ensures r.Fail? ==> r.error == UnknownType(c.tag)
  {
    match c.tag
    case 1 => Ok(Text(c.asText))
    case 2 => Ok(Text(c.asText))
    case 3 => Ok(Text(c.asText))
    case 4 => Ok(Blob(c.asBlob))
    case 5 => Ok(Null)
    case _ => Fail(UnknownType(c.tag))
  }

  /** The storage class of a decoded value. */
  function TagOf(v: Value): int {
    match v
    case Int64(_) => SQLITE_INTEGER
    case Double(_) => SQLITE_FLOAT
    case Text(_) => SQLITE_TEXT
    case Blob(_) => SQLITE_BLOB
    case Null => SQLITE_NULL
  }

  /** A decoded value belongs to the storage class it was read by. */
  lemma DecodeKeepsTag(c: Cell)
    requires DecodeValue(c).Ok?
    ensures TagOf(DecodeValue(c).value) == c.tag
  {}

  /** Both decoders agree except that numbers come back as text from the string reader. */
  lemma DecodersAgree(c: Cell)
    ensures DecodeValue(c).Fail? <==> DecodeValueAsString(c).Fail?
    ensures c.tag !in {SQLITE_INTEGER, SQLITE_FLOAT} ==> DecodeValue(c) == DecodeValueAsString(c)
  {}

  /** Different unknown tags give different messages. */
  lemma UnknownTypeNamesTag(t1: int, t2: int)
    requires UnknownType(t1) == UnknownType(t2)
    ensures t1 == t2
  {
    var p := "unknown.type: ";
    assert (p + Decimal.IntToString(t1))[|p|..] == Decimal.IntToString(t1);
    assert (p + Decimal.IntToString(t2))[|p|..] == Decimal.IntToString(t2);
    Decimal.IntToStringInjective(t1, t2);
  }
}
