/**
 * The native SQLite library as the layer sees it, modelled as a scripted
 * engine: the result codes of its calls and the rows a statement steps
 * onto come from queues fixed in advance, and the engine records the SQL
 * text of every prepare, every binding and every column-name read, and
 * counts the statements prepared and not yet finalized.
 */
module SqliteEngine {

  import opened Optional
  import opened SqliteValues

  const SQLITE_OK := 0
  /** What the library reports for a call on a closed connection. */
  const SQLITE_MISUSE := 21
  const SQLITE_ROW := 100
  const SQLITE_DONE := 101

  type Row = seq<Cell>

  /** One `sqlite3_bind_*` call: the 1-based position and the text, or null for `bind_null`. */
  datatype Binding = Binding(position: int, text: Option<string>)

  datatype EngineState = EngineState(
    closed: bool,
    prepareCodes: seq<int>,
    bindCodes: seq<int>,
    stepCodes: seq<int>,
    finalizeCodes: seq<int>,
    rows: seq<Row>,
    current: Row,
    names: seq<string>,
    open: nat,
    log: seq<string>,
    bindings: seq<Binding>,
    nameReads: nat)

  /** The head of a queue of result codes, or the code the engine gives once the queue is used up. */
  function Next(q: seq<int>, default: int): int {
    if q == [] then default else q[0]
  }

  function Rest<T>(q: seq<T>): (r: seq<T>)
    ensures q != [] ==> |r| == |q| - 1
    ensures q == [] ==> r == []
  {
    if q == [] then [] else q[1..]
  }

  /** The result code of a call and the engine afterwards. */
  datatype Call = Call(code: int, state: EngineState)

  /** `sqlite3_prepare_v2`: the text is logged; a success opens a statement. */
  function PrepareCall(s: EngineState, sql: string): (c: Call)
    ensures c.state.log == s.log + [sql]
    ensures c.state.open == if c.code == SQLITE_OK then s.open + 1 else s.open
    ensures s.closed ==> c.code == SQLITE_MISUSE
  {
    if s.closed then Call(SQLITE_MISUSE, s.(log := s.log + [sql]))
    else
      var code := Next(s.prepareCodes, SQLITE_OK);
      Call(code, s.(prepareCodes := Rest(s.prepareCodes), log := s.log + [sql],
                    open := if code == SQLITE_OK then s.open + 1 else s.open))
  }

  /** `sqlite3_bind_null` / `sqlite3_bind_text`: the binding is recorded. */
  function BindCall(s: EngineState, position: int, text: Option<string>): (c: Call)
    ensures c.state == s.(bindCodes := Rest(s.bindCodes), bindings := s.bindings + [Binding(position, text)])
  {
    Call(Next(s.bindCodes, SQLITE_OK), s.(bindCodes := Rest(s.bindCodes), bindings := s.bindings + [Binding(position, text)]))
  }

  /** `sqlite3_step`: a row result moves the statement onto the next scripted row. */
  function StepCall(s: EngineState): (c: Call)
    ensures c.code == Next(s.stepCodes, SQLITE_DONE)
    ensures c.code == SQLITE_ROW ==> |c.state.stepCodes| < |s.stepCodes|
    ensures c.state.log == s.log && c.state.open == s.open && c.state.names == s.names
  {
    var code := Next(s.stepCodes, SQLITE_DONE);
    if code == SQLITE_ROW then
      Call(code, s.(stepCodes := Rest(s.stepCodes), current := if s.rows == [] then [] else s.rows[0], rows := Rest(s.rows)))
    else Call(code, s.(stepCodes := Rest(s.stepCodes)))
  }

  /** `sqlite3_finalize`: the statement is destroyed whatever the code it reports. */
  function FinalizeCall(s: EngineState): (c: Call)
    ensures c.state == s.(finalizeCodes := Rest(s.finalizeCodes), open := if s.open > 0 then s.open - 1 else 0)
  {
    Call(Next(s.finalizeCodes, SQLITE_OK),
         s.(finalizeCodes := Rest(s.finalizeCodes), open := if s.open > 0 then s.open - 1 else 0))
  }

  /** A column of a row; a column past the row reads as NULL. */
  function CellOf(row: Row, column: int): Cell {
    if 0 <= column < |row| then row[column] else NULL_CELL
  }

  /** `sqlite3_column_type` and the typed readers, on the row the statement is on. */
  function CellAt(s: EngineState, column: int): Cell {
    CellOf(s.current, column)
  }

  /** The row a successful step moves onto. */
  function FirstRow(s: EngineState): Row {
    if s.rows == [] then [] else s.rows[0]
  }

  /** A zero-based column's name, or '' for a column the statement does not have. */
  function NameAt(s: EngineState, column: int): string {
    if 0 <= column < |s.names| then s.names[column] else ""
  }

  /** The engine as a mutable object: one field per component of `EngineState`. */
  class Engine {
    var closed: bool
    var prepareCodes: seq<int>
    var bindCodes: seq<int>
    var stepCodes: seq<int>
    var finalizeCodes: seq<int>
    var rows: seq<Row>
    var current: Row
    var names: seq<string>
    var open: nat
    var log: seq<string>
    var bindings: seq<Binding>
    var nameReads: nat

    function State(): EngineState
      reads this
    {
      EngineState(closed, prepareCodes, bindCodes, stepCodes, finalizeCodes, rows, current, names, open, log, bindings, nameReads)
    }

    /** An engine following `script`. */
    constructor (script: EngineState)
      ensures State() == script
    {
      closed := script.closed;
      prepareCodes := script.prepareCodes;
      bindCodes := script.bindCodes;
      stepCodes := script.stepCodes;
      finalizeCodes := script.finalizeCodes;
      rows := script.rows;
      current := script.current;
      names := script.names;
      open := script.open;
      log := script.log;
      bindings := script.bindings;
      nameReads := script.nameReads;
    }

    method Prepare(sql: string) returns (code: int)
      modifies this
      ensures Call(code, State()) == PrepareCall(old(State()), sql)
    {
      log := log + [sql];
      if closed {
        return SQLITE_MISUSE;
      }
      code := Next(prepareCodes, SQLITE_OK);
      prepareCodes := Rest(prepareCodes);
      if code == SQLITE_OK {
        open := open + 1;
      }
    }

    method Bind(position: int, text: Option<string>) returns (code: int)
      modifies this
      ensures Call(code, State()) == BindCall(old(State()), position, text)
    {
      code := Next(bindCodes, SQLITE_OK);
      bindCodes := Rest(bindCodes);
      bindings := bindings + [Binding(position, text)];
    }

    method Step() returns (code: int)
      modifies this
      ensures Call(code, State()) == StepCall(old(State()))
    {
      code := Next(stepCodes, SQLITE_DONE);
      stepCodes := Rest(stepCodes);
      if code == SQLITE_ROW {
        current := if rows == [] then [] else rows[0];
        rows := Rest(rows);
      }
    }

    method Finalize() returns (code: int)
      modifies this
      ensures Call(code, State()) == FinalizeCall(old(State()))
    {
      code := Next(finalizeCodes, SQLITE_OK);
      finalizeCodes := Rest(finalizeCodes);
      open := if open > 0 then open - 1 else 0;
    }

    /** `sqlite3_column_name`, counted as a read. */
    method ColumnName(column: int) returns (name: string)
      modifies this
      ensures name == NameAt(old(State()), column)
      ensures State() == old(State()).(nameReads := old(nameReads) + 1)
    {
      name := if 0 <= column < |names| then names[column] else "";
      nameReads := nameReads + 1;
    }

    /** `sqlite3_close_v2`. */
    method Close()
      modifies this
      ensures State() == old(State()).(closed := true)
    {
      closed := true;
    }
  }
}
