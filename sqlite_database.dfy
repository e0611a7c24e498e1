/**
 * The database object `openOrCreate` returns: its open and in-transaction
 * flags, the query entry points, the user-version pragma and the
 * coordinator that lets nested logical transactions share one physical
 * exclusive transaction.
 */
module SqliteDatabase {

  import opened Optional
  import opened SqliteValues
  import opened SqliteEngine
  import opened SqliteStatement
  import Decimal

  const BEGIN := "BEGIN EXCLUSIVE TRANSACTION"
  const COMMIT := "COMMIT TRANSACTION"
  const ROLLBACK := "ROLLBACK TRANSACTION"
  const VERSION_PREFIX := "PRAGMA user_version="
  const VERSION_QUERY := "PRAGMA user_version"

  /** The statement `setVersion` runs. */
  function VersionQuery(version: int): (q: string)
    ensures |q| > |VERSION_PREFIX| && q[..|VERSION_PREFIX|] == VERSION_PREFIX
  {
    VERSION_PREFIX + Decimal.IntToString(version)
  }

  /** Different versions give different statements. */
  lemma VersionQueryInjective(i: int, j: int)
    requires VersionQuery(i) == VersionQuery(j)
    ensures i == j
  {
    assert VersionQuery(i)[|VERSION_PREFIX|..] == Decimal.IntToString(i);
    assert VersionQuery(j)[|VERSION_PREFIX|..] == Decimal.IntToString(j);
    Decimal.IntToStringInjective(i, j);
  }

  /** `result && result[0]`: the first column of the row `getArray` read, or null without one. */
  function VersionOf(r: Outcome<Option<RowData>>): (v: Outcome<Option<Value>>)
    ensures r.Fail? ==> v == Fail(r.error)
    ensures r.Ok? && r.value.Some? && r.value.value.ArrayRow? && |r.value.value.values| > 0 ==>
              v == Ok(Some(r.value.value.values[0]))
    ensures r == Ok(None) ==> v == Ok(None)
  {
    match r
    case Fail(e) => Fail(e)
    case Ok(None) => Ok(None)
    case Ok(Some(row)) => if row.ArrayRow? && |row.values| > 0 then Ok(Some(row.values[0])) else Ok(None)
  }

  /** `getVersion`. */
  function GetVersionSpec(s: EngineState): Run<Option<Value>> {
    var r := GetRawSpec(s, VERSION_QUERY, [], false);
    Run(VersionOf(r.result), r.state)
  }

  /**
   * On an engine whose pragma statement steps onto a row with an integer
   * first column, `getVersion` returns that integer; when it steps onto no
   * row it returns null.
   */
  lemma GetVersionReadsFirstColumn(s: EngineState)
    requires Clean(s)
    ensures Next(s.stepCodes, SQLITE_DONE) == SQLITE_ROW && |s.names| > 0 && CellOf(FirstRow(s), 0).tag == SQLITE_INTEGER
            && (forall j :: 0 <= j < |s.names| ==> DecodeValue(CellOf(FirstRow(s), j)).Ok?) ==>
              GetVersionSpec(s).result == Ok(Some(Int64(CellOf(FirstRow(s), 0).asInt64)))
    ensures StepCodeAccepted(Next(s.stepCodes, SQLITE_DONE)) && Next(s.stepCodes, SQLITE_DONE) != SQLITE_ROW ==>
              GetVersionSpec(s).result == Ok(None)
  {
    var n := |s.names|;
    var t := s.(current := FirstRow(s));
    var p := PrepareSpec(s, VERSION_QUERY);
    BindEffect(p.state, [], 0);
    var b := BindSpec(p.state, [], 0);
    StepEffect(b.state);
    GetRawReadsFirstRow(s, VERSION_QUERY, [], false);
    if Next(s.stepCodes, SQLITE_DONE) == SQLITE_ROW && n > 0 && CellOf(FirstRow(s), 0).tag == SQLITE_INTEGER
       && (forall j :: 0 <= j < n ==> DecodeValue(CellOf(FirstRow(s), j)).Ok?) {
      forall j | 0 <= j < n
        ensures DecodeValue(CellAt(t, j)).Ok?
      {
        assert CellAt(t, j) == CellOf(FirstRow(s), j);
      }
      DecodeColumnsKnown(t, n);
      var st := StepSpec(b.state);
      var cr := ColumnsSpec(NEW_CURSOR, st.state, false);
      DecodeColumnsCurrent(cr.state, t, n);
      assert DecodeValue(CellAt(t, 0)) == Ok(Int64(CellOf(FirstRow(s), 0).asInt64));
    }
  }

  // ---------------------------------------------------------------- transactions

  /**
   * What an action passed to `transaction` does, one step at a time:
   * `execute` a statement, open a nested `transaction`, call its `cancel`
   * callback, or throw.
   */
  datatype ActionStep = Exec(sql: string, params: seq<Option<string>>) | Nested(action: Action) | Cancel | Throw(message: string)

  /** An action: its steps and the value it returns when none of them throws. */
  datatype Action = Action(steps: seq<ActionStep>, result: int)

  /** How far an action got, whether its `cancel` was called, and the engine afterwards. */
  datatype StepsRun = StepsRun(result: Outcome<()>, cancelled: bool, state: EngineState)

  /** One step of an action; a nested `transaction` runs while the flag is already set. */
  function RunStep(s: EngineState, step: ActionStep, cancelled: bool): StepsRun
    decreases step
  {
    match step
    case Exec(sql, params) =>
      var r := ExecRawSpec(s, sql, params);
      StepsRun(r.result, cancelled, r.state)
    case Nested(a) =>
      var r := TransactionRawSpec(s, a, false);
      StepsRun(if r.result.Fail? then Fail(r.result.error) else Ok(()), cancelled, r.state)
    case Cancel => StepsRun(Ok(()), true, s)
    case Throw(message) => StepsRun(Fail(Thrown(message)), cancelled, s)
  }

  /** The steps of an action, up to the first one that throws. */
  function StepsSpec(s: EngineState, steps: seq<ActionStep>, cancelled: bool): StepsRun
    decreases steps
  {
    if steps == [] then StepsRun(Ok(()), cancelled, s)
    else
      var r := RunStep(s, steps[0], cancelled);
      if r.result.Fail? then r else StepsSpec(r.state, steps[1..], r.cancelled)
  }

  /** The `catch` of `transactionRaw`: the outermost call rolls back, and an error of the rollback replaces `e`. */
  function CatchSpec(s: EngineState, e: Error, first: bool): (r: Run<int>)
    ensures r.result.Fail?
    ensures !first ==> r == Run(Fail(e), s)
  {
    if first then
      var rb := ExecRawSpec(s, ROLLBACK, []);
      Run(Fail(if rb.result.Fail? then rb.result.error else e), rb.state)
    else Run(Fail(e), s)
  }

  /** `transactionRaw`: only the outermost call runs BEGIN, COMMIT and ROLLBACK. */
  function TransactionRawSpec(s: EngineState, a: Action, first: bool): Run<int>
    decreases a
  {
    var b := if first then ExecRawSpec(s, BEGIN, []) else Run(Ok(()), s);
    if b.result.Fail? then CatchSpec(b.state, b.result.error, first)
    else
      var st := StepsSpec(b.state, a.steps, false);
      if st.result.Fail? then CatchSpec(st.state, st.result.error, first)
      else if first then
        var end := ExecRawSpec(st.state, if st.cancelled then ROLLBACK else COMMIT, []);
        if end.result.Fail? then CatchSpec(end.state, end.result.error, first) else Run(Ok(a.result), end.state)
      else Run(Ok(a.result), st.state)
  }

  /** `transaction`: outermost exactly when the flag is not yet set. */
  function TransactionSpec(s: EngineState, inTransaction: bool, a: Action): Run<int> {
    TransactionRawSpec(s, a, !inTransaction)
  }

  /** The statements an action's steps execute, nested ones included, up to the first throw. */
  function Sqls(steps: seq<ActionStep>): seq<string>
    decreases steps
  {
    if steps == [] then []
    else StepSqls(steps[0]) + (if StepThrows(steps[0]) then [] else Sqls(steps[1..]))
  }

  function StepSqls(step: ActionStep): seq<string>
    decreases step
  {
    match step
    case Exec(sql, _) => [sql]
    case Nested(a) => Sqls(a.steps)
    case _ => []
  }

  /** Whether a step, nested actions included, throws. */
  predicate Throws(steps: seq<ActionStep>)
    decreases steps
  {
    steps != [] && (StepThrows(steps[0]) || Throws(steps[1..]))
  }

  predicate StepThrows(step: ActionStep)
    decreases step
  {
    match step
    case Nested(a) => Throws(a.steps)
    case Throw(_) => true
    case _ => false
  }

  /** The message of the first throw. */
  function Thrown1(steps: seq<ActionStep>): string
    requires Throws(steps)
    decreases steps
  {
    if StepThrows(steps[0]) then StepThrown(steps[0]) else Thrown1(steps[1..])
  }

  function StepThrown(step: ActionStep): string
    requires StepThrows(step)
    decreases step
  {
    match step
    case Nested(a) => Thrown1(a.steps)
    case Throw(m) => m
  }

  /** Whether the action's own `cancel` is called before any throw; nested cancels do not count. */
  predicate Cancels(steps: seq<ActionStep>)
    decreases steps
  {
    steps != [] && !StepThrows(steps[0]) && (steps[0].Cancel? || Cancels(steps[1..]))
  }

  /** Every statement succeeds: the code queues are used up on an open connection. */
  predicate Healthy(s: EngineState) {
    Clean(s) && s.stepCodes == []
  }

  /** On a healthy connection a statement succeeds, is logged, and leaves the connection healthy. */
  lemma HealthyExec(s: EngineState, sql: string, params: seq<Option<string>>)
    requires Healthy(s)
    ensures var r := ExecRawSpec(s, sql, params);
      r.result.Ok? && Healthy(r.state) && r.state.log == s.log + [sql] && r.state.open == s.open
  {
    ExecRawEffect(s, sql, params);
    var p := PrepareSpec(s, sql);
    BindEffect(p.state, params, 0);
  }

  /**
   * On a healthy connection an action's steps execute exactly `Sqls`, fail
   * exactly when a step throws, with that step's message, and are cancelled
   * exactly when the action's own `cancel` runs.
   */
  lemma {:induction false} HealthySteps(s: EngineState, steps: seq<ActionStep>, cancelled: bool)
    requires Healthy(s)
    ensures var r := StepsSpec(s, steps, cancelled);
      && Healthy(r.state) && r.state.log == s.log + Sqls(steps) && r.state.open == s.open
      && (r.result.Fail? <==> Throws(steps))
      && (Throws(steps) ==> r.result.error == Thrown(Thrown1(steps)))
      && (r.result.Ok? ==> r.cancelled == (cancelled || Cancels(steps)))
    decreases steps
  {
    if steps != [] {
      HealthyStep(s, steps[0], cancelled);
      var r := RunStep(s, steps[0], cancelled);
      if StepThrows(steps[0]) {
        ThrowingHead(steps);
      } else {
        QuietHead(steps);
        HealthySteps(r.state, steps[1..], r.cancelled);
        assert s.log + Sqls(steps) == (s.log + StepSqls(steps[0])) + Sqls(steps[1..]);
      }
    }
  }

  /** What the summaries say of steps whose first step throws. */
  lemma ThrowingHead(steps: seq<ActionStep>)
    requires steps != [] && StepThrows(steps[0])
    ensures Sqls(steps) == StepSqls(steps[0]) && Throws(steps) && !Cancels(steps)
    ensures Thrown1(steps) == StepThrown(steps[0])
  {
    assert StepSqls(steps[0]) + [] == StepSqls(steps[0]);
  }

  /** What the summaries say of steps whose first step does not throw. */
  lemma QuietHead(steps: seq<ActionStep>)
    requires steps != [] && !StepThrows(steps[0])
    ensures Sqls(steps) == StepSqls(steps[0]) + Sqls(steps[1..])
    ensures Throws(steps) == Throws(steps[1..])
    ensures Throws(steps) ==> Thrown1(steps) == Thrown1(steps[1..])
    ensures Cancels(steps) == (steps[0].Cancel? || Cancels(steps[1..]))
  {
  }

  lemma {:induction false} HealthyStep(s: EngineState, step: ActionStep, cancelled: bool)
    requires Healthy(s)
    ensures var r := RunStep(s, step, cancelled);
      && Healthy(r.state) && r.state.log == s.log + StepSqls(step) && r.state.open == s.open
      && (r.result.Fail? <==> StepThrows(step))
      && (StepThrows(step) ==> r.result.error == Thrown(StepThrown(step)))
      && (r.result.Ok? ==> r.cancelled == (cancelled || step.Cancel?))
    decreases step
  {
    match step
    case Exec(sql, params) =>
      HealthyExec(s, sql, params);
    case Nested(a) =>
      HealthyNested(s, a);
    case Cancel =>
    case Throw(_) =>
  }

  /** A nested transaction on a healthy connection executes only the action's statements; its `cancel` has no effect. */
  lemma {:induction false} HealthyNested(s: EngineState, a: Action)
    requires Healthy(s)
    ensures var r := TransactionRawSpec(s, a, false);
      && Healthy(r.state) && r.state.log == s.log + Sqls(a.steps) && r.state.open == s.open
      && r.result == (if Throws(a.steps) then Fail(Thrown(Thrown1(a.steps))) else Ok(a.result))
    decreases a
  {
    HealthySteps(s, a.steps, false);
  }

  /**
   * The outermost transaction on a healthy connection: BEGIN EXCLUSIVE, the
   * action's statements, then COMMIT, or ROLLBACK when the action was
   * cancelled or threw; a throw is rethrown as it was.
   */
  lemma HealthyOutermost(s: EngineState, a: Action)
    requires Healthy(s)
    ensures var r := TransactionRawSpec(s, a, true);
      && Healthy(r.state) && r.state.open == s.open
      && r.state.log == s.log + [BEGIN] + Sqls(a.steps)
                        + [if Throws(a.steps) || Cancels(a.steps) then ROLLBACK else COMMIT]
      && r.result == (if Throws(a.steps) then Fail(Thrown(Thrown1(a.steps))) else Ok(a.result))
  {
    HealthyExec(s, BEGIN, []);
    var b := ExecRawSpec(s, BEGIN, []);
    HealthySteps(b.state, a.steps, false);
    var st := StepsSpec(b.state, a.steps, false);
    HealthyExec(st.state, ROLLBACK, []);
    HealthyExec(st.state, COMMIT, []);
  }

  /** `t` extends the log of `s`. */
  predicate LogExtends(s: EngineState, t: EngineState) {
    |s.log| <= |t.log| && t.log[..|s.log|] == s.log
  }

  lemma LogExtendsTrans(s: EngineState, t: EngineState, u: EngineState)
    requires LogExtends(s, t) && LogExtends(t, u)
    ensures LogExtends(s, u)
  {
    assert u.log[..|s.log|] == u.log[..|t.log|][..|s.log|];
  }

  lemma ExecExtends(s: EngineState, sql: string, params: seq<Option<string>>)
    ensures var r := ExecRawSpec(s, sql, params);
      LogExtends(s, r.state) && r.state.log == s.log + [sql]
  {
    ExecRawEffect(s, sql, params);
    assert (s.log + [sql])[..|s.log|] == s.log;
  }

  /** Actions only ever add to the log. */
  lemma {:induction false} StepsExtend(s: EngineState, steps: seq<ActionStep>, cancelled: bool)
    ensures LogExtends(s, StepsSpec(s, steps, cancelled).state)
    decreases steps
  {
    if steps != [] {
      StepExtends(s, steps[0], cancelled);
      var r := RunStep(s, steps[0], cancelled);
      if r.result.Ok? {
        StepsExtend(r.state, steps[1..], r.cancelled);
        LogExtendsTrans(s, r.state, StepsSpec(s, steps, cancelled).state);
      }
    }
  }

  lemma {:induction false} StepExtends(s: EngineState, step: ActionStep, cancelled: bool)
    ensures LogExtends(s, RunStep(s, step, cancelled).state)
    decreases step
  {
    match step
    case Exec(sql, params) =>
      ExecExtends(s, sql, params);
    case Nested(a) =>
      NestedExtends(s, a);
    case Cancel =>
    case Throw(_) =>
  }

  lemma {:induction false} NestedExtends(s: EngineState, a: Action)
    ensures LogExtends(s, TransactionRawSpec(s, a, false).state)
    decreases a
  {
    StepsExtend(s, a.steps, false);
  }

  /**
   * Whatever the engine reports, the outermost transaction starts with
   * BEGIN EXCLUSIVE and ends with COMMIT or ROLLBACK: ROLLBACK whenever it
   * fails, and when it succeeds, COMMIT exactly when the action did not
   * cancel. A failing COMMIT therefore also ends in ROLLBACK.
   */
  lemma OutermostBrackets(s: EngineState, a: Action)
    ensures var r := TransactionRawSpec(s, a, true);
      && |r.state.log| >= |s.log| + 2
      && r.state.log[..|s.log| + 1] == s.log + [BEGIN]
      && (r.result.Fail? ==> r.state.log[|r.state.log| - 1] == ROLLBACK)
      && (r.result.Ok? ==>
            r.state.log[|r.state.log| - 1]
            == (if StepsSpec(ExecRawSpec(s, BEGIN, []).state, a.steps, false).cancelled then ROLLBACK else COMMIT))
  {
    var b := ExecRawSpec(s, BEGIN, []);
    ExecExtends(s, BEGIN, []);
    var r := TransactionRawSpec(s, a, true);
    if b.result.Fail? {
      ExecExtends(b.state, ROLLBACK, []);
      BracketTail(s, b.state, b.state, ROLLBACK);
    } else {
      var st := StepsSpec(b.state, a.steps, false);
      StepsExtend(b.state, a.steps, false);
      if st.result.Fail? {
        ExecExtends(st.state, ROLLBACK, []);
        BracketTail(s, b.state, st.state, ROLLBACK);
      } else {
        var lastSql := if st.cancelled then ROLLBACK else COMMIT;
        var end := ExecRawSpec(st.state, lastSql, []);
        ExecExtends(st.state, lastSql, []);
        if end.result.Fail? {
          LogExtendsTrans(b.state, st.state, end.state);
          ExecExtends(end.state, ROLLBACK, []);
          BracketTail(s, b.state, end.state, ROLLBACK);
        } else {
          BracketTail(s, b.state, st.state, lastSql);
        }
      }
    }
  }

  /** A log that extends `s.log + [BEGIN]`, with one more statement at the end. */
  lemma BracketTail(s: EngineState, b: EngineState, t: EngineState, sql: string)
    requires b.log == s.log + [BEGIN] && LogExtends(b, t)
    ensures var log := t.log + [sql];
      && |log| >= |s.log| + 2 && log[..|s.log| + 1] == s.log + [BEGIN] && log[|log| - 1] == sql
  {
    var log := t.log + [sql];
    assert log[..|s.log| + 1] == t.log[..|b.log|];
  }

  /** A `cancel` at the end of a nested action changes nothing at all. */
  lemma NestedCancelIgnored(s: EngineState, steps: seq<ActionStep>, result: int)
    ensures TransactionRawSpec(s, Action(steps + [Cancel], result), false) == TransactionRawSpec(s, Action(steps, result), false)
  {
    StepsAppendCancel(s, steps, false);
  }

  lemma {:induction false} StepsAppendCancel(s: EngineState, steps: seq<ActionStep>, cancelled: bool)
    ensures var r := StepsSpec(s, steps + [Cancel], cancelled);
      var q := StepsSpec(s, steps, cancelled);
      r.result == q.result && r.state == q.state && (r.result.Ok? ==> r.cancelled)
    decreases steps
  {
    if steps == [] {
      assert [] + [Cancel] == [Cancel];
      assert StepsSpec(s, [Cancel], cancelled) == StepsSpec(s, [], true);
    } else {
      assert (steps + [Cancel])[0] == steps[0];
      assert (steps + [Cancel])[1..] == steps[1..] + [Cancel];
      var r := RunStep(s, steps[0], cancelled);
      if r.result.Ok? {
        StepsAppendCancel(r.state, steps[1..], r.cancelled);
      }
    }
  }

  // ---------------------------------------------------------------- the database object

  /** The `cancelled` box of one `transactionRaw` call. */
  class CancelBox {
    var value: bool

    constructor ()
      ensures !value
    {
      value := false;
    }
  }

  /** The object `openOrCreate` returns, over the connection `engine`. */
  class Database {
    const engine: Engine
    var isOpen: bool
    var inTransaction: bool

    constructor (engine: Engine)
      ensures this.engine == engine && isOpen && !inTransaction
    {
      this.engine := engine;
      isOpen := true;
      inTransaction := false;
    }

    /** `isOpen`. */
    function IsOpen(): (b: bool)
      reads this
      ensures b == isOpen
    {
      isOpen
    }

    /** `close`: closes the connection once; a second call does nothing. */
    method Close()
      modifies this, engine
      ensures !isOpen && inTransaction == old(inTransaction)
      ensures old(isOpen) ==> engine.State() == old(engine.State()).(closed := true)
      ensures !old(isOpen) ==> engine.State() == old(engine.State())
    {
      if !isOpen {
        return;
      }
      engine.Close();
      isOpen := false;
    }

    /** `setVersion`. */
    method SetVersion(version: int) returns (r: Outcome<()>)
      modifies engine
      ensures Run(r, engine.State()) == ExecRawSpec(old(engine.State()), VersionQuery(version), [])
    {
      var query := VERSION_PREFIX + Decimal.IntToString(version);
      r := ExecRaw(engine, query, []);
    }

    /** `getVersion`. */
    method GetVersion() returns (r: Outcome<Option<Value>>)
      modifies engine
      ensures Run(r, engine.State()) == GetVersionSpec(old(engine.State()))
    {
      var result := GetArray(VERSION_QUERY, []);
      r := VersionOf(result);
    }

    /** `execute`. */
    method Execute(query: string, params: seq<Option<string>>) returns (r: Outcome<()>)
      modifies engine
      ensures Run(r, engine.State()) == ExecRawSpec(old(engine.State()), query, params)
    {
      r := ExecRaw(engine, query, params);
    }

    /** `get`: a row is always an object with at least one key, so `|| null` only maps no row to null. */
    method Get(query: string, params: seq<Option<string>>) returns (r: Outcome<Option<RowData>>)
      modifies engine
      ensures Run(r, engine.State()) == GetRawSpec(old(engine.State()), query, params, true)
    {
      r := GetRaw(engine, query, params, true);
    }

    /** `getArray`. */
    method GetArray(query: string, params: seq<Option<string>>) returns (r: Outcome<Option<RowData>>)
      modifies engine
      ensures Run(r, engine.State()) == GetRawSpec(old(engine.State()), query, params, false)
    {
      r := GetRaw(engine, query, params, false);
    }

    /** `select`. */
    method Select(query: string, params: seq<Option<string>>) returns (r: Outcome<seq<RowData>>)
      modifies engine
      ensures Run(r, engine.State()) == SelectRawSpec(old(engine.State()), query, params, true)
    {
      r := SelectRaw(engine, query, params, true);
    }

    /** `selectArray`. */
    method SelectArray(query: string, params: seq<Option<string>>) returns (r: Outcome<seq<RowData>>)
      modifies engine
      ensures Run(r, engine.State()) == SelectRawSpec(old(engine.State()), query, params, false)
    {
      r := SelectRaw(engine, query, params, false);
    }

    /** `transaction`: the flag is set for the outermost call only and cleared again however it ends. */
    method Transaction(a: Action) returns (r: Outcome<int>)
      modifies this, engine
      ensures inTransaction == old(inTransaction) && isOpen == old(isOpen)
      ensures Run(r, engine.State()) == TransactionSpec(old(engine.State()), old(inTransaction), a)
    {
      if !inTransaction {
        inTransaction := true;
        r := TransactionRaw(a, true);
        inTransaction := false;
      } else {
        r := TransactionRaw(a, false);
      }
    }

    /** The `catch` of `transactionRaw`. */
    method Catch(e: Error, first: bool) returns (r: Outcome<int>)
      modifies engine
      ensures Run(r, engine.State()) == CatchSpec(old(engine.State()), e, first)
    {
      if first {
        var rb := ExecRaw(engine, ROLLBACK, []);
        if rb.Fail? {
          return Fail(rb.error);
        }
      }
      return Fail(e);
    }

    /** `transactionRaw`, run while the flag is set. */
    method TransactionRaw(a: Action, first: bool) returns (r: Outcome<int>)
      requires inTransaction
      modifies this, engine
      ensures inTransaction && isOpen == old(isOpen)
      ensures Run(r, engine.State()) == TransactionRawSpec(old(engine.State()), a, first)
      decreases a
    {
      if first {
        var b := ExecRaw(engine, BEGIN, []);
        if b.Fail? {
          r := Catch(b.error, first);
          return;
        }
      }
      var cancelled := new CancelBox();
      var st := RunSteps(a.steps, cancelled);
      if st.Fail? {
        r := Catch(st.error, first);
        return;
      }
      if !cancelled.value && first {
        var c := ExecRaw(engine, COMMIT, []);
        if c.Fail? {
          r := Catch(c.error, first);
          return;
        }
      } else if cancelled.value && first {
        var c := ExecRaw(engine, ROLLBACK, []);
        if c.Fail? {
          r := Catch(c.error, first);
          return;
        }
      }
      return Ok(a.result);
    }

    /**
     * The body of the action. A nested `transaction` finds the flag set and
     * so runs `transactionRaw` as a non-outermost call.
     */
    method RunSteps(steps: seq<ActionStep>, box: CancelBox) returns (r: Outcome<()>)
      requires inTransaction
      modifies this, engine, box
      ensures inTransaction && isOpen == old(isOpen)
      ensures StepsRun(r, box.value, engine.State()) == StepsSpec(old(engine.State()), steps, old(box.value))
      decreases steps
    {
      for i := 0 to |steps|
        invariant inTransaction && isOpen == old(isOpen)
        invariant StepsSpec(old(engine.State()), steps, old(box.value)) == StepsSpec(engine.State(), steps[i..], box.value)
      {
        assert steps[i..][1..] == steps[i + 1..];
        var x := RunOne(steps[i], box);
        if x.Fail? {
          return x;
        }
      }
      return Ok(());
    }

    /** One step of the action. */
    method RunOne(step: ActionStep, box: CancelBox) returns (r: Outcome<()>)
      requires inTransaction
      modifies this, engine, box
      ensures inTransaction && isOpen == old(isOpen)
      ensures StepsRun(r, box.value, engine.State()) == RunStep(old(engine.State()), step, old(box.value))
      decreases step
    {
      match step
      case Exec(sql, params) =>
        r := ExecRaw(engine, sql, params);
      case Nested(a) =>
        var x := TransactionRaw(a, false);
        r := if x.Fail? then Fail(x.error) else Ok(());
      case Cancel =>
        box.value := true;
        r := Ok(());
      case Throw(message) =>
        r := Fail(Thrown(message));
    }
  }

  /** `openOrCreate`: a nonzero result of opening the file is thrown as a normalized error. */
  method OpenOrCreate(openCode: int, script: EngineState) returns (r: Outcome<Database>)
    ensures r.Ok? <==> openCode == SQLITE_OK
    ensures r.Fail? ==> r.error == Normalized("open: ", openCode)
    ensures r.Ok? ==> fresh(r.value) && fresh(r.value.engine) && r.value.isOpen && !r.value.inTransaction
                      && r.value.engine.State() == script
  {
    if openCode != SQLITE_OK {
      return Fail(Normalized("open: ", openCode));
    }
    var e := new Engine(script);
    var db := new Database(e);
    return Ok(db);
  }
}
