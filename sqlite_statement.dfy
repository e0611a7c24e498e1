/**
 * The statement lifecycle of the SQLite layer: preparing, binding,
 * stepping and finalizing a statement, the cursor that lays out the
 * columns of a result, and the three ways of running a query (one row,
 * all rows, no rows). Each operation is specified by a function on the
 * engine's state and implemented by a method on the engine.
 */
module SqliteStatement {

  import opened Optional
  import opened SqliteValues
  import opened SqliteEngine
  import Decimal

  /** What an operation returns or throws, and the engine afterwards. */
  datatype Run<+T> = Run(result: Outcome<T>, state: EngineState)

  // ---------------------------------------------------------------- prepare, finalize, step, bind

  /** `prepareStatement`. */
  function PrepareSpec(s: EngineState, query: string): (r: Run<()>)
    ensures r.state == PrepareCall(s, query).state
    ensures r.result.Ok? <==> PrepareCall(s, query).code == SQLITE_OK
    ensures r.result.Fail? ==> r.result.error == Normalized("prepareStatement: ", PrepareCall(s, query).code)
  {
    var c := PrepareCall(s, query);
    if c.code != SQLITE_OK then Run(Fail(Normalized("prepareStatement: ", c.code)), c.state) else Run(Ok(()), c.state)
  }

  /** `finalize`: the statement is gone afterwards even when the call reports an error. */
  function FinalizeSpec(s: EngineState): (r: Run<()>)
    ensures r.state == FinalizeCall(s).state
    ensures r.result.Ok? <==> FinalizeCall(s).code == SQLITE_OK
    ensures r.result.Fail? ==> r.result.error == Normalized("finalize: ", FinalizeCall(s).code)
  {
    var c := FinalizeCall(s);
    if c.code != SQLITE_OK then Run(Fail(Normalized("finalize: ", c.code)), c.state) else Run(Ok(()), c.state)
  }

  predicate StepCodeAccepted(code: int) {
    code == SQLITE_OK || code == SQLITE_ROW || code == SQLITE_DONE
  }

  /**
   * `step`: codes 0, 100 and 101 are returned; any other code finalizes the
   * statement and then throws, a failing finalize replacing the step error.
   */
  function StepSpec(s: EngineState): (r: Run<int>)
    ensures var c := StepCall(s);
      StepCodeAccepted(c.code) ==> r == Run(Ok(c.code), c.state)
    ensures var c := StepCall(s);
      !StepCodeAccepted(c.code) ==>
        && r.result.Fail?
        && r.state == FinalizeCall(c.state).state
        && r.result.error == (if FinalizeCall(c.state).code != SQLITE_OK
                              then Normalized("finalize: ", FinalizeCall(c.state).code)
                              else Normalized("step: ", c.code))
  {
    var c := StepCall(s);
    if !StepCodeAccepted(c.code) then
      var f := FinalizeSpec(c.state);
      Run(Fail(if f.result.Fail? then f.result.error else Normalized("step: ", c.code)), f.state)
    else Run(Ok(c.code), c.state)
  }

  /** What a step leaves alone, and when it finalizes. */
  lemma StepEffect(s: EngineState)
    ensures var r := StepSpec(s);
      && r.state.log == s.log && r.state.closed == s.closed && r.state.names == s.names
      && r.state.prepareCodes == s.prepareCodes && r.state.bindCodes == s.bindCodes
      && (r.result.Ok? <==> StepCodeAccepted(Next(s.stepCodes, SQLITE_DONE)))
      && (r.result.Ok? ==>
            r.result.value == Next(s.stepCodes, SQLITE_DONE) && r.state.open == s.open
            && r.state.finalizeCodes == s.finalizeCodes)
      && (r.result.Fail? ==> r.result.error.Normalized? && r.state.open == (if s.open > 0 then s.open - 1 else 0))
  {}

  /** `bind` from parameter `k` on: parameter k goes to position k + 1, null by `bind_null`, text otherwise. */
  function BindSpec(s: EngineState, params: seq<Option<string>>, k: nat): Run<()>
    requires k <= |params|
    decreases |params| - k
  {
    if k == |params| then Run(Ok(()), s)
    else
      var c := BindCall(s, k + 1, params[k]);
      if c.code != SQLITE_OK then
        var f := FinalizeSpec(c.state);
        Run(Fail(if f.result.Fail? then f.result.error else Normalized("bind: ", c.code)), f.state)
      else BindSpec(c.state, params, k + 1)
  }

  /** The bindings of parameters k.. in order. */
  function BindingsFrom(params: seq<Option<string>>, k: nat): (r: seq<Binding>)
    requires k <= |params|
    ensures |r| == |params| - k && forall i :: 0 <= i < |r| ==> r[i] == Binding(k + i + 1, params[k + i])
  {
    seq(|params| - k, i requires 0 <= i < |params| - k => Binding(k + i + 1, params[k + i]))
  }

  /** All but these components of the engine are left alone. */
  predicate SameScript(s: EngineState, t: EngineState) {
    t.closed == s.closed && t.prepareCodes == s.prepareCodes && t.stepCodes == s.stepCodes
    && t.rows == s.rows && t.current == s.current && t.names == s.names && t.log == s.log && t.nameReads == s.nameReads
  }

  /**
   * Binding either records every parameter at its position and leaves the
   * statement open, or stops at a failing bind and finalizes the statement
   * before throwing.
   */
  lemma {:induction false} BindEffect(s: EngineState, params: seq<Option<string>>, k: nat)
    requires k <= |params|
    ensures var r := BindSpec(s, params, k);
      && SameScript(s, r.state)
      && (s.bindCodes == [] ==> r.result.Ok? && r.state.bindCodes == [])
      && (r.result.Ok? ==>
            r.state.bindings == s.bindings + BindingsFrom(params, k) && r.state.open == s.open
            && r.state.finalizeCodes == s.finalizeCodes)
      && (r.result.Fail? ==>
            r.state.open == (if s.open > 0 then s.open - 1 else 0) && r.result.error.Normalized?
            && r.result.error.prefix in {"bind: ", "finalize: "})
    decreases |params| - k
  {
    if k < |params| {
      var c := BindCall(s, k + 1, params[k]);
      if c.code == SQLITE_OK {
        BindEffect(c.state, params, k + 1);
        assert [Binding(k + 1, params[k])] + BindingsFrom(params, k + 1) == BindingsFrom(params, k);
      }
    } else {
      assert BindingsFrom(params, k) == [];
    }
  }

  method PrepareStatement(e: Engine, query: string) returns (r: Outcome<()>)
    modifies e
    ensures Run(r, e.State()) == PrepareSpec(old(e.State()), query)
  {
    var result := e.Prepare(query);
    if result != SQLITE_OK {
      return Fail(Normalized("prepareStatement: ", result));
    }
    return Ok(());
  }

  method Finalize(e: Engine) returns (r: Outcome<()>)
    modifies e
    ensures Run(r, e.State()) == FinalizeSpec(old(e.State()))
  {
    var result := e.Finalize();
    if result != SQLITE_OK {
      return Fail(Normalized("finalize: ", result));
    }
    return Ok(());
  }

  method Step(e: Engine) returns (r: Outcome<int>)
    modifies e
    ensures Run(r, e.State()) == StepSpec(old(e.State()))
  {
    var result := e.Step();
    if !StepCodeAccepted(result) {
      var f := Finalize(e);
      if f.Fail? {
        return Fail(f.error);
      }
      return Fail(Normalized("step: ", result));
    }
    return Ok(result);
  }

  /** `bind`: the `forEach` over the parameters, left by the first failure. */
  method Bind(params: seq<Option<string>>, e: Engine) returns (r: Outcome<()>)
    modifies e
    ensures Run(r, e.State()) == BindSpec(old(e.State()), params, 0)
  {
    for i := 0 to |params|
      invariant BindSpec(old(e.State()), params, 0) == BindSpec(e.State(), params, i)
    {
      var result := e.Bind(i + 1, params[i]);
      if result != SQLITE_OK {
        var f := Finalize(e);
        if f.Fail? {
          return Fail(f.error);
        }
        return Fail(Normalized("bind: ", result));
      }
    }
    return Ok(());
  }

  // ---------------------------------------------------------------- the cursor

  /** The cursor of a statement: whether its layout is built, the column keys and the column count. */
  datatype CursorState = CursorState(built: bool, columns: seq<string>, count: nat)

  /** `getNewCursorStatement`. */
  const NEW_CURSOR := CursorState(false, [], 0)

  /** The key given to a column whose name is empty or taken. */
  function ColumnLabel(index: nat): string {
    "column[" + Decimal.NatToString(index) + "]"
  }

  /** The keys after the first `k` columns: a name is kept unless it is empty or already a key. */
  function ColumnLayout(existing: seq<string>, names: seq<string>, k: nat): (r: seq<string>)
    requires k <= |names|
    ensures |r| == |existing| + k
  {
    if k == 0 then existing
    else
      var cols := ColumnLayout(existing, names, k - 1);
      var name := names[k - 1];
      cols + [if name == "" || name in cols then ColumnLabel(k - 1) else name]
  }

  datatype ColumnsRun = ColumnsRun(count: nat, cursor: CursorState, state: EngineState)

  /**
   * `getColumns`: on the first call the count is taken from the statement
   * and, for object rows, the column keys are laid out; later calls return
   * the cached count and read nothing.
   */
  function ColumnsSpec(c: CursorState, s: EngineState, asObject: bool): (r: ColumnsRun)
    ensures r.cursor.built
    ensures r.state == s.(nameReads := r.state.nameReads)
    ensures c.built ==> r == ColumnsRun(c.count, c, s)
  {
    if c.built then ColumnsRun(c.count, c, s)
    else
      var n := |s.names|;
      if asObject then ColumnsRun(n, CursorState(true, ColumnLayout(c.columns, s.names, n), n), s.(nameReads := s.nameReads + n))
      else ColumnsRun(n, c.(built := true, count := n), s)
  }

  /** A cursor is built on the first call; every later call is answered from the cache. */
  lemma ColumnsBuiltOnce(c: CursorState, s: EngineState, asObject: bool, again: bool)
    ensures var r := ColumnsSpec(c, s, asObject);
      && r.cursor.built
      && ColumnsSpec(r.cursor, r.state, again) == ColumnsRun(r.count, r.cursor, r.state)
      && (!c.built ==> r.count == |s.names| && r.state.nameReads == s.nameReads + (if asObject then |s.names| else 0))
  {}

  /**
   * In object mode a fresh cursor gets exactly one key per column; key i is
   * the engine's name unless that is empty or an earlier key, and then
   * 'column[i]'.
   */
  lemma {:induction false} ColumnLayoutKeys(names: seq<string>, k: nat, i: nat)
    requires i < k <= |names|
    ensures ColumnLayout([], names, k)[..i] == ColumnLayout([], names, i)
    ensures var earlier := ColumnLayout([], names, i);
      ColumnLayout([], names, k)[i] == (if names[i] == "" || names[i] in earlier then ColumnLabel(i) else names[i])
    decreases k
  {
    if k > i + 1 {
      ColumnLayoutKeys(names, k - 1, i);
      var cols := ColumnLayout([], names, k - 1);
      assert ColumnLayout([], names, k)[..k - 1] == cols;
      assert ColumnLayout([], names, k)[..i] == cols[..i];
    } else {
      assert ColumnLayout([], names, k)[..i] == ColumnLayout([], names, i);
    }
  }

  /** Distinct non-empty names are kept as they are. */
  lemma {:induction false} DistinctNamesKept(names: seq<string>, k: nat)
    requires k <= |names|
    requires forall i :: 0 <= i < |names| ==> names[i] != ""
    requires forall i, j :: 0 <= i < j < |names| ==> names[i] != names[j]
    ensures ColumnLayout([], names, k) == names[..k]
  {
    if k > 0 {
      DistinctNamesKept(names, k - 1);
      assert names[..k] == names[..k - 1] + [names[k - 1]];
    }
  }

  /** A renamed column can collide with a later column of that very name: the keys are not always distinct. */
  lemma LabelsCanCollide()
    ensures ColumnLayout([], [ColumnLabel(1), ColumnLabel(1)], 2) == [ColumnLabel(1), ColumnLabel(1)]
  {
    var names := [ColumnLabel(1), ColumnLabel(1)];
    assert ColumnLayout([], names, 1) == [ColumnLabel(1)];
  }

  /** The cursor of a statement, updated in place by `getColumns`. */
  class Cursor {
    var built: bool
    var columns: seq<string>
    var count: nat

    constructor ()
      ensures State() == NEW_CURSOR
    {
      built := false;
      columns := [];
      count := 0;
    }

    function State(): CursorState
      reads this
    {
      CursorState(built, columns, count)
    }

    /** `getColumns`. */
    method GetColumns(e: Engine, asObject: bool) returns (n: nat)
      modifies this, e
      ensures ColumnsRun(n, State(), e.State()) == ColumnsSpec(old(State()), old(e.State()), asObject)
    {
      if !built {
        count := |e.names|;
        if asObject {
          for index := 0 to count
            invariant count == |e.names| && !built
            invariant columns == ColumnLayout(old(columns), old(e.names), index)
            invariant e.State() == old(e.State()).(nameReads := old(e.nameReads) + index)
          {
            var colName := e.ColumnName(index);
            if colName == "" || colName in columns {
              colName := ColumnLabel(index);
            }
            columns := columns + [colName];
          }
        }
        built := true;
      }
      n := count;
    }
  }

  // ---------------------------------------------------------------- rows

  /** A row as the caller receives it: keyed by column in object mode, positional in array mode. */
  datatype RowData = ObjectRow(fields: map<string, Value>) | ArrayRow(values: seq<Value>)

  /** The values of the first `n` columns of the current row; the first undecodable column's error. */
  function DecodeColumns(s: EngineState, n: nat): (r: Outcome<seq<Value>>)
    ensures r.Ok? ==> |r.value| == n && forall i :: 0 <= i < n ==> DecodeValue(CellAt(s, i)) == Ok(r.value[i])
    ensures r.Fail? ==> r.error.Thrown?
  {
    if n == 0 then Ok([])
    else
      var p := DecodeColumns(s, n - 1);
      if p.Fail? then p
      else
        var v := DecodeValue(CellAt(s, n - 1));
        if v.Fail? then Fail(v.error) else Ok(p.value + [v.value])
  }

  /** A row whose columns all have a known storage class decodes. */
  lemma {:induction false} DecodeColumnsKnown(s: EngineState, n: nat)
    requires forall i :: 0 <= i < n ==> DecodeValue(CellAt(s, i)).Ok?
    ensures DecodeColumns(s, n).Ok?
  {
    if n > 0 {
      DecodeColumnsKnown(s, n - 1);
    }
  }

  /** The first failing column decides the error. */
  lemma {:induction false} DecodeColumnsFirstError(s: EngineState, i: nat, n: nat)
    requires i < n
    requires DecodeColumns(s, i).Ok? && DecodeValue(CellAt(s, i)).Fail?
    ensures DecodeColumns(s, n) == Fail(UnknownType(CellAt(s, i).tag))
    decreases n
  {
    if n > i + 1 {
      DecodeColumnsFirstError(s, i, n - 1);
      DecodeColumnsFailStays(s, n);
    } else {
      var v := DecodeValue(CellAt(s, i));
      assert v == Fail(UnknownType(CellAt(s, i).tag));
      assert DecodeColumns(s, i + 1) == Fail(v.error);
    }
  }

  /** Once a column fails, later columns leave the failure as it is. */
  lemma DecodeColumnsFailStays(s: EngineState, n: nat)
    requires n > 0 && DecodeColumns(s, n - 1).Fail?
    ensures DecodeColumns(s, n) == DecodeColumns(s, n - 1)
  {
  }

  /** `data[cursorSt.columns[index]]`: an index past the keys is the key 'undefined'. */
  function KeyAt(columns: seq<string>, i: nat): string {
    if i < |columns| then columns[i] else "undefined"
  }

  /** The object after the first `n` assignments; a later key overwrites an earlier one. */
  function Fields(columns: seq<string>, values: seq<Value>, n: nat): map<string, Value>
    requires n <= |values|
  {
    if n == 0 then map[] else Fields(columns, values, n - 1)[KeyAt(columns, n - 1) := values[n - 1]]
  }

  /** Every column key maps to the value of the last column carrying it. */
  lemma {:induction false} FieldsLastWins(columns: seq<string>, values: seq<Value>, n: nat, i: nat)
    requires i < n <= |values|
    requires forall j :: i < j < n ==> KeyAt(columns, j) != KeyAt(columns, i)
    ensures KeyAt(columns, i) in Fields(columns, values, n) && Fields(columns, values, n)[KeyAt(columns, i)] == values[i]
    decreases n
  {
    if n > i + 1 {
      FieldsLastWins(columns, values, n - 1, i);
    }
  }

  /** Only the first `n` values are looked at. */
  lemma {:induction false} FieldsPrefix(columns: seq<string>, values: seq<Value>, v: Value, n: nat)
    requires n <= |values|
    ensures Fields(columns, values + [v], n) == Fields(columns, values, n)
  {
    if n > 0 {
      FieldsPrefix(columns, values, v, n - 1);
    }
  }

  /** The row of the first `count` columns, keyed by `columns` or positional. */
  function RowSpec(s: EngineState, count: nat, columns: seq<string>, asObject: bool): Outcome<RowData> {
    var vs := DecodeColumns(s, count);
    if vs.Fail? then Fail(vs.error)
    else if asObject then Ok(ObjectRow(Fields(columns, vs.value, count)))
    else Ok(ArrayRow(vs.value))
  }

  /** The loop of `getResultsAsObject`. */
  method DecodeObjectRow(e: Engine, count: nat, columns: seq<string>) returns (r: Outcome<RowData>)
    ensures r == RowSpec(e.State(), count, columns, true)
  {
    var data := map[];
    ghost var values: seq<Value> := [];
    for index := 0 to count
      invariant DecodeColumns(e.State(), index) == Ok(values)
      invariant data == Fields(columns, values, index)
    {
      var v := DecodeValue(CellAt(e.State(), index));
      if v.Fail? {
        DecodeColumnsFirstError(e.State(), index, count);
        return Fail(v.error);
      }
      FieldsPrefix(columns, values, v.value, index);
      data := data[KeyAt(columns, index) := v.value];
      values := values + [v.value];
    }
    return Ok(ObjectRow(data));
  }

  /** The loop of `getResultsAsArray`. */
  method DecodeArrayRow(e: Engine, count: nat) returns (r: Outcome<RowData>)
    ensures r == RowSpec(e.State(), count, [], false)
  {
    var data: seq<Value> := [];
    for index := 0 to count
      invariant DecodeColumns(e.State(), index) == Ok(data)
    {
      var v := DecodeValue(CellAt(e.State(), index));
      if v.Fail? {
        DecodeColumnsFirstError(e.State(), index, count);
        return Fail(v.error);
      }
      data := data + [v.value];
    }
    return Ok(ArrayRow(data));
  }

  datatype ResultsRun = ResultsRun(result: Outcome<Option<RowData>>, cursor: CursorState, state: EngineState)

  /** `getResultsAsObject` / `getResultsAsArray`: null for a statement without columns. */
  function ResultsSpec(c: CursorState, s: EngineState, asObject: bool): (r: ResultsRun)
    ensures r.state == s.(nameReads := r.state.nameReads)
    ensures r.cursor.built
    ensures r.result.Fail? ==> r.result.error.Thrown?
  {
    var cr := ColumnsSpec(c, s, asObject);
    if cr.count == 0 then ResultsRun(Ok(None), cr.cursor, cr.state)
    else
      var row := RowSpec(cr.state, cr.count, cr.cursor.columns, asObject);
      ResultsRun(if row.Fail? then Fail(row.error) else Ok(Some(row.value)), cr.cursor, cr.state)
  }

  /** `getResultsAsObject`. */
  method GetResultsAsObject(cursor: Cursor, e: Engine) returns (r: Outcome<Option<RowData>>)
    modifies cursor, e
    ensures ResultsRun(r, cursor.State(), e.State()) == ResultsSpec(old(cursor.State()), old(e.State()), true)
  {
    var count := cursor.GetColumns(e, true);
    if count == 0 {
      return Ok(None);
    }
    var row := DecodeObjectRow(e, count, cursor.columns);
    r := if row.Fail? then Fail(row.error) else Ok(Some(row.value));
  }

  /** `getResultsAsArray`. */
  method GetResultsAsArray(cursor: Cursor, e: Engine) returns (r: Outcome<Option<RowData>>)
    modifies cursor, e
    ensures ResultsRun(r, cursor.State(), e.State()) == ResultsSpec(old(cursor.State()), old(e.State()), false)
  {
    var count := cursor.GetColumns(e, false);
    if count == 0 {
      return Ok(None);
    }
    var row := DecodeArrayRow(e, count);
    r := if row.Fail? then Fail(row.error) else Ok(Some(row.value));
  }

  // ---------------------------------------------------------------- getRaw, selectRaw, execRaw

  /** `getRaw`: a row is read only when the first step reports one; the statement is finalized last. */
  function GetRawSpec(s: EngineState, query: string, params: seq<Option<string>>, asObject: bool): Run<Option<RowData>> {
    var p := PrepareSpec(s, query);
    if p.result.Fail? then Run(Fail(p.result.error), p.state)
    else
      var b := BindSpec(p.state, params, 0);
      if b.result.Fail? then Run(Fail(b.result.error), b.state)
      else
        var st := StepSpec(b.state);
        if st.result.Fail? then Run(Fail(st.result.error), st.state)
        else
          var rr := if st.result.value == SQLITE_ROW then ResultsSpec(NEW_CURSOR, st.state, asObject)
                    else ResultsRun(Ok(None), NEW_CURSOR, st.state);
          if rr.result.Fail? then Run(Fail(rr.result.error), rr.state)
          else
            var f := FinalizeSpec(rr.state);
            if f.result.Fail? then Run(Fail(f.result.error), f.state) else Run(Ok(rr.result.value), f.state)
  }

  datatype SelectRun = SelectRun(result: Outcome<seq<RowData>>, cursor: CursorState, state: EngineState)

  /** The `while (true)` loop of `selectRaw`, with the rows gathered so far. */
  function SelectLoop(c: CursorState, s: EngineState, asObject: bool, rows: seq<RowData>): SelectRun
    decreases |s.stepCodes|
  {
    var st := StepSpec(s);
    if st.result.Fail? then SelectRun(Fail(st.result.error), c, st.state)
    else if st.result.value == SQLITE_ROW then
      var rr := ResultsSpec(c, st.state, asObject);
      if rr.result.Fail? then SelectRun(Fail(rr.result.error), rr.cursor, rr.state)
      else SelectLoop(rr.cursor, rr.state, asObject, rows + (if rr.result.value.Some? then [rr.result.value.value] else []))
    else SelectRun(Ok(rows), c, st.state)
  }

  /** `selectRaw`. */
  function SelectRawSpec(s: EngineState, query: string, params: seq<Option<string>>, asObject: bool): Run<seq<RowData>> {
    var p := PrepareSpec(s, query);
    if p.result.Fail? then Run(Fail(p.result.error), p.state)
    else
      var b := BindSpec(p.state, params, 0);
      if b.result.Fail? then Run(Fail(b.result.error), b.state)
      else
        var l := SelectLoop(NEW_CURSOR, b.state, asObject, []);
        if l.result.Fail? then Run(Fail(l.result.error), l.state)
        else
          var f := FinalizeSpec(l.state);
          if f.result.Fail? then Run(Fail(f.result.error), f.state) else Run(Ok(l.result.value), f.state)
  }

  /** `execRaw`: prepare, bind, one step whose code is not looked at, finalize. */
  function ExecRawSpec(s: EngineState, query: string, params: seq<Option<string>>): Run<()> {
    var p := PrepareSpec(s, query);
    if p.result.Fail? then p
    else
      var b := BindSpec(p.state, params, 0);
      if b.result.Fail? then b
      else
        var st := StepSpec(b.state);
        if st.result.Fail? then Run(Fail(st.result.error), st.state)
        else FinalizeSpec(st.state)
  }

  method GetRaw(e: Engine, query: string, params: seq<Option<string>>, asObject: bool) returns (r: Outcome<Option<RowData>>)
    modifies e
    ensures Run(r, e.State()) == GetRawSpec(old(e.State()), query, params, asObject)
  {
    var p := PrepareStatement(e, query);
    if p.Fail? {
      return Fail(p.error);
    }
    var cursor := new Cursor();
    var b := Bind(params, e);
    if b.Fail? {
      return Fail(b.error);
    }
    var result := Step(e);
    if result.Fail? {
      return Fail(result.error);
    }
    var data: Outcome<Option<RowData>> := Ok(None);
    if result.value == SQLITE_ROW {
      if asObject {
        data := GetResultsAsObject(cursor, e);
      } else {
        data := GetResultsAsArray(cursor, e);
      }
      if data.Fail? {
        return data;
      }
    }
    var f := Finalize(e);
    if f.Fail? {
      return Fail(f.error);
    }
    return data;
  }

  method SelectRaw(e: Engine, query: string, params: seq<Option<string>>, asObject: bool) returns (r: Outcome<seq<RowData>>)
    modifies e
    ensures Run(r, e.State()) == SelectRawSpec(old(e.State()), query, params, asObject)
  {
    var p := PrepareStatement(e, query);
    if p.Fail? {
      return Fail(p.error);
    }
    var cursor := new Cursor();
    var b := Bind(params, e);
    if b.Fail? {
      return Fail(b.error);
    }
    ghost var start := e.State();
    var rows: seq<RowData> := [];
    while true
      invariant fresh(cursor)
      invariant SelectLoop(NEW_CURSOR, start, asObject, []) == SelectLoop(cursor.State(), e.State(), asObject, rows)
      decreases |e.stepCodes|
    {
      var result := Step(e);
      if result.Fail? {
        return Fail(result.error);
      }
      if result.value == SQLITE_ROW {
        var row;
        if asObject {
          row := GetResultsAsObject(cursor, e);
        } else {
          row := GetResultsAsArray(cursor, e);
        }
        if row.Fail? {
          return Fail(row.error);
        }
        if row.value.Some? {
          rows := rows + [row.value.value];
        } else {
          assert rows + [] == rows;
        }
      } else {
        break;
      }
    }
    var f := Finalize(e);
    if f.Fail? {
      return Fail(f.error);
    }
    return Ok(rows);
  }

  method ExecRaw(e: Engine, query: string, params: seq<Option<string>>) returns (r: Outcome<()>)
    modifies e
    ensures Run(r, e.State()) == ExecRawSpec(old(e.State()), query, params)
  {
    var p := PrepareStatement(e, query);
    if p.Fail? {
      return p;
    }
    var b := Bind(params, e);
    if b.Fail? {
      return b;
    }
    var result := Step(e);
    if result.Fail? {
      return Fail(result.error);
    }
    r := Finalize(e);
  }

  // ---------------------------------------------------------------- properties of the three runs

  /**
   * Every run logs its text once; the statement is finalized on every path
   * but one: an undecodable column throws before `finalize` is reached and
   * leaves the statement open. That error is only possible once the first
   * step has reported a row.
   */
  lemma GetRawAccounting(s: EngineState, query: string, params: seq<Option<string>>, asObject: bool)
    ensures var r := GetRawSpec(s, query, params, asObject);
      && r.state.log == s.log + [query]
      && r.state.open == (if r.result.Fail? && r.result.error.Thrown? then s.open + 1 else s.open)
      && (r.result.Fail? && r.result.error.Thrown? ==>
            !s.closed && Next(s.stepCodes, SQLITE_DONE) == SQLITE_ROW)
  {
    var p := PrepareSpec(s, query);
    if p.result.Ok? {
      BindEffect(p.state, params, 0);
      var b := BindSpec(p.state, params, 0);
      if b.result.Ok? {
        StepEffect(b.state);
      }
    }
  }

  /**
   * A row comes back exactly when the first step reports one and the
   * statement has columns; it is the first scripted row, read column by
   * column under the keys the cursor lays out.
   */
  lemma GetRawReadsFirstRow(s: EngineState, query: string, params: seq<Option<string>>, asObject: bool)
    ensures var r := GetRawSpec(s, query, params, asObject);
      r.result.Ok? ==>
        && (r.result.value.Some? <==> Next(s.stepCodes, SQLITE_DONE) == SQLITE_ROW && |s.names| > 0)
        && (r.result.value.Some? ==>
              Ok(r.result.value.value)
              == RowSpec(s.(current := FirstRow(s)), |s.names|, ColumnLayout([], s.names, |s.names|), asObject))
  {
    var p := PrepareSpec(s, query);
    if p.result.Ok? {
      BindEffect(p.state, params, 0);
      var b := BindSpec(p.state, params, 0);
      if b.result.Ok? {
        StepEffect(b.state);
        var st := StepSpec(b.state);
        if st.result.Ok? && st.result.value == SQLITE_ROW {
          assert st.state.current == FirstRow(s);
          var n := |s.names|;
          var cr := ColumnsSpec(NEW_CURSOR, st.state, asObject);
          assert cr.count == n;
          DecodeColumnsCurrent(cr.state, s.(current := FirstRow(s)), n);
          assert asObject ==> cr.cursor.columns == ColumnLayout([], s.names, n);
        }
      }
    }
  }

  /** Decoding looks at the current row only. */
  lemma {:induction false} DecodeColumnsCurrent(s: EngineState, t: EngineState, n: nat)
    requires s.current == t.current
    ensures DecodeColumns(s, n) == DecodeColumns(t, n)
  {
    if n > 0 {
      DecodeColumnsCurrent(s, t, n - 1);
    }
  }

  /** Prepare, bind and finalize all succeed (their queues are used up) on an open connection. */
  predicate Clean(s: EngineState) {
    !s.closed && s.prepareCodes == [] && s.bindCodes == [] && s.finalizeCodes == []
  }

  /** Every cell of the first `k` rows, in the first `n` columns, has a known storage class. */
  predicate Decodable(rows: seq<Row>, k: nat, n: nat) {
    k <= |rows| && forall i, j :: 0 <= i < k && 0 <= j < n ==> DecodeValue(CellOf(rows[i], j)).Ok?
  }

  /** The values of the first `n` columns of a decodable row. */
  function DecodedRow(row: Row, n: nat): (r: seq<Value>)
    requires forall j :: 0 <= j < n ==> DecodeValue(CellOf(row, j)).Ok?
    ensures |r| == n && forall j :: 0 <= j < n ==> Ok(r[j]) == DecodeValue(CellOf(row, j))
  {
    seq(n, j requires 0 <= j < n => DecodeValue(CellOf(row, j)).value)
  }

  /** A decodable row as `selectRaw` delivers it: an object under `columns`, or the values in order. */
  function RowOf(row: Row, n: nat, columns: seq<string>, asObject: bool): RowData
    requires forall j :: 0 <= j < n ==> DecodeValue(CellOf(row, j)).Ok?
  {
    var values := DecodedRow(row, n);
    if asObject then ObjectRow(Fields(columns, values, n)) else ArrayRow(values)
  }

  /**
   * The rows of the first `k` scripted rows, in order; none at all for a
   * statement without columns.
   */
  function SelectedRows(rows: seq<Row>, k: nat, n: nat, columns: seq<string>, asObject: bool): (r: seq<RowData>)
    requires Decodable(rows, k, n)
    ensures n == 0 ==> r == []
    ensures n > 0 ==> |r| == k
    ensures n > 0 && !asObject ==> forall i :: 0 <= i < k ==> r[i] == ArrayRow(DecodedRow(rows[i], n))
    ensures n > 0 && asObject ==> forall i :: 0 <= i < k ==> r[i] == ObjectRow(Fields(columns, DecodedRow(rows[i], n), n))
  {
    if n == 0 then [] else seq(k, i requires 0 <= i < k => RowOf(rows[i], n, columns, asObject))
  }

  /** The step script: `k` rows, then a code that ends the loop without an error. */
  predicate RowsThenDone(codes: seq<int>, k: nat) {
    k <= |codes| && (forall i :: 0 <= i < k ==> codes[i] == SQLITE_ROW)
    && (k < |codes| ==> codes[k] == SQLITE_OK || codes[k] == SQLITE_DONE)
  }

  /** The cursor after `getColumns` on a statement whose columns are named `names`. */
  function BuiltCursor(c: CursorState, names: seq<string>, asObject: bool): CursorState {
    if c.built then c
    else if asObject then CursorState(true, ColumnLayout(c.columns, names, |names|), |names|)
    else c.(built := true, count := |names|)
  }

  /** The engine after a step onto the next row and a `getColumns` that reads the names only when it builds the keys. */
  function Stepped(s: EngineState, c: CursorState, asObject: bool): EngineState
    requires s.stepCodes != [] && s.rows != []
  {
    s.(stepCodes := s.stepCodes[1..], current := s.rows[0], rows := s.rows[1..],
       nameReads := s.nameReads + (if asObject && !c.built then |s.names| else 0))
  }

  /** What one row adds to the rows gathered so far. */
  function RowAdded(row: Row, n: nat, columns: seq<string>, asObject: bool): seq<RowData>
    requires forall j :: 0 <= j < n ==> DecodeValue(CellOf(row, j)).Ok?
  {
    if n == 0 then [] else [RowOf(row, n, columns, asObject)]
  }

  /** One pass of the loop: step onto the next row and add it, as an object or as an array. */
  lemma SelectLoopStep(c: CursorState, s: EngineState, asObject: bool, acc: seq<RowData>)
    requires s.stepCodes != [] && s.stepCodes[0] == SQLITE_ROW && s.rows != []
    requires forall j :: 0 <= j < |s.names| ==> DecodeValue(CellOf(s.rows[0], j)).Ok?
    requires !c.built || c.count == |s.names|
    ensures var built := BuiltCursor(c, s.names, asObject);
      SelectLoop(c, s, asObject, acc)
      == SelectLoop(built, Stepped(s, c, asObject), asObject, acc + RowAdded(s.rows[0], |s.names|, built.columns, asObject))
  {
    var n := |s.names|;
    var st := StepSpec(s);
    var next := s.(stepCodes := s.stepCodes[1..], current := s.rows[0], rows := s.rows[1..]);
    assert st == Run(Ok(SQLITE_ROW), next);
    var built := BuiltCursor(c, s.names, asObject);
    var cr := ColumnsSpec(c, next, asObject);
    assert cr == ColumnsRun(n, built, Stepped(s, c, asObject));
    var rr := ResultsSpec(c, next, asObject);
    if n > 0 {
      forall j | 0 <= j < n
        ensures DecodeValue(CellAt(cr.state, j)).Ok?
      {
        assert CellAt(cr.state, j) == CellOf(s.rows[0], j);
      }
      DecodeColumnsKnown(cr.state, n);
      assert DecodeColumns(cr.state, n).value == DecodedRow(s.rows[0], n);
      assert rr == ResultsRun(Ok(Some(RowOf(s.rows[0], n, built.columns, asObject))), built, cr.state);
    } else {
      assert rr == ResultsRun(Ok(None), built, cr.state);
      assert acc + [] == acc;
    }
  }

  /** The loop gathers the rows it steps onto, in step order, after those gathered before. */
  lemma {:induction false} SelectLoopInOrder(c: CursorState, s: EngineState, asObject: bool, k: nat, acc: seq<RowData>)
    requires RowsThenDone(s.stepCodes, k) && Decodable(s.rows, k, |s.names|)
    requires !c.built || c.count == |s.names|
    ensures SelectLoop(c, s, asObject, acc).result
         == Ok(acc + SelectedRows(s.rows, k, |s.names|, BuiltCursor(c, s.names, asObject).columns, asObject))
    decreases k, 1
  {
    if k == 0 {
      StepEffect(s);
      assert acc + [] == acc;
    } else {
      SelectLoopNextRow(c, s, asObject, k, acc);
    }
  }

  /** The turn of the loop that steps onto a row, then the rest of the loop. */
  lemma {:induction false} SelectLoopNextRow(c: CursorState, s: EngineState, asObject: bool, k: nat, acc: seq<RowData>)
    requires 0 < k && RowsThenDone(s.stepCodes, k) && Decodable(s.rows, k, |s.names|)
    requires !c.built || c.count == |s.names|
    ensures SelectLoop(c, s, asObject, acc).result
         == Ok(acc + SelectedRows(s.rows, k, |s.names|, BuiltCursor(c, s.names, asObject).columns, asObject))
    decreases k, 0
  {
    var n := |s.names|;
    var built := BuiltCursor(c, s.names, asObject);
    NextRowFacts(c, s, asObject, k);
    var next := Stepped(s, c, asObject);
    var added := RowAdded(s.rows[0], n, built.columns, asObject);
    SelectLoopStep(c, s, asObject, acc);
    SelectedRowsCons(s.rows, k, n, built.columns, asObject);
    SelectLoopInOrder(built, next, asObject, k - 1, acc + added);
    AppendAssoc(acc, added, SelectedRows(next.rows, k - 1, n, built.columns, asObject));
  }

  /** What holds after the loop steps onto the first of `k` rows. */
  lemma NextRowFacts(c: CursorState, s: EngineState, asObject: bool, k: nat)
    requires 0 < k && RowsThenDone(s.stepCodes, k) && Decodable(s.rows, k, |s.names|)
    requires !c.built || c.count == |s.names|
    ensures s.stepCodes != [] && s.stepCodes[0] == SQLITE_ROW && s.rows != []
    ensures forall j :: 0 <= j < |s.names| ==> DecodeValue(CellOf(s.rows[0], j)).Ok?
    ensures var next := Stepped(s, c, asObject); var built := BuiltCursor(c, s.names, asObject);
      && next.rows == s.rows[1..] && next.names == s.names
      && RowsThenDone(next.stepCodes, k - 1) && Decodable(next.rows, k - 1, |s.names|)
      && BuiltCursor(built, next.names, asObject) == built && built.count == |s.names|
  {
    assert s.stepCodes[0] == SQLITE_ROW;
    forall i, j | 0 <= i < k - 1 && 0 <= j < |s.names|
      ensures DecodeValue(CellOf(s.rows[1..][i], j)).Ok?
    {
      assert s.rows[1..][i] == s.rows[i + 1];
    }
    var next := Stepped(s, c, asObject);
    forall i | 0 <= i < k - 1
      ensures next.stepCodes[i] == SQLITE_ROW
    {
      assert next.stepCodes[i] == s.stepCodes[i + 1];
    }
  }

  lemma AppendAssoc<T>(a: seq<T>, b: seq<T>, c: seq<T>)
    ensures (a + b) + c == a + (b + c)
  {
  }

  /** The gathered rows are the first row's, then those of the others. */
  lemma SelectedRowsCons(rows: seq<Row>, k: nat, n: nat, columns: seq<string>, asObject: bool)
    requires 0 < k && Decodable(rows, k, n)
    ensures Decodable(rows[1..], k - 1, n)
    ensures SelectedRows(rows, k, n, columns, asObject)
         == RowAdded(rows[0], n, columns, asObject) + SelectedRows(rows[1..], k - 1, n, columns, asObject)
  {
    forall i, j | 0 <= i < k - 1 && 0 <= j < n
      ensures DecodeValue(CellOf(rows[1..][i], j)).Ok?
    {
      assert rows[1..][i] == rows[i + 1];
    }
    if n > 0 {
      var r, t := SelectedRows(rows, k, n, columns, asObject), SelectedRows(rows[1..], k - 1, n, columns, asObject);
      forall i | 0 <= i < k - 1
        ensures t[i] == r[i + 1]
      {
        assert rows[1..][i] == rows[i + 1];
      }
      assert r[0] == RowOf(rows[0], n, columns, asObject);
      assert r == [r[0]] + t;
    }
  }

  /**
   * `select` and `selectArray` on a clean connection: all the rows the
   * statement steps onto, in order, as objects under the keys the cursor
   * lays out or as arrays, and the statement finalized.
   */
  lemma SelectRawInOrder(s: EngineState, query: string, params: seq<Option<string>>, asObject: bool, k: nat)
    requires Clean(s) && RowsThenDone(s.stepCodes, k) && Decodable(s.rows, k, |s.names|)
    ensures var r := SelectRawSpec(s, query, params, asObject);
      && r.result == Ok(SelectedRows(s.rows, k, |s.names|, ColumnLayout([], s.names, |s.names|), asObject))
      && r.state.open == s.open
      && r.state.log == s.log + [query]
  {
    var p := PrepareSpec(s, query);
    BindEffect(p.state, params, 0);
    var b := BindSpec(p.state, params, 0);
    SelectLoopInOrder(NEW_CURSOR, b.state, asObject, k, []);
    var n := |s.names|;
    var columns := BuiltCursor(NEW_CURSOR, b.state.names, asObject).columns;
    if asObject {
      assert columns == ColumnLayout([], s.names, n);
    } else if n > 0 {
      var x, y := SelectedRows(s.rows, k, n, columns, false), SelectedRows(s.rows, k, n, ColumnLayout([], s.names, n), false);
      assert forall i :: 0 <= i < k ==> x[i] == y[i];
      assert x == y;
    }
    assert [] + SelectedRows(s.rows, k, n, ColumnLayout([], s.names, n), asObject)
        == SelectedRows(s.rows, k, n, ColumnLayout([], s.names, n), asObject);
    SelectLoopEffect(NEW_CURSOR, b.state, asObject, []);
  }

  /**
   * `select` on a statement whose column names are non-empty and distinct:
   * row i maps each column's own name to that column's value in the i-th row.
   */
  lemma SelectObjectsByName(s: EngineState, query: string, params: seq<Option<string>>, k: nat, i: nat, j: nat)
    requires Clean(s) && RowsThenDone(s.stepCodes, k) && Decodable(s.rows, k, |s.names|)
    requires forall c :: 0 <= c < |s.names| ==> s.names[c] != ""
    requires forall c, d :: 0 <= c < d < |s.names| ==> s.names[c] != s.names[d]
    requires i < k && j < |s.names|
    ensures var r := SelectRawSpec(s, query, params, true).result;
      && r.Ok? && |r.value| == k && r.value[i].ObjectRow?
      && s.names[j] in r.value[i].fields
      && r.value[i].fields[s.names[j]] == DecodedRow(s.rows[i], |s.names|)[j]
  {
    var n := |s.names|;
    SelectRawInOrder(s, query, params, true, k);
    DistinctNamesKept(s.names, n);
    assert s.names[..n] == s.names;
    var values := DecodedRow(s.rows[i], n);
    FieldsLastWins(s.names, values, n, j);
  }

  /** The loop leaves the log, the queues of prepare and bind, and the closed flag alone; it finalizes only on a step error. */
  lemma {:induction false} SelectLoopEffect(c: CursorState, s: EngineState, asObject: bool, acc: seq<RowData>)
    ensures var r := SelectLoop(c, s, asObject, acc);
      && r.state.log == s.log && r.state.closed == s.closed
      && r.state.prepareCodes == s.prepareCodes && r.state.bindCodes == s.bindCodes
      && r.state.open == (if r.result.Fail? && r.result.error.Normalized? && s.open > 0 then s.open - 1 else s.open)
      && (r.result.Ok? ==> r.state.finalizeCodes == s.finalizeCodes)
    decreases |s.stepCodes|
  {
    StepEffect(s);
    var st := StepSpec(s);
    if st.result.Ok? && st.result.value == SQLITE_ROW {
      var rr := ResultsSpec(c, st.state, asObject);
      if rr.result.Ok? {
        SelectLoopEffect(rr.cursor, rr.state, asObject, acc + (if rr.result.value.Some? then [rr.result.value.value] else []));
      }
    }
  }

  /**
   * `execRaw`: the text is logged, the statement is always finalized, any
   * error is a normalized one, and on a clean connection a step that ends
   * without an error makes the whole run succeed and keeps the connection clean.
   */
  lemma ExecRawEffect(s: EngineState, query: string, params: seq<Option<string>>)
    ensures var r := ExecRawSpec(s, query, params);
      && r.state.log == s.log + [query]
      && r.state.open == s.open
      && r.state.closed == s.closed
      && (r.result.Fail? ==> r.result.error.Normalized?)
      && (Clean(s) && StepCodeAccepted(Next(s.stepCodes, SQLITE_DONE)) ==> r.result.Ok? && Clean(r.state))
      && (s.closed ==> r.result == Fail(Normalized("prepareStatement: ", SQLITE_MISUSE)))
  {
    var p := PrepareSpec(s, query);
    if p.result.Ok? {
      BindEffect(p.state, params, 0);
      var b := BindSpec(p.state, params, 0);
      if b.result.Ok? {
        StepEffect(b.state);
      }
    }
  }
}
