/**
 * The `database/sql` driver objects of nuodb.go: a connection, a prepared
 * statement, an open result set and a transaction. Each holds the handle the
 * native side gave it; closing nulls the handle, and the guards on a null
 * handle answer without calling the native side.
 */
module Driver {
  import opened Wrappers
  import opened Wire
  import Errors
  import SqlText
  import opened Deadline
  import opened Values
  import opened NativeApi

  /** A parameter or column count as the native side reports it (a C `int`). */
  type Count = n: int | 0 <= n < 0x8000_0000

  /** The errors the driver returns. */
  datatype DriverError =
    | Uninitialized                      // errUninitialized
    | Closed                             // errClosed
    | Skip                               // driver.ErrSkip
    | Eof                                // io.EOF
    | NuoError(err: Errors.Error)        // *Error from lastError
    | ContextDone(ctxErr: ContextError)  // ctx.Err()
    | NamedValues(message: string)       // from namedValuesToValues
    | BindFailed(cause: DriverError)     // "bind: ..."
    | ConnCloseFailed(rc: int)           // "nuodb: conn close failed: ..."

  /** The error a failed native call reports: its status and the message the handle held after it. */
  function NativeError(call: Call): DriverError
  {
    NuoError(Errors.Error(call.rc, call.text))
  }

  /**
   * `Conn.lastError`: without a handle the connection is uninitialized;
   * otherwise the status code with the native side's current message.
   */
  function LastError(c: Conn?, rc: int): (e: DriverError)
    reads c
    reads if c != null && c.db != null then {c.db} else {}
    ensures e == Uninitialized <==> c == null || c.db == null
    ensures e.NuoError? ==> c != null && c.db != null && e.err.code == rc && e.err.message == c.db.error
    ensures e.NuoError? ==> Errors.ErrorString(e.err) == Errors.ErrorPrefix + c.db.error
  {
    if c == null || c.db == null then Uninitialized
    else NuoError(Errors.Error(rc, c.db.error))
  }

  /** `driver.Result`: `driver.ResultNoRows`, or the counts the native side reported. */
  datatype ExecResult = NoRows | Affected(rowsAffected: I64, lastInsertId: I64)

  /** The zero-rows rule: a DDL statement that touched no rows has no result. */
  function Normalize(rowsAffected: I64, lastInsertId: I64, ddl: bool): (r: ExecResult)
    ensures r == NoRows <==> rowsAffected == 0 && ddl
    ensures r.Affected? ==> r.rowsAffected == rowsAffected && r.lastInsertId == lastInsertId
  {
    if rowsAffected == 0 && ddl then NoRows else Affected(rowsAffected, lastInsertId)
  }

  const NoRowsAffected: string := "no RowsAffected available after DDL statement"
  const NoLastInsertId: string := "no LastInsertId available after DDL statement"

  /** `Result.RowsAffected`, and the error `driver.ResultNoRows` answers. */
  function RowsAffected(r: ExecResult): (n: Result<I64, string>)
    ensures n.Err? <==> r.NoRows?
    ensures n.Err? ==> n.error == NoRowsAffected
    ensures n.Ok? ==> n.value == r.rowsAffected
  {
    if r.NoRows? then Err(NoRowsAffected) else Ok(r.rowsAffected)
  }

  /** `Result.LastInsertId`, and the error `driver.ResultNoRows` answers. */
  function LastInsertId(r: ExecResult): (id: Result<I64, string>)
    ensures id.Err? <==> r.NoRows?
    ensures id.Err? ==> id.error == NoLastInsertId
    ensures id.Ok? ==> id.value == r.lastInsertId
  {
    if r.NoRows? then Err(NoLastInsertId) else Ok(r.lastInsertId)
  }

  /**
   * The counts survive normalisation unless the statement is DDL and touched
   * no rows, in which case neither count is available.
   */
  lemma NormalizeKeepsCounts(rowsAffected: I64, lastInsertId: I64, ddl: bool)
    ensures Normalize(rowsAffected, lastInsertId, ddl) == NoRows <==> rowsAffected == 0 && ddl
    ensures RowsAffected(Normalize(rowsAffected, lastInsertId, ddl)).Ok? ==>
      RowsAffected(Normalize(rowsAffected, lastInsertId, ddl)).value == rowsAffected
    ensures LastInsertId(Normalize(rowsAffected, lastInsertId, ddl)).Ok? ==>
      LastInsertId(Normalize(rowsAffected, lastInsertId, ddl)).value == lastInsertId
    ensures RowsAffected(Normalize(rowsAffected, lastInsertId, ddl)).Err? <==> rowsAffected == 0 && ddl
  {
  }

  /** A DML statement always reports its counts, even zero. */
  lemma DmlKeepsCounts(sql: string, rowsAffected: I64, lastInsertId: I64)
    requires SqlText.IsDml(sql)
    ensures Normalize(rowsAffected, lastInsertId, SqlText.IsDdl(sql)) == Affected(rowsAffected, lastInsertId)
  {
  }

  /** CREATE TABLE touching no rows has no result; a SELECT touching none still reports 0. */
  lemma ZeroRowsExamples(lastInsertId: I64)
    ensures Normalize(0, lastInsertId, SqlText.IsDdl("CREATE TABLE t (id INT)")) == NoRows
    ensures Normalize(0, lastInsertId, SqlText.IsDdl("SELECT * FROM t WHERE id = ?")) == Affected(0, lastInsertId)
  {
    SqlText.CreateTableIsDdl();
    SqlText.SelectIsDml();
  }

  /** `after` is `before` with `k` more calls. */
  ghost predicate Extends(before: seq<Call>, after: seq<Call>, k: nat)
  {
    |after| == |before| + k && after[..|before|] == before
  }

  /**
   * The parameters `Stmt.bind` sends, or none when it returns early because
   * the statement takes no parameters or there are no arguments.
   */
  function BoundParameters(args: seq<DriverValue>, parameterCount: Count): Option<seq<NuoValue>>
  {
    if parameterCount == 0 || |args| == 0 then None else Some(Parameters(args, parameterCount))
  }

  /** Setting up a statement run stops only on a bind failure or a done context. */
  function SetUpError<T>(r: Result<T, DriverError>): Option<DriverError>
  {
    if r.Err? && (r.error.BindFailed? || r.error.ContextDone?) then Some(r.error) else None
  }

  /** Where the statement itself runs in the trace, after the bind (if any) and the timeout. */
  function RunIndex(calls0: seq<Call>, params: Option<seq<NuoValue>>): nat
  {
    |calls0| + (if params.Some? then 1 else 0) + 1
  }

  /**
   * The calls that set a statement run up, starting from trace `calls0`: the
   * bind when there is one, then, once it succeeded and the context is not
   * done, the timeout. `stop` is the error that ended the run there, if any.
   */
  ghost predicate SetUp(calls0: seq<Call>, calls: seq<Call>, params: Option<seq<NuoValue>>,
                        budget: Result<I64, ContextError>, stop: Option<DriverError>)
  {
    var n := |calls0|;
    var b := if params.Some? then 1 else 0;
    && n + b <= |calls|
    && calls[..n] == calls0
    && (params.Some? ==> calls[n].op == Op.Bind(params.value))
    && if params.Some? && calls[n].rc != 0 then
         |calls| == n + 1 && stop == Some(BindFailed(NativeError(calls[n])))
       else if budget.Err? then
         |calls| == n + b && stop == Some(ContextDone(budget.error))
       else
         stop.None? && n + b < |calls| && calls[n + b].op == Op.SetQueryMicros(budget.value)
  }

  /**
   * `execQuery` from trace `calls0`: set up, then one execute call whose
   * counts are normalised, or whose failure is reported.
   */
  ghost predicate ExecSpec(calls0: seq<Call>, calls: seq<Call>, params: Option<seq<NuoValue>>,
                           budget: Result<I64, ContextError>, ddl: bool, r: Result<ExecResult, DriverError>)
  {
    && SetUp(calls0, calls, params, budget, SetUpError(r))
    && (SetUpError(r).None? ==>
          var k := RunIndex(calls0, params);
          && |calls| == k + 1
          && calls[k].op.StatementExecute?
          && r == if calls[k].rc != 0 then Err(NativeError(calls[k]))
                  else Ok(Normalize(calls[k].op.rowsAffected, calls[k].op.lastInsertId, ddl)))
  }

  /**
   * `queryContext` from trace `calls0`: set up, then the query call and, when
   * it reported columns, one call fetching all their names.
   */
  ghost predicate QuerySpec<T>(calls0: seq<Call>, calls: seq<Call>, params: Option<seq<NuoValue>>,
                               budget: Result<I64, ContextError>, r: Result<T, DriverError>)
  {
    && SetUp(calls0, calls, params, budget, SetUpError(r))
    && (SetUpError(r).None? ==>
          var k := RunIndex(calls0, params);
          && k < |calls|
          && calls[k].op.Query?
          && (calls[k].rc != 0 ==> |calls| == k + 1 && r == Err(NativeError(calls[k])))
          && (calls[k].rc == 0 && calls[k].op.columnCount <= 0 ==> |calls| == k + 1 && r.Ok?)
          && (calls[k].rc == 0 && calls[k].op.columnCount > 0 ==>
                && |calls| == k + 2
                && calls[k + 1].op.ColumnNames?
                && |calls[k + 1].op.names| == calls[k].op.columnCount
                && (r.Ok? <==> calls[k + 1].rc == 0)
                && (r.Err? ==> r.error == NativeError(calls[k + 1]))))
  }

  /** Every name reference can be read. */
  predicate NamesReadable(names: seq<NuoValue>, mem: Memory)
  {
    forall i :: 0 <= i < |names| ==> Readable(mem, names[i].i64, names[i].i32)
  }

  /** A column label: exactly `i32` bytes, or empty when `i32` is not positive. */
  function ColumnName(w: NuoValue, mem: Memory): (name: seq<Byte>)
    requires Readable(mem, w.i64, w.i32)
    ensures |name| == if w.i32 > 0 then w.i32 else 0
  {
    Load(mem, w.i64, w.i32)
  }

  /** The loop of `queryContext` that copies every column label out of native memory. */
  method ReadLabels(names: array<NuoValue>, mem: Memory) returns (labels: seq<seq<Byte>>)
    requires NamesReadable(names[..], mem)
    ensures |labels| == names.Length
    ensures forall j :: 0 <= j < names.Length ==> labels[j] == ColumnName(names[j], mem)
  {
    labels := [];
    var i := 0;
    while i < names.Length
      invariant 0 <= i <= names.Length
      invariant |labels| == i
      invariant forall j :: 0 <= j < i ==> labels[j] == ColumnName(names[j], mem)
    {
      labels := labels + [ColumnName(names[i], mem)];
      i := i + 1;
    }
  }

  /** The database connection (`Conn`). */
  class Conn {
    /** The native handle; null once closed. */
    var db: Native?
    /** The zone fetched times are shown in. */
    const loc: Location

    /** A connection over an open handle (what `newConn` produces). */
    constructor (db: Native?, loc: Location)
      ensures this.db == db && this.loc == loc
    {
      this.db := db;
      this.loc := loc;
    }

    /** `Conn.Prepare` */
    method Prepare(sql: string) returns (r: Result<Stmt, DriverError>)
      modifies db
      ensures db == old(db)
      ensures old(db) == null ==> r == Err(Uninitialized)
      ensures db != null ==>
        var n := |old(db.calls)|;
        && Extends(old(db.calls), db.calls, 1)
        && db.calls[n].op.Prepare? && db.calls[n].op.sql == sql
        && db.autoCommit == old(db.autoCommit)
        && (r.Err? <==> db.calls[n].rc != 0)
        && (r.Err? ==> r.error == NativeError(db.calls[n]))
        && (r.Ok? ==>
              && fresh(r.value) && r.value.c == this && r.value.st != null
              && r.value.parameterCount == db.calls[n].op.parameterCount
              && r.value.ddl == SqlText.IsDdl(sql))
    {
      if db == null {
        return Err(Uninitialized);
      }
      var rc, st, parameterCount := db.Prepare(sql);
      if rc != 0 {
        return Err(LastError(this, rc));
      }
      var stmt := new Stmt(this, st, parameterCount, SqlText.IsDdl(sql));
      return Ok(stmt);
    }

    /**
     * `Conn.Begin`: saves the autocommit mode in the transaction, then turns
     * autocommit off.
     */
    method Begin() returns (r: Result<Tx, DriverError>)
      modifies db
      ensures db == old(db)
      ensures old(db) == null ==> r == Err(Uninitialized)
      ensures db != null ==>
        var n := |old(db.calls)|;
        && n < |db.calls| && db.calls[..n] == old(db.calls)
        && db.calls[n].op.GetAutoCommit?
        && (db.calls[n].rc != 0 ==>
              |db.calls| == n + 1 && r == Err(NativeError(db.calls[n])) && db.autoCommit == old(db.autoCommit))
        && (db.calls[n].rc == 0 ==>
              && |db.calls| == n + 2 && db.calls[n + 1].op == Op.SetAutoCommit(0)
              && (db.calls[n + 1].rc != 0 ==>
                    r == Err(NativeError(db.calls[n + 1])) && db.autoCommit == old(db.autoCommit))
              && (db.calls[n + 1].rc == 0 ==>
                    && r.Ok? && fresh(r.value) && r.value.c == this
                    && r.value.autoCommit == (if old(db.autoCommit) then 1 else 0)
                    && !db.autoCommit))
    {
      if db == null {
        return Err(Uninitialized);
      }
      var rc1, state := db.GetAutoCommit();
      if rc1 != 0 {
        return Err(LastError(this, rc1));
      }
      var rc2 := db.SetAutoCommit(0);
      if rc2 != 0 {
        return Err(LastError(this, rc2));
      }
      var tx := new Tx(this, state);
      return Ok(tx);
    }

    /** `Conn.Exec`: arguments are left to `database/sql` (ErrSkip); otherwise as ExecContext without a deadline. */
    method Exec(sql: string, args: seq<DriverValue>) returns (r: Result<ExecResult, DriverError>)
      requires args == [] ==> db != null
      modifies db
      ensures args != [] ==> r == Err(Skip) && (db != null ==> unchanged(db))
      ensures args == [] ==>
        var n := |old(db.calls)|;
        && Extends(old(db.calls), db.calls, 1)
        && db.calls[n].op.Execute? && db.calls[n].op.sql == sql && db.calls[n].op.micros == 0
        && r == if db.calls[n].rc != 0 then Err(NativeError(db.calls[n]))
                else Ok(Normalize(db.calls[n].op.rowsAffected, db.calls[n].op.lastInsertId, SqlText.IsDdl(sql)))
    {
      if |args| > 0 {
        return Err(Skip);
      }
      r := ExecContext(Background, 0, sql, []);
    }

    /**
     * `Conn.ExecContext`: ErrSkip for any arguments and a context error before
     * any native call; otherwise one direct execution under the timeout
     * budget, with the zero-rows rule applied to the outcome.
     */
    method ExecContext(ctx: Context, now: I64, sql: string, args: seq<NamedValue>)
      returns (r: Result<ExecResult, DriverError>)
      requires args == [] ==> db != null
      modifies db
      ensures args != [] ==> r == Err(Skip) && (db != null ==> unchanged(db))
      ensures args == [] && BudgetAsWritten(ctx, now).Err? ==>
        r == Err(ContextDone(BudgetAsWritten(ctx, now).error)) && unchanged(db)
      ensures args == [] && BudgetAsWritten(ctx, now).Ok? ==>
        var n := |old(db.calls)|;
        && Extends(old(db.calls), db.calls, 1)
        && db.calls[n].op.Execute?
        && db.calls[n].op.sql == sql
        && db.calls[n].op.micros == BudgetAsWritten(ctx, now).value
        && db.autoCommit == old(db.autoCommit)
        && r == if db.calls[n].rc != 0 then Err(NativeError(db.calls[n]))
                else Ok(Normalize(db.calls[n].op.rowsAffected, db.calls[n].op.lastInsertId, SqlText.IsDdl(sql)))
    {
      if |args| > 0 {
        return Err(Skip);
      }
      var (uSec, ctxErr) := MicrosUntilDeadline(ctx, now);
      if ctxErr.Some? {
        return Err(ContextDone(ctxErr.value));
      }
      var rc, rowsAffected, lastInsertId := db.Execute(sql, uSec);
      if rc != 0 {
        return Err(LastError(this, rc));
      }
      return Ok(Normalize(rowsAffected, lastInsertId, SqlText.IsDdl(sql)));
    }

    /**
     * `Conn.Close`: a no-op without a handle; otherwise one close call, after
     * which the handle is gone whatever its status.
     */
    method Close() returns (err: Option<DriverError>)
      modifies this, db
      ensures db == null
      ensures old(db) == null ==> err.None?
      ensures old(db) != null ==>
        var n := |old(db.calls)|;
        && Extends(old(db.calls), old(db).calls, 1)
        && old(db).calls[n].op == Op.Close
        && err == if old(db).calls[n].rc == 0 then None else Some(ConnCloseFailed(old(db).calls[n].rc))
    {
      if db != null {
        var rc := db.Close();
        db := null;
        if rc != 0 {
          return Some(ConnCloseFailed(rc));
        }
      }
      return None;
    }
  }

  /** A prepared statement (`Stmt`). */
  class Stmt {
    const c: Conn
    /** The native statement; null once closed. */
    var st: StmtHandle?
    const parameterCount: Count
    /** Whether the SQL was classified as DDL when prepared. */
    const ddl: bool

    constructor (c: Conn, st: StmtHandle?, parameterCount: Count, ddl: bool)
      ensures this.c == c && this.st == st && this.parameterCount == parameterCount && this.ddl == ddl
    {
      this.c := c;
      this.st := st;
      this.parameterCount := parameterCount;
      this.ddl := ddl;
    }

    /**
     * `Stmt.bind`: encodes the arguments into one parameter array and binds it
     * in a single call; string arguments are replaced by their bytes in place.
     */
    method Bind(args: array<DriverValue>) returns (err: Option<DriverError>)
      requires c.db != null
      modifies args, c.db
      ensures c.db.autoCommit == old(c.db.autoCommit)
      ensures BoundParameters(old(args[..]), parameterCount).None? ==>
        err.None? && c.db.calls == old(c.db.calls) && c.db.error == old(c.db.error) && args[..] == old(args[..])
      ensures BoundParameters(old(args[..]), parameterCount).Some? ==>
        var n := |old(c.db.calls)|;
        && Extends(old(c.db.calls), c.db.calls, 1)
        && c.db.calls[n].op == Op.Bind(Parameters(old(args[..]), parameterCount))
        && err == (if c.db.calls[n].rc == 0 then None else Some(NativeError(c.db.calls[n])))
        && args[..] == PinArgs(old(args[..]), parameterCount)
    {
      if parameterCount == 0 || args.Length == 0 {
        return None;
      }
      ghost var original := args[..];
      var parameters := new NuoValue[parameterCount](_ => NullValue);
      var i := 0;
      while i < args.Length
        modifies args, parameters
        invariant 0 <= i <= args.Length && i <= parameterCount
        invariant forall j :: 0 <= j < i ==> parameters[j] == EncodeArg(original[j], ArgRef(j))
        invariant forall j :: i <= j < parameterCount ==> parameters[j] == NullValue
        invariant forall j :: 0 <= j < i ==> args[j] == PinArgs(original, parameterCount)[j]
        invariant forall j :: i <= j < args.Length ==> args[j] == original[j]
      {
        if i >= parameterCount {
          break;
        }
        var v := args[i];
        parameters[i] := EncodeArg(v, ArgRef(i));
        if v.Str? {
          args[i] := ByteSlice(v.s);
        }
        i := i + 1;
      }
      assert parameters[..] == Parameters(original, parameterCount);
      assert args[..] == PinArgs(original, parameterCount);
      var rc := c.db.Bind(st, parameters[..]);
      if rc != 0 {
        return Some(LastError(c, rc));
      }
      return None;
    }

    /** `Stmt.addTimeoutFromContext`: a done context fails; otherwise the budget is set, its status ignored. */
    method AddTimeout(ctx: Context, now: I64) returns (err: Option<DriverError>)
      requires c.db != null
      modifies c.db
      ensures c.db.autoCommit == old(c.db.autoCommit)
      ensures BudgetAsWritten(ctx, now).Err? ==>
        err == Some(ContextDone(BudgetAsWritten(ctx, now).error)) && c.db.calls == old(c.db.calls)
      ensures BudgetAsWritten(ctx, now).Ok? ==>
        && err.None?
        && Extends(old(c.db.calls), c.db.calls, 1)
        && c.db.calls[|old(c.db.calls)|].op == Op.SetQueryMicros(BudgetAsWritten(ctx, now).value)
    {
      var (uSec, ctxErr) := MicrosUntilDeadline(ctx, now);
      if ctxErr.Some? {
        return Some(ContextDone(ctxErr.value));
      }
      var _ := c.db.SetQueryMicros(st, uSec);
      return None;
    }

    /**
     * `Stmt.execQuery`: errClosed without a handle; otherwise bind, set the
     * timeout, execute, and apply the zero-rows rule.
     */
    method ExecArgs(ctx: Context, now: I64, args: array<DriverValue>) returns (r: Result<ExecResult, DriverError>)
      modifies args, c.db
      ensures old(c.db) == null ==> r == Err(Closed) && args[..] == old(args[..])
      ensures c.db != null ==>
        && ExecSpec(old(c.db.calls), c.db.calls, BoundParameters(old(args[..]), parameterCount),
                    BudgetAsWritten(ctx, now), ddl, r)
        && c.db.autoCommit == old(c.db.autoCommit)
        && args[..] == if BoundParameters(old(args[..]), parameterCount).Some?
                       then PinArgs(old(args[..]), parameterCount) else old(args[..])
    {
      if c.db == null {
        return Err(Closed);
      }
      ghost var calls0 := c.db.calls;
      ghost var params := BoundParameters(args[..], parameterCount);
      var bindErr := Bind(args);
      if bindErr.Some? {
        r := Err(BindFailed(bindErr.value));
        assert SetUp(calls0, c.db.calls, params, BudgetAsWritten(ctx, now), SetUpError(r));
        return;
      }
      ghost var calls1 := c.db.calls;
      var timeoutErr := AddTimeout(ctx, now);
      if timeoutErr.Some? {
        r := Err(timeoutErr.value);
        assert SetUp(calls0, c.db.calls, params, BudgetAsWritten(ctx, now), SetUpError(r));
        return;
      }
      ghost var calls2 := c.db.calls;
      var rc, rowsAffected, lastInsertId := c.db.StatementExecute(st);
      if rc != 0 {
        r := Err(LastError(c, rc));
      } else {
        r := Ok(Normalize(rowsAffected, lastInsertId, ddl));
      }
      assert c.db.calls[..|calls2|] == calls2;
      assert c.db.calls[..|calls0|] == calls0;
      assert SetUp(calls0, c.db.calls, params, BudgetAsWritten(ctx, now), SetUpError(r));
    }

    /** `Stmt.Exec`: `execQuery` without a deadline. */
    method Exec(args: array<DriverValue>) returns (r: Result<ExecResult, DriverError>)
      modifies args, c.db
      ensures old(c.db) == null ==> r == Err(Closed) && args[..] == old(args[..])
      ensures c.db != null ==>
        && ExecSpec(old(c.db.calls), c.db.calls, BoundParameters(old(args[..]), parameterCount), Ok(0), ddl, r)
        && c.db.autoCommit == old(c.db.autoCommit)
        && args[..] == if BoundParameters(old(args[..]), parameterCount).Some?
                       then PinArgs(old(args[..]), parameterCount) else old(args[..])
    {
      r := ExecArgs(Background, 0, args);
    }

    /** `Stmt.ExecQuery`: named arguments are refused before anything else; otherwise `execQuery`. */
    method ExecQuery(ctx: Context, now: I64, named: seq<NamedValue>) returns (r: Result<ExecResult, DriverError>)
      modifies c.db
      ensures (exists i :: 0 <= i < |named| && named[i].name != "") ==>
        r == Err(NamedValues(NamedValuesMessage)) && (c.db != null ==> unchanged(c.db))
      ensures (forall i :: 0 <= i < |named| ==> named[i].name == "") && old(c.db) == null ==> r == Err(Closed)
      ensures (forall i :: 0 <= i < |named| ==> named[i].name == "") && c.db != null ==>
        && ExecSpec(old(c.db.calls), c.db.calls, BoundParameters(Unnamed(named), parameterCount),
                    BudgetAsWritten(ctx, now), ddl, r)
        && c.db.autoCommit == old(c.db.autoCommit)
    {
      var values := NamedValuesToValues(named);
      if values.Err? {
        return Err(NamedValues(values.error));
      }
      assert values.value == Unnamed(named);
      var args := new DriverValue[|values.value|](i requires 0 <= i < |values.value| => values.value[i]);
      assert args[..] == values.value;
      r := ExecArgs(ctx, now, args);
    }

    /**
     * `Stmt.queryContext`: errClosed without a handle; otherwise bind, set the
     * timeout, run the query and, when it has columns, fetch all their names
     * in one call.
     */
    method QueryArgs(ctx: Context, now: I64, args: array<DriverValue>) returns (r: Result<Rows, DriverError>)
      modifies args, c.db
      ensures old(c.db) == null ==> r == Err(Closed) && args[..] == old(args[..])
      ensures c.db != null ==>
        && QuerySpec(old(c.db.calls), c.db.calls, BoundParameters(old(args[..]), parameterCount),
                     BudgetAsWritten(ctx, now), r)
        && c.db.autoCommit == old(c.db.autoCommit)
        && args[..] == if BoundParameters(old(args[..]), parameterCount).Some?
                       then PinArgs(old(args[..]), parameterCount) else old(args[..])
      ensures r.Ok? ==>
        && c.db != null
        && fresh(r.value) && fresh(r.value.rowValues)
        && r.value.c == c && r.value.rs != null && r.value.Valid()
        && OpenedAs(r.value, c.db.calls[|c.db.calls| - 1])
    {
      if c.db == null {
        return Err(Closed);
      }
      ghost var calls0 := c.db.calls;
      ghost var params := BoundParameters(args[..], parameterCount);
      var bindErr := Bind(args);
      if bindErr.Some? {
        r := Err(BindFailed(bindErr.value));
        assert SetUp(calls0, c.db.calls, params, BudgetAsWritten(ctx, now), SetUpError(r));
        return;
      }
      var timeoutErr := AddTimeout(ctx, now);
      if timeoutErr.Some? {
        r := Err(timeoutErr.value);
        assert SetUp(calls0, c.db.calls, params, BudgetAsWritten(ctx, now), SetUpError(r));
        return;
      }
      ghost var calls2 := c.db.calls;
      var rc, rs, columnCount := c.db.Query(st);
      ghost var calls3 := c.db.calls;
      if rc != 0 {
        r := Err(LastError(c, rc));
        assert SetUp(calls0, c.db.calls, params, BudgetAsWritten(ctx, now), SetUpError(r)) by {
          assert c.db.calls[..|calls2|] == calls2;
        }
        return;
      }
      var rowValues: array<NuoValue>;
      var columnNames: seq<seq<Byte>> := [];
      if columnCount > 0 {
        rowValues := new NuoValue[columnCount](_ => NullValue);
        var rc2, mem := c.db.ColumnNames(rs, rowValues);
        if rc2 != 0 {
          r := Err(LastError(c, rc2));
          assert SetUp(calls0, c.db.calls, params, BudgetAsWritten(ctx, now), SetUpError(r)) by {
            assert c.db.calls[..|calls2|] == calls2;
          }
          return;
        }
        columnNames := ReadLabels(rowValues, mem);
      } else {
        rowValues := new NuoValue[0];
      }
      var rows := new Rows(c, rs, rowValues, columnNames);
      r := Ok(rows);
      assert SetUp(calls0, c.db.calls, params, BudgetAsWritten(ctx, now), SetUpError(r)) by {
        assert c.db.calls[..|calls2|] == calls2;
      }
    }

    /** `Stmt.Query`: `queryContext` without a deadline. */
    method Query(args: array<DriverValue>) returns (r: Result<Rows, DriverError>)
      modifies args, c.db
      ensures old(c.db) == null ==> r == Err(Closed) && args[..] == old(args[..])
      ensures c.db != null ==>
        && QuerySpec(old(c.db.calls), c.db.calls, BoundParameters(old(args[..]), parameterCount), Ok(0), r)
        && c.db.autoCommit == old(c.db.autoCommit)
        && args[..] == if BoundParameters(old(args[..]), parameterCount).Some?
                       then PinArgs(old(args[..]), parameterCount) else old(args[..])
      ensures r.Ok? ==>
        && c.db != null
        && fresh(r.value) && fresh(r.value.rowValues)
        && r.value.c == c && r.value.rs != null && r.value.Valid()
        && OpenedAs(r.value, c.db.calls[|c.db.calls| - 1])
    {
      r := QueryArgs(Background, 0, args);
    }

    /** `Stmt.QueryContext`: named arguments are refused before anything else; otherwise `queryContext`. */
    method QueryContext(ctx: Context, now: I64, named: seq<NamedValue>) returns (r: Result<Rows, DriverError>)
      modifies c.db
      ensures (exists i :: 0 <= i < |named| && named[i].name != "") ==>
        r == Err(NamedValues(NamedValuesMessage)) && (c.db != null ==> unchanged(c.db))
      ensures (forall i :: 0 <= i < |named| ==> named[i].name == "") && old(c.db) == null ==> r == Err(Closed)
      ensures (forall i :: 0 <= i < |named| ==> named[i].name == "") && c.db != null ==>
        && QuerySpec(old(c.db.calls), c.db.calls, BoundParameters(Unnamed(named), parameterCount),
                     BudgetAsWritten(ctx, now), r)
        && c.db.autoCommit == old(c.db.autoCommit)
      ensures r.Ok? ==>
        && c.db != null
        && fresh(r.value) && fresh(r.value.rowValues)
        && r.value.c == c && r.value.rs != null && r.value.Valid()
        && OpenedAs(r.value, c.db.calls[|c.db.calls| - 1])
    {
      var values := NamedValuesToValues(named);
      if values.Err? {
        return Err(NamedValues(values.error));
      }
      assert values.value == Unnamed(named);
      var args := new DriverValue[|values.value|](i requires 0 <= i < |values.value| => values.value[i]);
      assert args[..] == values.value;
      r := QueryArgs(ctx, now, args);
    }

    /**
     * `Stmt.Close`: a no-op without a connection handle; otherwise one close
     * call, which nulls the statement when it succeeds.
     */
    method Close() returns (err: Option<DriverError>)
      modifies this, c.db
      ensures old(c.db) == null ==> err.None? && st == old(st)
      ensures c.db != null ==>
        var n := |old(c.db.calls)|;
        && Extends(old(c.db.calls), c.db.calls, 1)
        && c.db.calls[n].op == Op.StatementClose
        && (old(st) == null ==> c.db.calls[n].rc == 0)
        && st == (if c.db.calls[n].rc == 0 then null else old(st))
        && err == (if c.db.calls[n].rc == 0 then None else Some(NativeError(c.db.calls[n])))
    {
      if c.db != null {
        var rc, next := c.db.StatementClose(st);
        st := next;
        if rc != 0 {
          return Some(LastError(c, rc));
        }
      }
      return None;
    }
  }

  /** An open result set (`Rows`). */
  class Rows {
    const c: Conn
    /** The native result set; null once closed. */
    var rs: RsHandle?
    /** One slot per column, refilled by each fetch. */
    const rowValues: array<NuoValue>
    const columnNames: seq<seq<Byte>>

    /** There is one name per value slot. */
    ghost predicate Valid()
      reads this
    {
      |columnNames| == rowValues.Length
    }

    constructor (c: Conn, rs: RsHandle?, rowValues: array<NuoValue>, columnNames: seq<seq<Byte>>)
      requires |columnNames| == rowValues.Length
      ensures this.c == c && this.rs == rs && this.rowValues == rowValues && this.columnNames == columnNames
      ensures Valid()
    {
      this.c := c;
      this.rs := rs;
      this.rowValues := rowValues;
      this.columnNames := columnNames;
    }

    /** `Rows.Columns`: one name per column of each row. */
    function Columns(): (names: seq<seq<Byte>>)
      reads this
      requires Valid()
      ensures |names| == rowValues.Length
    {
      columnNames
    }

    /**
     * `Rows.Next`: EOF without a native call when there are no columns;
     * otherwise one fetch of the whole row, then every column decoded into
     * `dest` in order.
     */
    method Next(dest: array<DriverValue>) returns (err: Option<DriverError>)
      requires rowValues.Length <= dest.Length
      requires rowValues.Length > 0 ==> c.db != null
      modifies dest, rowValues, c.db
      ensures rowValues.Length == 0 ==> err == Some(Eof) && unchanged(dest) && (c.db != null ==> unchanged(c.db))
      ensures rowValues.Length > 0 ==>
        var n := |old(c.db.calls)|;
        && Extends(old(c.db.calls), c.db.calls, 1)
        && c.db.calls[n].op.Next?
        && rowValues[..] == c.db.calls[n].op.values
        && c.db.autoCommit == old(c.db.autoCommit)
        && (c.db.calls[n].rc != 0 ==> err == Some(NativeError(c.db.calls[n])) && unchanged(dest))
        && (c.db.calls[n].rc == 0 && c.db.calls[n].op.hasValues == 0 ==> err == Some(Eof) && unchanged(dest))
        && (c.db.calls[n].rc == 0 && c.db.calls[n].op.hasValues != 0 ==>
              && err.None?
              && (forall i :: 0 <= i < rowValues.Length ==>
                    Decodable(rowValues[i], c.db.calls[n].op.mem)
                    && dest[i] == DecodeValue(rowValues[i], c.db.calls[n].op.mem, c.loc))
              && (forall i :: rowValues.Length <= i < dest.Length ==> dest[i] == old(dest[i])))
    {
      if rowValues.Length == 0 {
        return Some(Eof);
      }
      var rc, hasValues, mem := c.db.Next(rs, rowValues);
      if rc != 0 {
        return Some(LastError(c, rc));
      }
      if hasValues == 0 {
        return Some(Eof);
      }
      var i := 0;
      while i < rowValues.Length
        modifies dest
        invariant 0 <= i <= rowValues.Length
        invariant forall j :: 0 <= j < i ==> dest[j] == DecodeValue(rowValues[j], mem, c.loc)
        invariant forall j :: i <= j < dest.Length ==> dest[j] == old(dest[j])
      {
        dest[i] := DecodeValue(rowValues[i], mem, c.loc);
        i := i + 1;
      }
      return None;
    }

    /**
     * `Rows.Close`: a no-op without a connection handle; otherwise one close
     * call, which nulls the result set when it succeeds.
     */
    method Close() returns (err: Option<DriverError>)
      modifies this, c.db
      ensures old(c.db) == null ==> err.None? && rs == old(rs)
      ensures c.db != null ==>
        var n := |old(c.db.calls)|;
        && Extends(old(c.db.calls), c.db.calls, 1)
        && c.db.calls[n].op == Op.ResultSetClose
        && (old(rs) == null ==> c.db.calls[n].rc == 0)
        && rs == (if c.db.calls[n].rc == 0 then null else old(rs))
        && err == (if c.db.calls[n].rc == 0 then None else Some(NativeError(c.db.calls[n])))
    {
      if c.db != null {
        var rc, next := c.db.ResultSetClose(rs);
        rs := next;
        if rc != 0 {
          return Some(LastError(c, rc));
        }
      }
      return None;
    }
  }

  /**
   * What a successful query left in the result set, given the last call it
   * made: all the names fetched by that call, or no columns at all.
   */
  ghost predicate OpenedAs(rows: Rows, last: Call)
    reads rows
  {
    if last.op.ColumnNames? then
      && rows.rowValues.Length == |last.op.names|
      && NamesReadable(last.op.names, last.op.mem)
      && |rows.columnNames| == |last.op.names|
      && forall i :: 0 <= i < |last.op.names| ==>
           rows.columnNames[i] == ColumnName(last.op.names[i], last.op.mem)
    else
      rows.rowValues.Length == 0 && rows.columnNames == []
  }

  /** A transaction (`Tx`): the connection and the autocommit mode to restore. */
  class Tx {
    const c: Conn
    const autoCommit: int

    constructor (c: Conn, autoCommit: int)
      ensures this.c == c && this.autoCommit == autoCommit
    {
      this.c := c;
      this.autoCommit := autoCommit;
    }

    /** `Tx.restoreAutoCommit`: its status is ignored. */
    method RestoreAutoCommit()
      requires c.db != null
      modifies c.db
      ensures Extends(old(c.db.calls), c.db.calls, 1)
      ensures c.db.calls[|old(c.db.calls)|].op == Op.SetAutoCommit(autoCommit)
      ensures c.db.autoCommit == if c.db.calls[|old(c.db.calls)|].rc == 0 then autoCommit != 0 else old(c.db.autoCommit)
    {
      var _ := c.db.SetAutoCommit(autoCommit);
    }

    /**
     * `Tx.Commit`: errClosed without a handle; otherwise commit, then restore
     * the saved autocommit mode whatever the commit did, reporting the
     * commit's own error.
     */
    method Commit() returns (err: Option<DriverError>)
      modifies c.db
      ensures old(c.db) == null ==> err == Some(Closed)
      ensures c.db != null ==>
        var n := |old(c.db.calls)|;
        && Extends(old(c.db.calls), c.db.calls, 2)
        && c.db.calls[n].op == Op.Commit
        && c.db.calls[n + 1].op == Op.SetAutoCommit(autoCommit)
        && err == (if c.db.calls[n].rc == 0 then None else Some(NativeError(c.db.calls[n])))
        && c.db.autoCommit == if c.db.calls[n + 1].rc == 0 then autoCommit != 0 else old(c.db.autoCommit)
    {
      if c.db == null {
        return Some(Closed);
      }
      var rc := c.db.Commit();
      err := if rc != 0 then Some(LastError(c, rc)) else None;
      RestoreAutoCommit();
    }

    /** `Tx.Rollback`: as Commit, with a rollback. */
    method Rollback() returns (err: Option<DriverError>)
      modifies c.db
      ensures old(c.db) == null ==> err == Some(Closed)
      ensures c.db != null ==>
        var n := |old(c.db.calls)|;
        && Extends(old(c.db.calls), c.db.calls, 2)
        && c.db.calls[n].op == Op.Rollback
        && c.db.calls[n + 1].op == Op.SetAutoCommit(autoCommit)
        && err == (if c.db.calls[n].rc == 0 then None else Some(NativeError(c.db.calls[n])))
        && c.db.autoCommit == if c.db.calls[n + 1].rc == 0 then autoCommit != 0 else old(c.db.autoCommit)
    {
      if c.db == null {
        return Some(Closed);
      }
      var rc := c.db.Rollback();
      err := if rc != 0 then Some(LastError(c, rc)) else None;
      RestoreAutoCommit();
    }
  }

  /**
   * A transaction begun and committed leaves autocommit as it found it
   * unless the final native call failed, whatever the commit itself did.
   */
  method BeginCommit(c: Conn) returns (err: Option<DriverError>)
    requires c.db != null
    modifies c.db
    ensures |c.db.calls| > |old(c.db.calls)|
    ensures c.db.calls[|c.db.calls| - 1].rc == 0 ==> c.db.autoCommit == old(c.db.autoCommit)
  {
    var t := c.Begin();
    if t.Err? {
      return Some(t.error);
    }
    err := t.value.Commit();
  }
}
