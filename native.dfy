/**
 * The C call surface as the Go side sees it (cnuodb.h:43-63). The native side
 * is a black box: every call returns an arbitrary status (0 = success) and
 * arbitrary results, constrained only by what the C contract promises. A
 * ghost trace records every call with its status and the error text the
 * handle holds afterwards, so that "no native call" is a trace left unchanged.
 */
module NativeApi {
  import opened Wire

  /** One native call, with the results it handed back. */
  datatype Op =
    | GetAutoCommit(state: int)
    | SetAutoCommit(newState: int)
    | Commit
    | Rollback
    | Execute(sql: string, micros: I64, rowsAffected: I64, lastInsertId: I64)
    | Prepare(sql: string, parameterCount: int)
    | Bind(parameters: seq<NuoValue>)
    | SetQueryMicros(micros: I64)
    | StatementExecute(rowsAffected: I64, lastInsertId: I64)
    | Query(columnCount: int)
    | ColumnNames(names: seq<NuoValue>, mem: Memory)
    | Next(hasValues: int, values: seq<NuoValue>, mem: Memory)
    | StatementClose
    | ResultSetClose
    | Close

  /** A call, its status code and the text `nuodb_error` returns after it. */
  datatype Call = Call(op: Op, rc: int, text: string)

  /** `struct nuodb_statement`: a prepared statement. */
  class StmtHandle {
    constructor ()
    {
    }
  }

  /** `struct nuodb_resultset`: an open result set. */
  class RsHandle {
    constructor ()
    {
    }
  }

  /** `struct nuodb`: a connection handle. */
  class Native {
    /** The connection's autocommit mode. */
    var autoCommit: bool
    /** What `nuodb_error` returns: the message of the last failure. */
    var error: string
    /** Every call made on this handle, in order. */
    ghost var calls: seq<Call>

    constructor (autoCommit: bool)
      ensures this.autoCommit == autoCommit && error == "" && calls == []
    {
      this.autoCommit := autoCommit;
      error := "";
      calls := [];
    }

    /** The new error text: unchanged on success, whatever the native side stored on failure. */
    method Status() returns (rc: int)
      modifies this
      ensures rc == 0 ==> error == old(error)
      ensures autoCommit == old(autoCommit) && calls == old(calls)
    {
      rc := *;
      if rc != 0 {
        error := *;
      }
    }

    /** `nuodb_autocommit`: the mode as 1 or 0. */
    method GetAutoCommit() returns (rc: int, state: int)
      modifies this
      ensures rc == 0 ==> state == (if autoCommit then 1 else 0)
      ensures autoCommit == old(autoCommit)
      ensures rc == 0 ==> error == old(error)
      ensures calls == old(calls) + [Call(Op.GetAutoCommit(state), rc, error)]
    {
      rc := Status();
      if rc == 0 {
        state := if autoCommit then 1 else 0;
      } else {
        state := *;
      }
      calls := calls + [Call(Op.GetAutoCommit(state), rc, error)];
    }

    /** `nuodb_autocommit_set`: any non-zero state turns autocommit on. */
    method SetAutoCommit(state: int) returns (rc: int)
      modifies this
      ensures autoCommit == if rc == 0 then state != 0 else old(autoCommit)
      ensures rc == 0 ==> error == old(error)
      ensures calls == old(calls) + [Call(Op.SetAutoCommit(state), rc, error)]
    {
      rc := Status();
      if rc == 0 {
        autoCommit := state != 0;
      }
      calls := calls + [Call(Op.SetAutoCommit(state), rc, error)];
    }

    /** `nuodb_commit` */
    method Commit() returns (rc: int)
      modifies this
      ensures autoCommit == old(autoCommit)
      ensures rc == 0 ==> error == old(error)
      ensures calls == old(calls) + [Call(Op.Commit, rc, error)]
    {
      rc := Status();
      calls := calls + [Call(Op.Commit, rc, error)];
    }

    /** `nuodb_rollback` */
    method Rollback() returns (rc: int)
      modifies this
      ensures autoCommit == old(autoCommit)
      ensures rc == 0 ==> error == old(error)
      ensures calls == old(calls) + [Call(Op.Rollback, rc, error)]
    {
      rc := Status();
      calls := calls + [Call(Op.Rollback, rc, error)];
    }

    /** `nuodb_execute`: runs SQL directly under a timeout (0 = none). */
    method Execute(sql: string, micros: I64) returns (rc: int, rowsAffected: I64, lastInsertId: I64)
      modifies this
      ensures autoCommit == old(autoCommit)
      ensures rc == 0 ==> error == old(error)
      ensures calls == old(calls) + [Call(Op.Execute(sql, micros, rowsAffected, lastInsertId), rc, error)]
    {
      rc := Status();
      rowsAffected := *;
      lastInsertId := *;
      calls := calls + [Call(Op.Execute(sql, micros, rowsAffected, lastInsertId), rc, error)];
    }

    /** `nuodb_statement_prepare`: a fresh statement and its parameter count. */
    method Prepare(sql: string) returns (rc: int, st: StmtHandle?, parameterCount: int)
      modifies this
      ensures rc == 0 ==> st != null && fresh(st) && 0 <= parameterCount < TWO_TO_31
      ensures autoCommit == old(autoCommit)
      ensures rc == 0 ==> error == old(error)
      ensures calls == old(calls) + [Call(Op.Prepare(sql, parameterCount), rc, error)]
    {
      rc := Status();
      if rc == 0 {
        st := new StmtHandle();
        parameterCount := *;
        if parameterCount < 0 || parameterCount >= TWO_TO_31 {
          parameterCount := 0;
        }
      } else {
        st := null;
        parameterCount := *;
      }
      calls := calls + [Call(Op.Prepare(sql, parameterCount), rc, error)];
    }

    /** `nuodb_statement_bind`: the whole parameter array in one call. */
    method Bind(st: StmtHandle?, parameters: seq<NuoValue>) returns (rc: int)
      modifies this
      ensures autoCommit == old(autoCommit)
      ensures rc == 0 ==> error == old(error)
      ensures calls == old(calls) + [Call(Op.Bind(parameters), rc, error)]
    {
      rc := Status();
      calls := calls + [Call(Op.Bind(parameters), rc, error)];
    }

    /** `nuodb_statement_set_query_micros` */
    method SetQueryMicros(st: StmtHandle?, micros: I64) returns (rc: int)
      modifies this
      ensures autoCommit == old(autoCommit)
      ensures rc == 0 ==> error == old(error)
      ensures calls == old(calls) + [Call(Op.SetQueryMicros(micros), rc, error)]
    {
      rc := Status();
      calls := calls + [Call(Op.SetQueryMicros(micros), rc, error)];
    }

    /** `nuodb_statement_execute` */
    method StatementExecute(st: StmtHandle?) returns (rc: int, rowsAffected: I64, lastInsertId: I64)
      modifies this
      ensures autoCommit == old(autoCommit)
      ensures rc == 0 ==> error == old(error)
      ensures calls == old(calls) + [Call(Op.StatementExecute(rowsAffected, lastInsertId), rc, error)]
    {
      rc := Status();
      rowsAffected := *;
      lastInsertId := *;
      calls := calls + [Call(Op.StatementExecute(rowsAffected, lastInsertId), rc, error)];
    }

    /** `nuodb_statement_query`: a fresh result set and its column count. */
    method Query(st: StmtHandle?) returns (rc: int, rs: RsHandle?, columnCount: int)
      modifies this
      ensures rc == 0 ==> rs != null && fresh(rs) && columnCount < TWO_TO_31
      ensures autoCommit == old(autoCommit)
      ensures rc == 0 ==> error == old(error)
      ensures calls == old(calls) + [Call(Op.Query(columnCount), rc, error)]
    {
      rc := Status();
      columnCount := *;
      if rc == 0 {
        rs := new RsHandle();
        if columnCount >= TWO_TO_31 {
          columnCount := 0;
        }
      } else {
        rs := null;
      }
      calls := calls + [Call(Op.Query(columnCount), rc, error)];
    }

    /**
     * `nuodb_resultset_column_names`: fills the whole array with one label
     * per column, each a byte reference readable in `mem`.
     */
    method ColumnNames(rs: RsHandle?, names: array<NuoValue>) returns (rc: int, mem: Memory)
      modifies this, names
      ensures rc == 0 ==> forall i :: 0 <= i < names.Length ==> Readable(mem, names[i].i64, names[i].i32)
      ensures autoCommit == old(autoCommit)
      ensures rc == 0 ==> error == old(error)
      ensures calls == old(calls) + [Call(Op.ColumnNames(names[..], mem), rc, error)]
    {
      rc := Status();
      Fill(names);
      mem := AnyBacking(names[..]);
      calls := calls + [Call(Op.ColumnNames(names[..], mem), rc, error)];
    }

    /**
     * `nuodb_resultset_next`: moves to the next row and, when there is one,
     * fills the whole array with its values, each payload readable in `mem`.
     */
    method Next(rs: RsHandle?, values: array<NuoValue>) returns (rc: int, hasValues: int, mem: Memory)
      modifies this, values
      ensures rc == 0 && hasValues != 0 ==> forall i :: 0 <= i < values.Length ==>
        IsRef(values[i].vt) ==> Readable(mem, values[i].i64, values[i].i32)
      ensures autoCommit == old(autoCommit)
      ensures rc == 0 ==> error == old(error)
      ensures calls == old(calls) + [Call(Op.Next(hasValues, values[..], mem), rc, error)]
    {
      rc := Status();
      hasValues := *;
      Fill(values);
      mem := AnyBacking(values[..]);
      calls := calls + [Call(Op.Next(hasValues, values[..], mem), rc, error)];
    }

    /** `nuodb_statement_close`: a null statement is already closed; success nulls it. */
    method StatementClose(st: StmtHandle?) returns (rc: int, next: StmtHandle?)
      modifies this
      ensures st == null ==> rc == 0
      ensures next == if rc == 0 then null else st
      ensures autoCommit == old(autoCommit)
      ensures rc == 0 ==> error == old(error)
      ensures calls == old(calls) + [Call(Op.StatementClose, rc, error)]
    {
      if st == null {
        rc := 0;
      } else {
        rc := Status();
      }
      next := if rc == 0 then null else st;
      calls := calls + [Call(Op.StatementClose, rc, error)];
    }

    /** `nuodb_resultset_close`: a null result set is already closed; success nulls it. */
    method ResultSetClose(rs: RsHandle?) returns (rc: int, next: RsHandle?)
      modifies this
      ensures rs == null ==> rc == 0
      ensures next == if rc == 0 then null else rs
      ensures autoCommit == old(autoCommit)
      ensures rc == 0 ==> error == old(error)
      ensures calls == old(calls) + [Call(Op.ResultSetClose, rc, error)]
    {
      if rs == null {
        rc := 0;
      } else {
        rc := Status();
      }
      next := if rc == 0 then null else rs;
      calls := calls + [Call(Op.ResultSetClose, rc, error)];
    }

    /**
     * `nuodb_close`: closes the connection and frees the handle; the caller's
     * pointer is nulled whatever the status (cnuodb.cpp:72-75).
     */
    method Close() returns (rc: int)
      modifies this
      ensures calls == old(calls) + [Call(Op.Close, rc, error)]
    {
      rc := Status();
      calls := calls + [Call(Op.Close, rc, error)];
    }
  }

  /** Overwrites every element with an arbitrary value, as the native side may. */
  method Fill(a: array<NuoValue>)
    modifies a
  {
    var i := 0;
    while i < a.Length
      invariant 0 <= i <= a.Length
    {
      var v: NuoValue := *;
      a[i] := v;
      i := i + 1;
    }
  }

  /** Arbitrary memory, as long as every byte reference among `vs` can be read in it. */
  method AnyBacking(vs: seq<NuoValue>) returns (mem: Memory)
    ensures forall i :: 0 <= i < |vs| ==> Readable(mem, vs[i].i64, vs[i].i32)
  {
    mem := *;
    if !(forall i :: 0 <= i < |vs| ==> Readable(mem, vs[i].i64, vs[i].i32)) {
      mem := Backing(vs);
    }
  }

  /** Some memory in which every byte reference among `vs` can be read. */
  function Backing(vs: seq<NuoValue>): (mem: Memory)
    ensures forall i :: 0 <= i < |vs| ==> Readable(mem, vs[i].i64, vs[i].i32)
  {
    map i | 0 <= i < |vs| && vs[i].i32 > 0 :: vs[i].i64 := Zeros(MaxLength(vs, vs[i].i64))
  }

  /** The longest length any of `vs` claims at `addr`. */
  function MaxLength(vs: seq<NuoValue>, addr: I64): (n: nat)
    ensures forall i :: 0 <= i < |vs| && vs[i].i64 == addr ==> vs[i].i32 <= n
  {
    if vs == [] then 0
    else
      var rest := MaxLength(vs[1..], addr);
      assert forall i :: 1 <= i < |vs| ==> vs[i] == vs[1..][i - 1];
      if vs[0].i64 == addr && vs[0].i32 > rest then vs[0].i32 else rest
  }

  function Zeros(n: nat): (z: seq<Byte>)
    ensures |z| == n
  {
    seq(n, _ => 0)
  }
}
