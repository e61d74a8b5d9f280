/**
 * The C++ shim (cnuodb.cpp) between the Go driver and NuoDB's C++ client.
 * Each `nuodb_*` function becomes a method. The NuoDB C++ API is modelled by
 * small classes holding the state the shim relies on (`Connection`,
 * `PreparedStatement`, `ResultSet`). Whether a call of that API throws a
 * `SQLException`, and which one, is an input of the method that makes it.
 * A `T **` parameter becomes a slot object whose field the function
 * overwrites, since the shim checks the outer pointer for null too.
 */
module Shim {
  import opened Wire
  import opened Wrappers
  import opened ShimCodec

  /** A `SQLException` of the C++ API: its code and its text. */
  datatype SqlException = SqlException(sqlcode: int, text: string)

  /** `Connection` of the C++ API. */
  class Connection {
    var open: bool
    var autoCommit: bool

    /** `Connection::create()`: a connection not yet opened. */
    constructor ()
      ensures !open
    {
      open := false;
    }

    /** `Connection::close()`. */
    method Close()
      modifies this
      ensures !open && autoCommit == old(autoCommit)
    {
      open := false;
    }
  }

  /** `PreparedStatement` of the C++ API: the parameters set so far, by 1-based index. */
  class PreparedStatement {
    const parameterCount: nat
    var bound: map<int, Setter>
    var closed: bool

    constructor (parameterCount: nat)
      ensures this.parameterCount == parameterCount && bound == map[] && !closed
    {
      this.parameterCount := parameterCount;
      bound := map[];
      closed := false;
    }
  }

  /** `ResultSet` of the C++ API: column metadata, the rows not yet reached and the current row. */
  class ResultSet {
    const columns: seq<Column>
    var rows: seq<seq<Cell>>
    var current: Option<seq<Cell>>
    var closed: bool

    /** Every row has one cell per column. */
    ghost predicate Valid()
      reads this
    {
      && (forall r :: r in rows ==> |r| == |columns|)
      && (current.Some? ==> |current.value| == |columns|)
    }

    constructor (columns: seq<Column>, rows: seq<seq<Cell>>)
      requires forall r :: r in rows ==> |r| == |columns|
      ensures this.columns == columns && this.rows == rows && current == None && !closed
      ensures Valid()
    {
      this.columns := columns;
      this.rows := rows;
      current := None;
      closed := false;
    }

    /** `ResultSet::next()`: moves to the next row, if there is one. */
    method Next() returns (has: bool)
      requires Valid()
      modifies this
      ensures Valid() && closed == old(closed)
      ensures has <==> old(rows) != []
      ensures has ==> current == Some(old(rows)[0]) && rows == old(rows)[1..]
      ensures !has ==> current == None && rows == []
    {
      if rows == [] {
        has := false;
        current := None;
      } else {
        has := true;
        current := Some(rows[0]);
        rows := rows[1..];
      }
    }
  }

  /** `struct nuodb`: the connection, or none, and the last error text. */
  class NuoDb {
    var conn: Connection?
    var error: string

    constructor ()
      ensures conn == null && error == ""
    {
      conn := null;
      error := "";
    }
  }

  /** A `struct nuodb **`. */
  class DbSlot {
    var db: NuoDb?

    constructor ()
      ensures db == null
    {
      db := null;
    }
  }

  /** A `struct nuodb_statement **`. */
  class StmtSlot {
    var stmt: PreparedStatement?

    constructor (stmt: PreparedStatement?)
      ensures this.stmt == stmt
    {
      this.stmt := stmt;
    }
  }

  /** A `struct nuodb_resultset **`. */
  class RsSlot {
    var rs: ResultSet?

    constructor (rs: ResultSet?)
      ensures this.rs == rs
    {
      this.rs := rs;
    }
  }

  /** `nuodb_error`: the last error text, or "null db" without a handle. */
  function ErrorText(db: NuoDb?): (s: string)
    reads db
    ensures db == null ==> s == "null db"
    ensures db != null ==> s == db.error
  {
    if db == null then "null db" else db.error
  }

  /** `setError`: keeps the exception's text for `nuodb_error` and returns its code. */
  method SetError(db: NuoDb, e: SqlException) returns (rc: int)
    modifies db
    ensures rc == e.sqlcode
    ensures ErrorText(db) == e.text && db.conn == old(db.conn)
  {
    db.error := e.text;
    rc := e.sqlcode;
  }

  /**
   * `closeDb`: closes the connection, if any. The handle is cleared only when
   * the close succeeds; a failed close keeps it and reports the error.
   */
  method CloseDb(db: NuoDb, failure: Option<SqlException>) returns (rc: int)
    modifies db, db.conn
    ensures old(db.conn) == null ==> rc == 0 && db.conn == null && db.error == old(db.error)
    ensures old(db.conn) != null && failure.None? ==>
      rc == 0 && db.conn == null && !old(db.conn).open && db.error == old(db.error)
    ensures old(db.conn) != null && failure.Some? ==>
      rc == failure.value.sqlcode && db.conn == old(db.conn) && db.error == failure.value.text
      && unchanged(db.conn)
  {
    rc := 0;
    if db.conn != null {
      match failure
      case Some(e) =>
        rc := SetError(db, e);
      case None =>
        db.conn.open := false;
        db.conn := null;
    }
  }

  /** `nuodb_init`: a new handle without a connection. */
  method Init(slot: DbSlot)
    modifies slot
    ensures slot.db != null && fresh(slot.db)
    ensures slot.db.conn == null && slot.db.error == ""
  {
    slot.db := new NuoDb();
  }

  /** Where `nuodb_open` fails, if it does. */
  datatype OpenOutcome =
    | Connected
    | CreateThrows(e: SqlException)      // `Connection::create()` throws: no connection to close
    | OpenThrows(e: SqlException)        // setting properties or `openDatabase` throws: created, never opened
    | AutoCommitThrows(e: SqlException)  // `setAutoCommit(true)` throws after the connection was opened

  /**
   * `nuodb_open`: closes any previous connection (ignoring a failure there),
   * then connects. On success the handle holds a fresh, open connection with
   * autocommit forced on. On failure the new connection, if one was created
   * (`created`), is closed and not kept: the handle holds what `closeDb` left,
   * which is no connection unless that close failed.
   */
  method Open(db: NuoDb, closeFailure: Option<SqlException>, outcome: OpenOutcome)
    returns (rc: int, ghost created: Connection?)
    modifies db, db.conn
    ensures old(db.conn) != null && closeFailure.None? ==> !old(db.conn).open
    ensures created == null <==> outcome.CreateThrows?
    ensures created != null ==> fresh(created)
    ensures outcome.Connected? ==>
      rc == 0 && db.conn == created && db.conn.open && db.conn.autoCommit
    ensures outcome.Connected? ==>
      db.error == if old(db.conn) != null && closeFailure.Some? then closeFailure.value.text else old(db.error)
    ensures !outcome.Connected? ==> rc == outcome.e.sqlcode && ErrorText(db) == outcome.e.text
    ensures !outcome.Connected? && created != null ==> !created.open && db.conn != created
    ensures !outcome.Connected? && (old(db.conn) == null || closeFailure.None?) ==> db.conn == null
    ensures !outcome.Connected? && old(db.conn) != null && closeFailure.Some? ==> db.conn == old(db.conn)
  {
    var _ := CloseDb(db, closeFailure);
    created := null;
    if outcome.CreateThrows? {
      rc := SetError(db, outcome.e);
      return;
    }
    var conn := new Connection();
    created := conn;
    if outcome.OpenThrows? {
      conn.Close();
      rc := SetError(db, outcome.e);
      return;
    }
    conn.open := true;  // `openDatabase` succeeded
    if outcome.AutoCommitThrows? {
      conn.Close();
      rc := SetError(db, outcome.e);
      return;
    }
    conn.autoCommit := true;
    db.conn := conn;
    rc := 0;
  }

  /**
   * `nuodb_close`: with a handle, closes its connection, deletes it and
   * clears the slot whatever the close returned; otherwise does nothing.
   */
  method Close(slot: DbSlot?, failure: Option<SqlException>) returns (rc: int)
    modifies slot, if slot != null && slot.db != null then {slot.db, slot.db.conn} else {}
    ensures slot != null ==> slot.db == null
    ensures slot == null || old(slot.db) == null ==> rc == 0
    ensures slot != null && old(slot.db) != null && old(slot.db.conn) != null && failure.Some? ==>
      rc == failure.value.sqlcode
    ensures slot != null && old(slot.db) != null && old(slot.db.conn) != null && failure.None? ==>
      rc == 0 && !old(slot.db.conn).open
    ensures slot != null && old(slot.db) != null && old(slot.db.conn) == null ==> rc == 0
  {
    rc := 0;
    if slot != null && slot.db != null {
      rc := CloseDb(slot.db, failure);
      slot.db := null;
    }
  }

  /**
   * Where `nuodb_statement_bind` throws, if it does: `at` 0 is the parameter
   * metadata call, `at` k the setter for parameter k.
   */
  datatype BindFailure = BindFailure(at: nat, e: SqlException)

  /**
   * `nuodb_statement_bind`: calls one setter per parameter, for parameters
   * 1..parameterCount in order, choosing it by the tag of array entry k-1. An
   * exception closes the statement, records the error and leaves the
   * parameters before it set.
   */
  method StatementBind(db: NuoDb, stmt: PreparedStatement, parameters: array<NuoValue>, mem: Memory,
                       failure: Option<BindFailure>) returns (rc: int)
    requires parameters.Length >= stmt.parameterCount
    requires forall i :: 0 <= i < stmt.parameterCount ==> Bindable(parameters[i], mem)
    modifies db, stmt
    ensures failure.None? || failure.value.at > stmt.parameterCount ==>
      && rc == 0
      && stmt.bound == Bound(old(stmt.bound), parameters[..], mem, stmt.parameterCount)
      && stmt.closed == old(stmt.closed) && unchanged(db)
    ensures failure.Some? && failure.value.at <= stmt.parameterCount ==>
      && rc == failure.value.e.sqlcode && ErrorText(db) == failure.value.e.text && db.conn == old(db.conn)
      && stmt.closed
      && stmt.bound == Bound(old(stmt.bound), parameters[..], mem, if failure.value.at == 0 then 0 else failure.value.at - 1)
  {
    if failure.Some? && failure.value.at == 0 {
      stmt.closed := true;
      rc := SetError(db, failure.value.e);
      return;
    }
    ghost var ps := parameters[..];
    var i := 0;
    while i < stmt.parameterCount
      invariant 0 <= i <= stmt.parameterCount
      invariant stmt.bound == Bound(old(stmt.bound), ps, mem, i)
      invariant stmt.closed == old(stmt.closed) && unchanged(db)
      invariant failure.Some? ==> failure.value.at > i
    {
      if failure.Some? && failure.value.at == i + 1 {
        stmt.closed := true;
        rc := SetError(db, failure.value.e);
        return;
      }
      stmt.bound := stmt.bound[i + 1 := DecodeParam(parameters[i], mem)];
      i := i + 1;
    }
    rc := 0;
  }

  /** What `nuodb_statement_execute` meets, when it runs. */
  datatype ExecOutcome =
    | Executed(hasResults: bool, updateCount: I32, columns: seq<Column>, rows: seq<seq<Cell>>)
    | ExecuteThrows(e: SqlException)   // executing or fetching the result set throws
    | MetaDataThrows(columns: seq<Column>, rows: seq<seq<Cell>>, e: SqlException)
                                       // reading the column count of the fetched result set throws

  /** Every row of the result set the statement produced has one cell per column. */
  predicate WellFormed(outcome: ExecOutcome)
  {
    !outcome.ExecuteThrows? ==> forall r :: r in outcome.rows ==> |r| == |outcome.columns|
  }

  /**
   * `nuodb_statement_execute`: runs the statement and hands back its result
   * set (or its generated keys), the column count and the rows affected. The
   * out-parameters are written only on success; on failure the model returns
   * no result set and zeros. `fetched` is the result set the statement
   * produced, if it got that far: on failure it is closed.
   */
  method StatementExecute(db: NuoDb, stmt: PreparedStatement, outcome: ExecOutcome)
    returns (rc: int, rs: ResultSet?, columnCount: int, rowsAffected: I64, ghost fetched: ResultSet?)
    requires WellFormed(outcome)
    modifies db
    ensures outcome.ExecuteThrows? <==> fetched == null
    ensures fetched != null ==>
      && fresh(fetched) && fetched.Valid()
      && fetched.columns == outcome.columns && fetched.rows == outcome.rows && fetched.current == None
      && (fetched.closed <==> !outcome.Executed?)
    ensures outcome.Executed? ==>
      && rc == 0 && rs == fetched && !rs.closed
      && columnCount == |outcome.columns|
      && rowsAffected == RowsAffected(outcome.hasResults, outcome.updateCount)
      && unchanged(db)
    ensures !outcome.Executed? ==>
      && rc == outcome.e.sqlcode && ErrorText(db) == outcome.e.text && db.conn == old(db.conn)
      && rs == null && columnCount == 0 && rowsAffected == 0
  {
    rs := null;
    fetched := null;
    columnCount := 0;
    rowsAffected := 0;
    match outcome
    case ExecuteThrows(e) =>
      rc := SetError(db, e);
    case MetaDataThrows(columns, rows, e) =>
      var resultSet := new ResultSet(columns, rows);
      fetched := resultSet;
      resultSet.closed := true;
      rc := SetError(db, e);
    case Executed(hasResults, updateCount, columns, rows) =>
      var resultSet := new ResultSet(columns, rows);
      fetched := resultSet;
      columnCount := |columns|;
      rowsAffected := RowsAffected(hasResults, updateCount);
      rs := resultSet;
      rc := 0;
  }

  /**
   * `nuodb_statement_close`: closes the statement and clears the slot; an
   * empty slot is a success; a failed close keeps the slot and reports.
   */
  method StatementClose(db: NuoDb, slot: StmtSlot?, failure: Option<SqlException>) returns (rc: int)
    modifies db, slot, if slot != null then {slot.stmt} else {}
    ensures slot == null || old(slot.stmt) == null ==> rc == 0 && unchanged(db) && (slot != null ==> unchanged(slot))
    ensures slot != null && old(slot.stmt) != null && failure.None? ==>
      rc == 0 && slot.stmt == null && old(slot.stmt).closed && unchanged(db)
    ensures slot != null && old(slot.stmt) != null && failure.Some? ==>
      rc == failure.value.sqlcode && ErrorText(db) == failure.value.text && slot.stmt == old(slot.stmt)
  {
    rc := 0;
    if slot != null && slot.stmt != null {
      match failure
      case Some(e) =>
        rc := SetError(db, e);
      case None =>
        slot.stmt.closed := true;
        slot.stmt := null;
    }
  }

  /** `nuodb_resultset_close`: as `nuodb_statement_close`, for a result set. */
  method ResultSetClose(db: NuoDb, slot: RsSlot?, failure: Option<SqlException>) returns (rc: int)
    modifies db, slot, if slot != null then {slot.rs} else {}
    ensures slot == null || old(slot.rs) == null ==> rc == 0 && unchanged(db) && (slot != null ==> unchanged(slot))
    ensures slot != null && old(slot.rs) != null && failure.None? ==>
      rc == 0 && slot.rs == null && old(slot.rs).closed && unchanged(db)
    ensures slot != null && old(slot.rs) != null && failure.Some? ==>
      rc == failure.value.sqlcode && ErrorText(db) == failure.value.text && slot.rs == old(slot.rs)
  {
    rc := 0;
    if slot != null && slot.rs != null {
      match failure
      case Some(e) =>
        rc := SetError(db, e);
      case None =>
        slot.rs.closed := true;
        slot.rs := null;
    }
  }

  /**
   * `nuodb_resultset_next`: moves to the next row and, if there is one,
   * writes each column's value into `values` and counts the bytes its BYTES
   * values need; with no row nothing is written and the count is 0.
   */
  method ResultSetNext(db: NuoDb, rs: ResultSet, values: array<NuoValue>, failure: Option<SqlException>)
    returns (rc: int, hasValues: int, bytesCount: int)
    requires rs.Valid()
    requires values.Length >= |rs.columns|
    modifies db, rs, values
    ensures failure.Some? ==>
      rc == failure.value.sqlcode && ErrorText(db) == failure.value.text && unchanged(rs) && unchanged(values)
    ensures failure.None? ==> rc == 0 && unchanged(db) && rs.Valid()
    ensures failure.None? && old(rs.rows) == [] ==>
      hasValues == 0 && bytesCount == 0 && unchanged(values) && rs.current == None
    ensures failure.None? && old(rs.rows) != [] ==>
      && hasValues == 1 && rs.current == Some(old(rs.rows)[0]) && rs.rows == old(rs.rows)[1..]
      && values[..|rs.columns|] == EncodeRow(rs.columns, old(rs.rows)[0])
      && values[|rs.columns|..] == old(values[|rs.columns|..])
      && bytesCount == BytesCount(EncodeRow(rs.columns, old(rs.rows)[0]))
      && bytesCount == |Pool(rs.columns, old(rs.rows)[0])|
  {
    hasValues, bytesCount := 0, 0;
    if failure.Some? {
      rc := SetError(db, failure.value);
      return;
    }
    var has := rs.Next();
    hasValues := if has then 1 else 0;
    if has {
      bytesCount := EncodeInto(rs.columns, rs.current.value, values);
    }
    rc := 0;
  }

  /** The column loop of `nuodb_resultset_next`: writes the row's values and sums their byte lengths. */
  method EncodeInto(cols: seq<Column>, row: seq<Cell>, values: array<NuoValue>) returns (bytesCount: int)
    requires |row| == |cols| <= values.Length
    modifies values
    ensures values[..|cols|] == EncodeRow(cols, row)
    ensures values[|cols|..] == old(values[|cols|..])
    ensures bytesCount == BytesCount(EncodeRow(cols, row)) == |Pool(cols, row)|
  {
    bytesCount := 0;
    var i := 0;
    while i < |cols|
      invariant 0 <= i <= |cols|
      invariant values[..i] == EncodeRow(cols[..i], row[..i])
      invariant values[|cols|..] == old(values[|cols|..])
      invariant bytesCount == BytesCount(values[..i])
    {
      var w := EncodeColumn(cols[i], row[i]);
      values[i] := w;
      if w.vt == Bytes {
        bytesCount := bytesCount + w.i32;
      }
      assert values[..i + 1][..i] == values[..i];
      assert cols[..i + 1][..i] == cols[..i] && row[..i + 1][..i] == row[..i];
      i := i + 1;
    }
    assert cols[..i] == cols && row[..i] == row;
    BytesCountIsPoolSize(cols, row);
  }

  /**
   * `nuodb_resultset_bytes`: copies the payload of every column of the
   * current row that has one into `bytes`, contiguously and in column order,
   * advancing by each payload's length; the rest of `bytes` is left alone.
   */
  method ResultSetBytes(db: NuoDb, rs: ResultSet, bytes: array<Byte>, failure: Option<SqlException>)
    returns (rc: int)
    requires rs.Valid() && rs.current.Some?
    requires bytes.Length >= |Pool(rs.columns, rs.current.value)|
    modifies db, bytes
    ensures failure.Some? ==> rc == failure.value.sqlcode && ErrorText(db) == failure.value.text && unchanged(bytes)
    ensures failure.None? ==> rc == 0 && unchanged(db)
    ensures failure.None? ==>
      bytes[..] == Pool(rs.columns, rs.current.value) + old(bytes[..])[|Pool(rs.columns, rs.current.value)|..]
  {
    if failure.Some? {
      rc := SetError(db, failure.value);
      return;
    }
    Pack(rs.columns, rs.current.value, bytes);
    rc := 0;
  }

  /** The copying loop of `nuodb_resultset_bytes`, over one row. */
  method Pack(cols: seq<Column>, row: seq<Cell>, bytes: array<Byte>)
    requires |cols| == |row| && bytes.Length >= |Pool(cols, row)|
    modifies bytes
    ensures bytes[..] == Pool(cols, row) + old(bytes[..])[|Pool(cols, row)|..]
  {
    ghost var original := bytes[..];
    ghost var total := Pool(cols, row);
    var offset := 0;
    var i := 0;
    while i < |cols|
      invariant 0 <= i <= |cols|
      invariant offset == |Pool(cols[..i], row[..i])| <= |total|
      invariant bytes[..] == Pool(cols[..i], row[..i]) + original[offset..]
    {
      offset := PackColumn(cols, row, i, bytes, offset, original);
      i := i + 1;
    }
    assert cols[..i] == cols && row[..i] == row;
  }

  /** One column of that loop: its payload, if any, is copied at `offset`, which then moves past it. */
  method PackColumn(cols: seq<Column>, row: seq<Cell>, i: nat, bytes: array<Byte>, offset: nat, ghost original: seq<Byte>)
    returns (next: nat)
    requires |cols| == |row| && i < |cols|
    requires offset == |Pool(cols[..i], row[..i])| <= |Pool(cols, row)|
    requires |original| == bytes.Length >= |Pool(cols, row)|
    requires bytes[..] == Pool(cols[..i], row[..i]) + original[offset..]
    modifies bytes
    ensures next == |Pool(cols[..i + 1], row[..i + 1])| <= |Pool(cols, row)|
    ensures bytes[..] == Pool(cols[..i + 1], row[..i + 1]) + original[next..]
  {
    var payload := ColumnPayload(cols[i], row[i]);
    ghost var written := Pool(cols[..i], row[..i]);
    PoolStep(cols, row, i);
    ghost var before := bytes[..];
    Copy(bytes, offset, payload);
    CopyExtends(before, bytes[..], written, payload, original);
    next := offset + |payload|;
  }

  /** Copying the next payload after a written prefix extends the prefix. */
  lemma CopyExtends(before: seq<Byte>, after: seq<Byte>, written: seq<Byte>, payload: seq<Byte>, original: seq<Byte>)
    requires |written| + |payload| <= |original|
    requires before == written + original[|written|..]
    requires after == before[..|written|] + payload + before[|written| + |payload|..]
    ensures after == written + payload + original[|written| + |payload|..]
  {
    assert before[..|written|] == written;
    assert before[|written| + |payload|..] == original[|written| + |payload|..];
  }

  /** `memcpy`: `src` written into `dst` from `at` on; the rest of `dst` is left alone. */
  method Copy(dst: array<Byte>, at: nat, src: seq<Byte>)
    requires at + |src| <= dst.Length
    modifies dst
    ensures dst[..] == old(dst[..at]) + src + old(dst[at + |src|..])
  {
    var j := 0;
    while j < |src|
      invariant 0 <= j <= |src|
      invariant dst[..] == old(dst[..at]) + src[..j] + old(dst[at + j..])
    {
      dst[at + j] := src[j];
      assert src[..j + 1] == src[..j] + [src[j]];
      j := j + 1;
    }
    assert src[..j] == src;
  }
}
