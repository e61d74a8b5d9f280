/**
 * The value mapping of the C++ shim (cnuodb.cpp), as functions: how a SQL
 * column of the current row becomes a `struct nuodb_value`
 * (`nuodb_resultset_next`, cnuodb.cpp:314-388), which bytes
 * `nuodb_resultset_bytes` packs into the row's byte pool (cnuodb.cpp:402-440),
 * how a bind parameter becomes a setter call (`nuodb_statement_bind`,
 * cnuodb.cpp:171-216), and the rows-affected count of
 * `nuodb_statement_execute` (cnuodb.cpp:233-243).
 */
module ShimCodec {
  import opened Wire
  import opened Wrappers

  /** The NuoDB column types the shim distinguishes; every other type code is `SqlOther`. */
  datatype SqlType =
    | SqlNull
    | SqlTinyInt | SqlSmallInt | SqlInteger | SqlBigInt
    | SqlNumeric | SqlDecimal
    | SqlFloat | SqlDouble
    | SqlBit | SqlBoolean
    | SqlDate | SqlTime | SqlTimestamp
    | SqlOther(code: int)

  /** What the result set's metadata says about one column. */
  datatype Column = Column(sqlType: SqlType, scale: int)

  /** A byte payload whose length fits the `int32_t` slot. */
  type Payload = s: seq<Byte> | |s| < 0x8000_0000

  /** A `Timestamp`: seconds and nanoseconds as the C++ API reports them. */
  datatype Ts = Ts(seconds: I64, nanos: I32)

  /**
   * What each getter of the C++ API answers for one column of the current
   * row: `wasNull` after the call, and the value of `getLong`, `getString`
   * (a null pointer is `None`), `getDouble` (its bit pattern), `getBoolean`,
   * `getTimestamp` (a null pointer is `None`) and `getBytes`.
   */
  datatype Cell = Cell(wasNull: bool, long: I64, str: Option<Payload>, double: I64, boolean: bool,
                       ts: Option<Ts>, bytes: Payload)

  predicate IsIntegerType(t: SqlType)
  {
    t.SqlTinyInt? || t.SqlSmallInt? || t.SqlInteger? || t.SqlBigInt?
  }

  /** Integers with a scale, NUMERIC and DECIMAL are fetched as strings. */
  predicate FetchedAsString(col: Column)
  {
    (IsIntegerType(col.sqlType) && col.scale != 0) || col.sqlType.SqlNumeric? || col.sqlType.SqlDecimal?
  }

  /** Any type the shim does not list is fetched as bytes. */
  predicate FetchedAsBytes(col: Column)
  {
    col.sqlType.SqlOther?
  }

  /** The column's value as a `struct nuodb_value`, as `nuodb_resultset_next` writes it. */
  function EncodeColumn(col: Column, cell: Cell): (v: NuoValue)
    ensures cell.wasNull ==> v.vt == Null
    ensures v.vt != String
    ensures v.vt == Int64 ==> IsIntegerType(col.sqlType) && col.scale == 0 && v.i64 == cell.long
    ensures v.vt == Bytes ==> v.i64 == 0 && (FetchedAsString(col) || FetchedAsBytes(col))
  {
    match col.sqlType
    case SqlNull => NullValue
    case SqlFloat | SqlDouble =>
      if cell.wasNull then NullValue else NuoValue(cell.double, 0, Float64)
    case SqlBit | SqlBoolean =>
      NuoValue(if cell.boolean then 1 else 0, 0, if cell.wasNull then Null else Bool)
    case SqlDate | SqlTime | SqlTimestamp =>
      if cell.ts.Some? && !cell.wasNull then NuoValue(cell.ts.value.seconds, cell.ts.value.nanos, Time)
      else NullValue
    case SqlOther(_) =>
      if cell.wasNull then NullValue else NuoValue(0, |cell.bytes|, Bytes)
    case _ =>
      if IsIntegerType(col.sqlType) && col.scale == 0 then
        NuoValue(cell.long, 0, if cell.wasNull then Null else Int64)
      else if cell.str.Some? && !cell.wasNull then NuoValue(0, |cell.str.value|, Bytes)
      else NullValue
  }

  /** The bytes `nuodb_resultset_bytes` copies for the column; empty for every skipped column. */
  function ColumnPayload(col: Column, cell: Cell): (p: Payload)
    ensures p != [] ==> !cell.wasNull && (FetchedAsString(col) || FetchedAsBytes(col))
    ensures FetchedAsBytes(col) && !cell.wasNull ==> p == cell.bytes
  {
    if FetchedAsString(col) && cell.str.Some? && !cell.wasNull then cell.str.value
    else if FetchedAsBytes(col) && !cell.wasNull then cell.bytes
    else []
  }

  /**
   * The tag of each non-NULL column: scale-0 integers are INT64, scaled
   * integers and decimals are strings returned as BYTES, floating types
   * FLOAT64, bit and boolean BOOL, dates and times TIME, everything else BYTES.
   */
  lemma ColumnTags(col: Column, cell: Cell)
    requires !cell.wasNull
    ensures IsIntegerType(col.sqlType) && col.scale == 0 ==> EncodeColumn(col, cell) == NuoValue(cell.long, 0, Int64)
    ensures FetchedAsString(col) && cell.str.Some? ==> EncodeColumn(col, cell) == NuoValue(0, |cell.str.value|, Bytes)
    ensures col.sqlType in {SqlFloat, SqlDouble} ==> EncodeColumn(col, cell) == NuoValue(cell.double, 0, Float64)
    ensures col.sqlType in {SqlBit, SqlBoolean} ==> EncodeColumn(col, cell) == NuoValue(if cell.boolean then 1 else 0, 0, Bool)
    ensures col.sqlType in {SqlDate, SqlTime, SqlTimestamp} && cell.ts.Some? ==>
      EncodeColumn(col, cell) == NuoValue(cell.ts.value.seconds, cell.ts.value.nanos, Time)
    ensures FetchedAsBytes(col) ==> EncodeColumn(col, cell) == NuoValue(0, |cell.bytes|, Bytes)
  {
  }

  /** SQL NULL, or a null string or timestamp pointer, is a NULL value with nothing in the pool. */
  lemma NullsAreNull(col: Column, cell: Cell)
    requires cell.wasNull || col.sqlType == SqlNull
      || (FetchedAsString(col) && cell.str.None?)
      || (col.sqlType in {SqlDate, SqlTime, SqlTimestamp} && cell.ts.None?)
    ensures EncodeColumn(col, cell).vt == Null
    ensures ColumnPayload(col, cell) == []
  {
  }

  /**
   * The two functions agree: a column is tagged BYTES exactly when
   * `nuodb_resultset_bytes` copies for it, and its `i32` is the number of bytes
   * copied. STRING never appears in a fetched row.
   */
  lemma PayloadMatchesTag(col: Column, cell: Cell)
    ensures EncodeColumn(col, cell).vt != String
    ensures EncodeColumn(col, cell).vt == Bytes ==> EncodeColumn(col, cell).i32 == |ColumnPayload(col, cell)|
    ensures EncodeColumn(col, cell).vt != Bytes ==> ColumnPayload(col, cell) == []
    ensures EncodeColumn(col, cell).vt == Bytes ==> EncodeColumn(col, cell).i64 == 0
  {
  }

  /** The values of a row, one per column. */
  function EncodeRow(cols: seq<Column>, cells: seq<Cell>): (vs: seq<NuoValue>)
    requires |cols| == |cells|
    ensures |vs| == |cols|
    ensures forall i :: 0 <= i < |cols| ==> vs[i] == EncodeColumn(cols[i], cells[i])
  {
    seq(|cols|, i requires 0 <= i < |cols| => EncodeColumn(cols[i], cells[i]))
  }

  /** What a BYTES-tagged value adds to the byte count. */
  function Contribution(v: NuoValue): (c: int)
    ensures -0x8000_0000 <= c < 0x8000_0000
  {
    if v.vt == Bytes then v.i32 else 0
  }

  /** `bytes_count`: the `i32` of the BYTES-tagged values, summed. */
  function BytesCount(vs: seq<NuoValue>): (n: int)
    ensures -(|vs| * 0x8000_0000) <= n <= |vs| * 0x7FFF_FFFF
  {
    if vs == [] then 0
    else
      assert |vs| * 0x8000_0000 == |vs[..|vs| - 1]| * 0x8000_0000 + 0x8000_0000;
      assert |vs| * 0x7FFF_FFFF == |vs[..|vs| - 1]| * 0x7FFF_FFFF + 0x7FFF_FFFF;
      BytesCount(vs[..|vs| - 1]) + Contribution(vs[|vs| - 1])
  }

  /** No column of the row has a payload to copy. */
  predicate NoPayloads(cols: seq<Column>, cells: seq<Cell>)
    requires |cols| == |cells|
  {
    forall i :: 0 <= i < |cols| ==> ColumnPayload(cols[i], cells[i]) == []
  }

  /** The byte pool of a row: every column's payload, in column order. */
  function Pool(cols: seq<Column>, cells: seq<Cell>): (p: seq<Byte>)
    requires |cols| == |cells|
    ensures cols != [] ==> |ColumnPayload(cols[0], cells[0])| <= |p|
    ensures cols != [] ==> p[..|ColumnPayload(cols[0], cells[0])|] == ColumnPayload(cols[0], cells[0])
  {
    if cols == [] then []
    else Pool(cols[..|cols| - 1], cells[..|cells| - 1]) + ColumnPayload(cols[|cols| - 1], cells[|cells| - 1])
  }

  /** The pool is empty exactly when no column has a payload. */
  lemma {:induction false} EmptyPool(cols: seq<Column>, cells: seq<Cell>)
    requires |cols| == |cells|
    ensures Pool(cols, cells) == [] <==> NoPayloads(cols, cells)
    decreases |cols|
  {
    if cols != [] {
      var n := |cols| - 1;
      EmptyPool(cols[..n], cells[..n]);
      NoPayloadsStep(cols, cells);
    }
  }

  /** A row has no payloads exactly when its first columns have none and its last has none. */
  lemma NoPayloadsStep(cols: seq<Column>, cells: seq<Cell>)
    requires |cols| == |cells| > 0
    ensures NoPayloads(cols, cells) <==>
      NoPayloads(cols[..|cols| - 1], cells[..|cells| - 1]) && ColumnPayload(cols[|cols| - 1], cells[|cells| - 1]) == []
  {
    var n := |cols| - 1;
    if NoPayloads(cols, cells) {
      forall i | 0 <= i < n
        ensures ColumnPayload(cols[..n][i], cells[..n][i]) == []
      {
        assert cols[..n][i] == cols[i] && cells[..n][i] == cells[i];
      }
    }
    if NoPayloads(cols[..n], cells[..n]) && ColumnPayload(cols[n], cells[n]) == [] {
      forall i | 0 <= i < |cols|
        ensures ColumnPayload(cols[i], cells[i]) == []
      {
        if i < n {
          assert cols[..n][i] == cols[i] && cells[..n][i] == cells[i];
        }
      }
    }
  }

  /** The pool of a prefix of the row is a prefix of the pool. */
  lemma {:induction false} PoolPrefix(cols: seq<Column>, cells: seq<Cell>, k: nat)
    requires |cols| == |cells| && k <= |cols|
    ensures |Pool(cols[..k], cells[..k])| <= |Pool(cols, cells)|
    ensures Pool(cols, cells)[..|Pool(cols[..k], cells[..k])|] == Pool(cols[..k], cells[..k])
    decreases |cols|
  {
    if k < |cols| {
      var n := |cols| - 1;
      assert cols[..n][..k] == cols[..k] && cells[..n][..k] == cells[..k];
      PoolPrefix(cols[..n], cells[..n], k);
      assert Pool(cols, cells) == Pool(cols[..n], cells[..n]) + ColumnPayload(cols[n], cells[n]);
    } else {
      assert cols[..k] == cols && cells[..k] == cells;
    }
  }

  /**
   * `bytes_count` is exactly the size of the pool: the two functions skip the
   * same columns and count the same bytes.
   */
  lemma {:induction false} BytesCountIsPoolSize(cols: seq<Column>, cells: seq<Cell>)
    requires |cols| == |cells|
    ensures BytesCount(EncodeRow(cols, cells)) == |Pool(cols, cells)|
    decreases |cols|
  {
    if cols != [] {
      var n := |cols| - 1;
      BytesCountIsPoolSize(cols[..n], cells[..n]);
      assert EncodeRow(cols, cells)[..n] == EncodeRow(cols[..n], cells[..n]);
      PayloadMatchesTag(cols[n], cells[n]);
    }
  }

  /**
   * Column `k`'s payload sits in the pool at the size of the earlier columns'
   * pool, which is the byte count of the earlier values.
   */
  lemma PayloadOffset(cols: seq<Column>, cells: seq<Cell>, k: nat)
    requires |cols| == |cells| && k < |cols|
    ensures |Pool(cols[..k], cells[..k])| == BytesCount(EncodeRow(cols[..k], cells[..k]))
    ensures |Pool(cols[..k + 1], cells[..k + 1])| == |Pool(cols[..k], cells[..k])| + |ColumnPayload(cols[k], cells[k])|
    ensures |Pool(cols[..k + 1], cells[..k + 1])| <= |Pool(cols, cells)|
    ensures Pool(cols, cells)[|Pool(cols[..k], cells[..k])|..|Pool(cols[..k + 1], cells[..k + 1])|]
      == ColumnPayload(cols[k], cells[k])
  {
    BytesCountIsPoolSize(cols[..k], cells[..k]);
    assert cols[..k + 1][..k] == cols[..k] && cells[..k + 1][..k] == cells[..k];
    assert Pool(cols[..k + 1], cells[..k + 1]) == Pool(cols[..k], cells[..k]) + ColumnPayload(cols[k], cells[k]);
    PoolPrefix(cols, cells, k + 1);
  }

  /** The pool of the first `k+1` columns is that of the first `k` plus column `k`'s payload, and fits in the row's pool. */
  lemma PoolStep(cols: seq<Column>, cells: seq<Cell>, k: nat)
    requires |cols| == |cells| && k < |cols|
    ensures Pool(cols[..k + 1], cells[..k + 1]) == Pool(cols[..k], cells[..k]) + ColumnPayload(cols[k], cells[k])
    ensures |Pool(cols[..k + 1], cells[..k + 1])| <= |Pool(cols, cells)|
  {
    assert cols[..k + 1][..k] == cols[..k] && cells[..k + 1][..k] == cells[..k];
    PoolPrefix(cols, cells, k + 1);
  }

  /** `rows_affected`: 0 for a statement with a result set, otherwise the update count with NuoDB's -1 read as 0. */
  function RowsAffected(hasResults: bool, updateCount: I32): (n: I64)
    ensures n >= 0
    ensures hasResults ==> n == 0
    ensures !hasResults && updateCount >= 0 ==> n == updateCount
  {
    if hasResults then 0 else if updateCount > 0 then updateCount else 0
  }

  /** NuoDB's "no rows" flag reads as zero rows affected. */
  lemma MinusOneIsZero()
    ensures RowsAffected(false, -1) == 0
  {
  }

  /** The setter `nuodb_statement_bind` calls for one parameter. */
  datatype Setter =
    | SetNull
    | SetLong(long: I64)
    | SetDouble(bits: I64)
    | SetBoolean(b: bool)
    | SetString(s: seq<Byte>)
    | SetBytes(bytes: seq<Byte>)
    | SetTimestamp(seconds: I64, nanos: I32)

  /** A parameter's payload, if it has one, can be read with a non-negative length. */
  predicate Bindable(w: NuoValue, mem: Memory)
  {
    IsRef(w.vt) ==> 0 <= w.i32 && Readable(mem, w.i64, w.i32)
  }

  /** The bytes of a C string: everything before the first NUL. */
  function CString(b: seq<Byte>): (s: seq<Byte>)
    ensures |s| <= |b| && s == b[..|s|]
    ensures forall i :: 0 <= i < |s| ==> s[i] != 0
    ensures |s| < |b| ==> b[|s|] == 0
  {
    if b == [] || b[0] == 0 then [] else [b[0]] + CString(b[1..])
  }

  /**
   * The setter for one parameter. A STRING's `i32` bytes pass through a C
   * string, so they end at the first NUL; BYTES pass exactly `i32` bytes.
   */
  function DecodeParam(w: NuoValue, mem: Memory): (s: Setter)
    requires Bindable(w, mem)
    ensures s.SetString? ==> w.vt == String && |s.s| <= w.i32 && forall i :: 0 <= i < |s.s| ==> s.s[i] != 0
    ensures s.SetBytes? ==> w.vt == Bytes && |s.bytes| == w.i32
  {
    match w.vt
    case Null => SetNull
    case Int64 => SetLong(w.i64)
    case Float64 => SetDouble(w.i64)
    case Bool => SetBoolean(w.i64 != 0)
    case String => SetString(CString(Load(mem, w.i64, w.i32)))
    case Bytes => SetBytes(Load(mem, w.i64, w.i32))
    case Time => SetTimestamp(w.i64, w.i32)
  }

  /** What each tag binds as; payloads are exactly `i32` bytes, cut at a NUL for strings. */
  lemma DecodeParamCases(w: NuoValue, mem: Memory)
    requires Bindable(w, mem)
    ensures w.vt == Null <==> DecodeParam(w, mem) == SetNull
    ensures w.vt == Bool ==> DecodeParam(w, mem) == SetBoolean(w.i64 != 0)
    ensures w.vt == Bytes ==> DecodeParam(w, mem).SetBytes? && |DecodeParam(w, mem).bytes| == w.i32
    ensures w.vt == String ==> DecodeParam(w, mem).SetString? && |DecodeParam(w, mem).s| <= w.i32
    ensures w.vt == Time ==> DecodeParam(w, mem) == SetTimestamp(w.i64, w.i32)
  {
  }

  /**
   * The parameters set after the setters for parameters 1..n have run, in
   * order: parameter k (1-based) holds the setter for array entry k-1; every
   * other index keeps what it had.
   */
  function Bound(before: map<int, Setter>, ps: seq<NuoValue>, mem: Memory, n: nat): (after: map<int, Setter>)
    requires n <= |ps|
    requires forall i :: 0 <= i < n ==> Bindable(ps[i], mem)
    ensures forall k :: 1 <= k <= n ==> k in after && after[k] == DecodeParam(ps[k - 1], mem)
    ensures forall k :: k < 1 || k > n ==> (k in after <==> k in before)
    ensures forall k :: (k < 1 || k > n) && k in before ==> after[k] == before[k]
  {
    if n == 0 then before else Bound(before, ps, mem, n - 1)[n := DecodeParam(ps[n - 1], mem)]
  }

  /** A string parameter without NUL bytes binds unchanged; one with a NUL is cut there. */
  lemma StringParamCutAtNul(mem: Memory, addr: I64)
    requires addr in mem && |mem[addr]| >= 3
    requires mem[addr][..3] == [0x61, 0x00, 0x62]
    ensures DecodeParam(NuoValue(addr, 3, String), mem) == SetString([0x61])
    ensures DecodeParam(NuoValue(addr, 3, Bytes), mem) == SetBytes([0x61, 0x00, 0x62])
  {
    var b := Load(mem, addr, 3);
    assert b == [0x61, 0x00, 0x62];
    assert b[1..] == [0x00, 0x62];
    assert CString(b[1..]) == [];
  }
}
