# go-nuodb in Dafny

A model of the NuoDB driver for Go's `database/sql`, with proofs. The driver
talks to NuoDB's C++ client through a thin C shim. The model covers both
halves of that boundary, each against its own contract:

- **The wire value** (`wire.dfy`, cnuodb.h). A `struct nuodb_value` is a
  64-bit slot, a 32-bit slot and one of seven tags. Buffer addresses are
  opaque references into a `Memory` map.
- **The Go driver** (nuodb.go, error.go):
  - `values.dfy`: the bind encoding and the row decoding.
  - `sqltext.dfy`: the DDL/DML classification.
  - `deadline.dfy`: the timeout budget.
  - `errors.dfy`: the error-code names and error text.
  - `driver.dfy`: the `Conn`, `Stmt`, `Rows` and `Tx` objects.
  - `native.dfy`: the native calls they make, as the header declares them. Every native call returns an arbitrary status (0 is success). A ghost trace records each call, its status and the error text afterwards.
- **The C++ shim** (cnuodb.cpp):
  - `shimcodec.dfy`: column types to tags, the row's byte pool, bind parameters to setter calls, and rows affected.
  - `shim.dfy`: the `nuodb_*` functions themselves. The NuoDB C++ API appears as small classes (`Connection`, `PreparedStatement`, `ResultSet`), and whether an API call throws is an input of the function that makes it.

The two halves are not joined end to end: cnuodb.cpp is an older revision than
cnuodb.h and nuodb.go, and their signatures differ (`nuodb_open`,
`nuodb_statement_execute`, `nuodb_resultset_next`).

Two behaviours of the code are easy to miss; the model follows the code:

- A DML statement that affects zero rows reports its counts (0 and the last
  insert id). Only DDL that affects zero rows becomes `driver.ResultNoRows`
  (nuodb.go:200-203, 309-312).
- The deadline check as written can hand the native side 0 ("no limit") or a
  negative budget. The driver methods do exactly that, as the code does; the
  corrected budget is proved alongside as a reference. See Findings.

## Model

| member | source | states |
|---|---|---|
| Wire.TagOf | cnuodb.h:27-35 | Ordinals 0..6 are exactly the tags, each mapping back to its ordinal; any other ordinal is no tag |
| Wire.OrdinalsAreConsecutive | cnuodb.h:27-35 | The seven tags have distinct ordinals below 7, and each ordinal reads back as its tag |
| Wire.RawRoundTrip | cnuodb.h:37-41 | A value is exactly its (i64, i32, tag) triple; the all-zero triple is the NULL value, which unfilled parameter slots rely on |
| Wire.Wrap32 | nuodb.go:252 | The `int32_t` cast: congruent modulo 2^32 and the identity on values that fit |
| Errors.TableEntry | error.go:32-92 | The code table: only codes in [-63, -1] are listed, each with a non-empty name |
| Errors.Name | error.go:24-30 | `Name` is total and never empty; it is UNKNOWN_ERROR exactly for an unlisted code or -63 |
| Errors.ListedCodesAreNegative | error.go:32-92 | Every listed code lies in [-63, -1] |
| Errors.NonNegativeCodeIsUnknown | error.go:24-92 | Every code >= 0 is UNKNOWN_ERROR |
| Errors.GapsAreUnknown | error.go:55-91 | -28, -33, -34 and -35 are not listed, and they and -63 all name UNKNOWN_ERROR |
| Errors.TestedNames | error_test.go:19-41 | -1 is SYNTAX_ERROR; 0 and 1000 are UNKNOWN_ERROR |
| Errors.ErrorString | error.go:15-17 | `Error()`: "nuodb: " followed by exactly the message |
| Errors.ErrorStringShowsMessage | error.go:15-17 | `Error()` is "nuodb: " followed by the message; two errors print alike exactly when their messages are equal, whatever their codes |
| Errors.TestedErrorString | error_test.go:9-17 | The tested error prints as "nuodb: Some sort of error" |
| SqlText.IsDml | nuodb.go:64 | The keyword test; text it accepts has, after its leading whitespace, a keyword of at least six letters and a whitespace character |
| SqlText.IsDdl | nuodb.go:66-68 | `ddlStatement` is true exactly when the pattern does not match |
| SqlText.LeadingSpaces | nuodb.go:64 | The longest run of whitespace at the start of the text |
| SqlText.DmlMatchesRegex | nuodb.go:64-68 | Text classified DML matches the pattern: optional whitespace, a DML keyword in any case, then whitespace |
| SqlText.RegexMatchIsDml | nuodb.go:64-68 | Any match of that pattern, at any keyword and leading-space split, is classified DML |
| SqlText.IsDmlIffRegexMatches | nuodb.go:64-68 | `ddlStatement` is false exactly when the pattern matches |
| SqlText.KeywordsStartWithLetters | nuodb.go:64 | Every DML keyword is non-empty and starts with an upper-case letter |
| SqlText.KeywordAloneIsDdl | nuodb.go:64-68 | "SELECT" alone and "SELECT*" count as DDL, since whitespace must follow the keyword |
| SqlText.LeadingSpaceAndCaseIgnored | nuodb.go:64-68 | Leading whitespace and lower-case keywords still classify as DML |
| SqlText.SelectIsDml | nuodb.go:64-68 | A SELECT statement is DML |
| SqlText.CreateTableIsDdl | nuodb.go:64-68 | CREATE TABLE is DDL |
| Deadline.Sub | nuodb.go:378 | `time.Until`: the exact difference when it fits, else saturated with the same sign |
| Deadline.Microseconds | nuodb.go:378 | `Duration.Microseconds`: whole microseconds rounded toward zero, within one microsecond of the duration |
| Deadline.MicrosUntilDeadline | nuodb.go:376-386 | As written: the error is exactly the context's; a done context or no deadline gives 0; otherwise the time left truncated toward zero to whole microseconds, which is 0 under 1 us and negative once the deadline has passed |
| Deadline.AsWrittenDocumentedCases | nuodb.go:373-386 | As written: a done context gives (0, its error); no error otherwise; the background context gives (0, none) |
| Deadline.AsWrittenLosesNearDeadline | nuodb.go:376-386 | As written: a deadline 500 ns away yields budget 0 ("no limit"), and one 5 us past yields -5 |
| Deadline.TimeoutBudget | nuodb.go:376-386 | Corrected budget: the context's error if it is done; 0 only without a deadline; otherwise a positive budget no longer than the time left, or DeadlineExceeded when under 1 us remains |
| Deadline.TimeoutBudgetAgrees | nuodb.go:376-386 | The corrected budget agrees with the code as written wherever the latter fails or hands over a positive budget, and without a deadline; wherever the corrected budget succeeds the code as written gives the same; they differ exactly when the code as written hands over a budget <= 0 for a context with a deadline |
| Values.EncodeArg | nuodb.go:231-271 | int64, float64 and bool become INT64, FLOAT64 and BOOL (1/0); strings and byte slices become STRING and BYTES with i32 the int32 length and i64 a reference only when non-empty; time becomes TIME with Unix seconds and nanos; anything else is NULL |
| Values.Parameters | nuodb.go:222-230 | The bind array has exactly parameterCount entries: argument i encoded where one exists, NULL beyond the arguments |
| Values.PinnedArgs | nuodb.go:248-261 | Every non-empty string or byte-slice argument's bytes are reachable under its reference for the call |
| Values.PinArgs | nuodb.go:248-251 | After binding, string arguments below parameterCount are replaced by their bytes; every other argument is unchanged |
| Values.ExtraArgsIgnored | nuodb.go:227-230 | Arguments beyond parameterCount change neither the bind array nor the pinned memory |
| Values.PinnedArgsReadable | nuodb.go:248-261 | Each bound parameter's payload can be read from the pinned memory |
| Values.UnixTime | nuodb.go:444-446 | `time.Unix`: same instant with the nanosecond normalised into [0, 1e9); in-range nanoseconds are kept as given |
| Values.DecodeValue | nuodb.go:433-456 | NULL is nil, INT64 an integer, FLOAT64 the 64-bit word, BOOL a test against zero; TIME a time in the connection's zone at the instant i64 seconds plus i32 nanoseconds (exactly those when i32 is in [0, 1e9)); any other tag a copy of exactly i32 bytes (an empty non-nil slice when i32 <= 0) |
| Values.DecodeEncode | nuodb.go:231-456 | Decoding an encoded argument gives it back: the same value, with strings as byte slices, times in the connection's zone and unsupported values as nil |
| Values.ParametersDecode | nuodb.go:220-278 | Every entry of the bind array decodes from the pinned memory to its argument as read back |
| Values.EmptyIsNotNull | nuodb.go:253-261 | An empty byte slice travels as BYTES with length 0 and comes back as an empty slice, never nil; nil travels as NULL |
| Values.Unnamed | nuodb.go:388-397 | The values of the named arguments, same length and order |
| Values.NamedValuesToValues | nuodb.go:388-397 | Succeeds exactly when no argument has a name, then with every value in order; otherwise fails with the driver's message |
| NativeApi.Native.GetAutoCommit | cnuodb.h:48 | On success reports the current mode as 1 or 0; the mode is unchanged |
| NativeApi.Native.SetAutoCommit | cnuodb.h:49 | On success any non-zero state turns autocommit on and 0 turns it off; on failure the mode is unchanged |
| NativeApi.Native.Commit | cnuodb.h:50 | One call recorded; the autocommit mode is unchanged |
| NativeApi.Native.Rollback | cnuodb.h:51 | One call recorded; the autocommit mode is unchanged |
| NativeApi.Native.Execute | cnuodb.h:52 | One direct execution with its SQL and timeout recorded, with the counts it returned |
| NativeApi.Native.Prepare | cnuodb.h:54 | On success a fresh statement handle and a parameter count that fits a C int |
| NativeApi.Native.Bind | cnuodb.h:55 | The whole parameter array goes in one call |
| NativeApi.Native.StatementExecute | cnuodb.h:56 | One execution recorded with the counts it returned |
| NativeApi.Native.Query | cnuodb.h:57 | On success a fresh result set and its column count |
| NativeApi.Native.StatementClose | cnuodb.h:58 | A null statement closes with status 0; the handle is nulled exactly on success |
| NativeApi.Native.SetQueryMicros | cnuodb.h:59 | One call recorded with the budget it set |
| NativeApi.Native.ColumnNames | cnuodb.h:61 | The whole names array is filled in one call; on success every label can be read |
| NativeApi.Native.Next | cnuodb.h:62 | The whole row is fetched in one call; on success with a row, every payload can be read |
| NativeApi.Native.ResultSetClose | cnuodb.h:63 | A null result set closes with status 0; the handle is nulled exactly on success |
| NativeApi.Native.Close | cnuodb.h:46 | One close call recorded with its status |
| Driver.LastError | nuodb.go:139-147 | Uninitialized exactly without a connection or handle; otherwise an Error carrying the status code and the handle's current message, printed after the "nuodb: " prefix |
| Driver.Normalize | nuodb.go:200-203 | ResultNoRows exactly when zero rows were affected by DDL; otherwise both counts unchanged |
| Driver.RowsAffected | nuodb.go:412-414 | The stored rows-affected count, or the error of `driver.ResultNoRows` exactly for no rows |
| Driver.LastInsertId | nuodb.go:408-410 | The stored last insert id, or the error of `driver.ResultNoRows` exactly for no rows |
| Driver.NormalizeKeepsCounts | nuodb.go:200-203 | The result is ResultNoRows exactly when zero rows were affected by DDL; otherwise both counts come back unchanged |
| Driver.DmlKeepsCounts | nuodb.go:200-203 | DML always reports its counts, zero included |
| Driver.ZeroRowsExamples | nuodb.go:200-203 | CREATE TABLE affecting no rows gives ResultNoRows; a SELECT affecting none reports 0 |
| Driver.ColumnName | nuodb.go:352-357 | A column name is exactly i32 bytes, or empty when i32 <= 0 |
| Driver.Conn.Prepare | nuodb.go:149-161 | errUninitialized with no native call without a handle; otherwise one prepare call; its error is reported, or a statement with the reported parameter count and the DDL classification of its SQL |
| Driver.Conn.Begin | nuodb.go:163-175 | errUninitialized without a handle; otherwise reads autocommit, then turns it off; on success the transaction holds the prior mode and autocommit is off |
| Driver.Conn.Exec | nuodb.go:177-182 | ErrSkip with no native call for any arguments; otherwise one execution with no timeout and the zero-rows rule |
| Driver.Conn.ExecContext | nuodb.go:184-204 | ErrSkip for any arguments and the context's error with no native call; otherwise one execution under the budget as written (0 or negative near or past the deadline), its failure reported or the zero-rows rule applied |
| Driver.Conn.Close | nuodb.go:206-214 | A no-op success without a handle; otherwise one close call, after which the handle is gone whatever the status; a failure reports the status |
| Driver.Stmt.Bind | nuodb.go:220-278 | No native call, nothing changed, when the statement takes no parameters or there are no arguments; otherwise one bind call with the encoded array, strings pinned as bytes, its failure reported |
| Driver.Stmt.AddTimeout | nuodb.go:362-371 | A done context fails with no native call; otherwise the budget as written is set, whatever that call returns |
| Driver.Stmt.ExecArgs | nuodb.go:293-313 | errClosed without a handle; otherwise bind, then timeout, then one execute; a bind failure or a done context stops the run there; the outcome is the execute's error or its normalised counts |
| Driver.Stmt.Exec | nuodb.go:280-282 | `execQuery` with no deadline: the same trace, outcome, autocommit frame and pinned arguments, with budget 0 |
| Driver.Stmt.ExecQuery | nuodb.go:284-291 | Named arguments fail with no native call; otherwise `execQuery` over the values in order, with the same trace, outcome and autocommit frame |
| Driver.Stmt.QueryArgs | nuodb.go:327-360 | errClosed without a handle; otherwise bind, timeout, query and, when there are columns, one call fetching all names; the rows hold one slot and one name per column |
| Driver.ReadLabels | nuodb.go:351-356 | One label per entry of the names array, each exactly its i32 bytes or empty |
| Driver.Stmt.Query | nuodb.go:315-317 | `queryContext` with no deadline: the same trace, autocommit frame and pinned arguments, with budget 0; on success fresh, valid rows with one slot and one name per column |
| Driver.Stmt.QueryContext | nuodb.go:319-325 | Named arguments fail with no native call; otherwise `queryContext` over the values in order, with the same trace and autocommit frame, and on success fresh, valid rows with one slot and one name per column |
| Driver.Stmt.Close | nuodb.go:399-406 | A no-op without a connection handle; otherwise one close call that nulls the statement exactly on success and reports a failure |
| Driver.Rows.Columns | nuodb.go:416-418 | One name per column |
| Driver.Rows.Next | nuodb.go:420-458 | EOF with no native call when there are no columns; otherwise one fetch of the whole row; its failure, or EOF when there is no row, leaves `dest` untouched; else every column is decoded into `dest` in order, and the rest of `dest` is untouched |
| Driver.Rows.Close | nuodb.go:460-467 | A no-op without a connection handle; otherwise one close call that nulls the result set exactly on success and reports a failure |
| Driver.Tx.RestoreAutoCommit | nuodb.go:469-471 | One call that sets the saved mode; its status is ignored |
| Driver.Tx.Commit | nuodb.go:473-482 | errClosed without a handle; otherwise commit, then restore the saved mode whatever the commit did, returning the commit's own error |
| Driver.Tx.Rollback | nuodb.go:484-493 | As Commit, with a rollback |
| Driver.BeginCommit | nuodb.go:163-175 | Begin then Commit leaves autocommit as it was unless the final native call failed |
| ShimCodec.EncodeColumn | cnuodb.cpp:319-383 | A SQL NULL is tagged NULL; STRING never appears; INT64 only for scale-0 integer columns, carrying `getLong`; BYTES only for string-fetched or byte-fetched columns, with i64 0 |
| ShimCodec.ColumnPayload | cnuodb.cpp:402-440 | Only a non-NULL string-fetched or byte-fetched column copies bytes; a byte-fetched one copies exactly `getBytes` |
| ShimCodec.BytesCount | cnuodb.cpp:305-388 | The running byte count, a sum of one `int32_t` per column, stays within the column count times the `int32_t` range; the C `int` it is kept in can overflow |
| ShimCodec.Pool | cnuodb.cpp:402-440 | The row's byte pool begins with the first column's payload, which the copy places at offset 0 |
| ShimCodec.EmptyPool | cnuodb.cpp:402-440 | The pool is empty exactly when no column has a payload to copy |
| ShimCodec.ColumnTags | cnuodb.cpp:319-383 | Non-NULL columns: scale-0 integers are INT64; scaled integers and NUMERIC/DECIMAL are BYTES with the string length; FLOAT/DOUBLE are FLOAT64; BIT/BOOLEAN are BOOL with i64 1 or 0 by `getBoolean`; DATE/TIME/TIMESTAMP are TIME (seconds, nanos); every other type is BYTES with the byte length |
| ShimCodec.NullsAreNull | cnuodb.cpp:314-388 | SQL NULL, a NULL column type, or a null string or timestamp pointer gives tag NULL and no bytes |
| ShimCodec.PayloadMatchesTag | cnuodb.cpp:319-440 | STRING never appears in a fetched row; a column is tagged BYTES exactly when the bytes call copies for it, and i32 is the number of bytes copied |
| ShimCodec.EncodeRow | cnuodb.cpp:314-388 | One value per column, each column encoded in order |
| ShimCodec.PoolPrefix | cnuodb.cpp:402-440 | The pool of the first k columns is a prefix of the row's pool |
| ShimCodec.BytesCountIsPoolSize | cnuodb.cpp:305-446 | bytes_count, the sum of i32 over the BYTES-tagged values, equals the number of bytes the bytes call writes |
| ShimCodec.PayloadOffset | cnuodb.cpp:402-440 | Column k's payload sits in the pool at the sum of the earlier BYTES lengths |
| ShimCodec.PoolStep | cnuodb.cpp:402-440 | Each column appends its payload to the pool of the columns before it |
| ShimCodec.RowsAffected | cnuodb.cpp:233-243 | Never negative; 0 for a statement with a result set; otherwise the update count when non-negative |
| ShimCodec.MinusOneIsZero | cnuodb.cpp:239-240 | NuoDB's -1 "no rows" flag gives 0 |
| ShimCodec.CString | cnuodb.cpp:196-198 | The bytes before the first NUL: a NUL-free prefix followed by a NUL or the end |
| ShimCodec.DecodeParam | cnuodb.cpp:173-216 | A string setter comes only from a STRING parameter and carries at most i32 bytes, none of them NUL; a bytes setter comes only from BYTES and carries exactly i32 bytes |
| ShimCodec.DecodeParamCases | cnuodb.cpp:173-216 | NULL is exactly setNull; BOOL is a non-zero test; BYTES passes exactly i32 bytes; STRING at most i32, cut at a NUL; TIME is (seconds, nanos) |
| ShimCodec.StringParamCutAtNul | cnuodb.cpp:191-208 | A STRING "a\0b" binds as "a", while the same BYTES bind all three bytes |
| ShimCodec.Bound | cnuodb.cpp:170-217 | After parameters 1..n, parameter k holds the setter for array entry k-1; other indices keep their setters |
| Shim.ErrorText | cnuodb.cpp:39-41 | "null db" without a handle; otherwise the stored error text |
| Shim.SetError | cnuodb.cpp:17-20 | Stores the exception's text for `nuodb_error` and returns its sqlcode |
| Shim.CloseDb | cnuodb.cpp:22-32 | Status 0 without a connection; a successful close clears the connection; a failed close keeps it and records the error |
| Shim.Init | cnuodb.cpp:34-37 | A fresh handle without a connection |
| Shim.Open | cnuodb.cpp:43-68 | Closes any old connection first; success installs the fresh connection, open with autocommit on; a failure after the connection was created (before or after it was opened) closes that connection and does not keep it; every failure records the error and leaves no connection unless the earlier close failed |
| Shim.Close | cnuodb.cpp:70-78 | With a handle, closes its connection and nulls the caller's pointer whatever the status; with a null pointer or handle, returns 0 |
| Shim.StatementBind | cnuodb.cpp:166-225 | Calls the setters for parameters 1..parameterCount in order; an exception closes the statement, records the error and returns its code with only the earlier parameters set and the connection kept |
| Shim.StatementExecute | cnuodb.cpp:227-252 | On success the fetched result set, open, with its column count and the rows affected, and the handle untouched; on failure the error is recorded, the connection kept, and a result set fetched before the failure is closed |
| Shim.StatementClose | cnuodb.cpp:254-265 | A null pointer or handle returns 0; success closes the statement and nulls the handle; failure keeps the handle and records the error |
| Shim.ResultSetClose | cnuodb.cpp:448-459 | As statement close, for a result set |
| Shim.ResultSetNext | cnuodb.cpp:305-395 | With no row nothing is written and bytes_count is 0; with a row, `values` holds the encoded row, the rest of the array is untouched, and bytes_count is the size of the row's pool |
| Shim.EncodeInto | cnuodb.cpp:314-390 | The column loop writes exactly the encoded row into the first slots, leaves the rest alone, and its count is the size of the row's pool |
| Shim.ResultSetBytes | cnuodb.cpp:397-446 | Writes the row's pool at the start of the buffer and leaves the rest alone; on failure writes nothing and records the error |
| Shim.Pack | cnuodb.cpp:400-441 | The copying loop writes the pool at the start of the buffer and nothing beyond it |
| Shim.PackColumn | cnuodb.cpp:404-439 | One column's payload is copied at the current offset, which then advances by its length |
| Shim.Copy | cnuodb.cpp:427-436 | `memcpy`: the source lands at the offset and the rest of the buffer is unchanged |

## Left out

- Driver.Conn.ExecContext: requires a handle when there are no arguments. The Go code has no nil-handle guard here and would pass a null handle to the native side, whose reaction is not modelled.
- Driver.Conn.Exec: requires a handle for the same reason.
- Driver.Rows.Next: requires `dest` to have a slot per column and a handle when there are columns. Go would panic on a short `dest`, and it passes a null handle straight to the native side.
- Driver.Stmt.Bind: requires a handle. Its callers check for one first.
- Values.DecodeEncode: stated only for payloads shorter than 2^31 bytes. Longer payloads wrap in the `int32_t` length, as `Values.EncodeArg` states.
- Values.UnixTime: seconds wrap as Go's `int64` does; time zones are opaque names.
- Deadline: the clock is an input (`now`). The Go driver's methods use the budget as written; the corrected `Deadline.TimeoutBudget` is a reference only (see Findings).
- Shim.ResultSetNext: the C `int` byte count is unbounded here, so overflow past 2^31-1 is not modelled. An exception can come only from moving to the next row; getter exceptions in mid-row are not modelled.
- Shim.ResultSetBytes: requires a current row and a buffer of at least bytes_count bytes, as its caller allocates. An exception can come only before any copying.
- Shim.StatementBind: requires every STRING/BYTES parameter to have a non-negative, readable length. A tag outside the seven calls no setter in C++, which the closed tag type cannot express.
- Shim.StatementExecute: on failure the C++ code leaves the out-parameters unwritten; the model returns no result set and zeros instead.
- Shim.Open: the connection properties (user, password, schema, time zone) are not modelled. An exception thrown while closing the partly opened connection inside the handler is not modelled.
- Shim error protocol: an exception whose sqlcode is 0 makes a failing call return 0. The model keeps that, because `Shim.SetError` returns the sqlcode as given.
- NativeApi.Native.ColumnNames: models the header contract, that every label can be read with its `i32` length. The older C++ shim sets only `i64` for labels, and the Go side reads `i32`, so the two revisions do not agree here.
- Other cnuodb.cpp functions are not part of this model: `nuodb_autocommit`, `nuodb_autocommit_set`, `nuodb_commit`, `nuodb_rollback`, `nuodb_execute`, `nuodb_statement_prepare`, `nuodb_resultset_last_insert_id` and `nuodb_resultset_column_names`. They forward to the C++ API with the same `setError` protocol, and their Go-side contracts are the `NativeApi.Native` methods.
- `Stmt.NumInput`, `Result.LastInsertId` and `Result.RowsAffected` (nuodb.go:216-218, 408-414) simply return stored fields. `Driver.RowsAffected` and `Driver.LastInsertId` give their answers, including the errors of `driver.ResultNoRows`.
- Float64 bit reinterpretation: the FLOAT64 payload is an uninterpreted 64-bit word.
- DSN parsing and property flattening in `nuodbDriver.Open`/`newConn` (nuodb.go:74-137), and driver registration in `init`.
- Releasing memory (`delete`, `C.free`) and cgo pointer plumbing: buffers are opaque references in a `Memory` map.
- Concurrency: callers are assumed to serialise access to a connection.
- Nil receivers of the Go methods, except in `lastError`: receivers are non-null objects.

## Findings

| source | as written | input that shows it | evidently intended | confidence | as-written member | corrected member |
|---|---|---|---|---|---|---|
| nuodb.go:376-386 | The budget is the time left truncated to whole microseconds, and it is checked only against the context's error. So a deadline under 1 us away yields 0, which the native side reads as "no limit". A deadline already past that the context has not yet reported yields a negative budget. | A deadline 500 ns after `now` with the context not yet done gives (0, nil). One 5000 ns before `now` gives (-5, nil). | When less than one microsecond remains, fail with the deadline error before any native call; send 0 only when there is no deadline. | not executed | Deadline.AsWrittenLosesNearDeadline | Deadline.TimeoutBudget |
