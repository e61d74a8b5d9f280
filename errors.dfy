/** NuoDB error codes and the error value the driver reports (error.go). */
module Errors {
  import opened Wrappers

  /** `Error{Code, Message}`: a NuoDB sqlcode and the message the native side stored. */
  datatype Error = Error(code: int, message: string)

  const ErrorPrefix: string := "nuodb: "
  const Unknown: string := "UNKNOWN_ERROR"

  /**
   * `errorCodeNames` as one case per listed code: the short names of
   * NuoDB's SQL error codes.
   */
  function TableEntry(code: int): (name: Option<string>)
    ensures name.Some? ==> -63 <= code <= -1 && name.value != ""
  {
    match code
    case -1 => Some("SYNTAX_ERROR")
    case -2 => Some("FEATURE_NOT_YET_IMPLEMENTED")
    case -3 => Some("BUG_CHECK")
    case -4 => Some("COMPILE_ERROR")
    case -5 => Some("RUNTIME_ERROR")
    case -6 => Some("OCS_ERROR")
    case -7 => Some("NETWORK_ERROR")
    case -8 => Some("CONVERSION_ERROR")
    case -9 => Some("TRUNCATION_ERROR")
    case -10 => Some("CONNECTION_ERROR")
    case -11 => Some("DDL_ERROR")
    case -12 => Some("APPLICATION_ERROR")
    case -13 => Some("SECURITY_ERROR")
    case -14 => Some("DATABASE_CORRUPTION")
    case -15 => Some("VERSION_ERROR")
    case -16 => Some("LICENSE_ERROR")
    case -17 => Some("INTERNAL_ERROR")
    case -18 => Some("DEBUG_ERROR")
    case -19 => Some("LOST_BLOB")
    case -20 => Some("INCONSISTENT_BLOB")
    case -21 => Some("DELETED_BLOB")
    case -22 => Some("LOG_ERROR")
    case -23 => Some("DATABASE_DAMAGED")
    case -24 => Some("UPDATE_CONFLICT")
    case -25 => Some("NO_SUCH_TABLE")
    case -26 => Some("INDEX_OVERFLOW")
    case -27 => Some("UNIQUE_DUPLICATE")
    case -29 => Some("DEADLOCK")
    case -30 => Some("OUT_OF_MEMORY_ERROR")
    case -31 => Some("OUT_OF_RECORD_MEMORY_ERROR")
    case -32 => Some("LOCK_TIMEOUT")
    case -36 => Some("PLATFORM_ERROR")
    case -37 => Some("NO_SCHEMA")
    case -38 => Some("CONFIGURATION_ERROR")
    case -39 => Some("READ_ONLY_ERROR")
    case -40 => Some("NO_GENERATED_KEYS")
    case -41 => Some("THROWN_EXCEPTION")
    case -42 => Some("INVALID_TRANSACTION_ISOLATION")
    case -43 => Some("UNSUPPORTED_TRANSACTION_ISOLATION")
    case -44 => Some("INVALID_UTF8")
    case -45 => Some("CONSTRAINT_ERROR")
    case -46 => Some("UPDATE_ERROR")
    case -47 => Some("I18N_ERROR")
    case -48 => Some("OPERATION_KILLED")
    case -49 => Some("INVALID_STATEMENT")
    case -50 => Some("IS_SHUTDOWN")
    case -51 => Some("IN_QUOTED_STRING")
    case -52 => Some("BATCH_UPDATE_ERROR")
    case -53 => Some("JAVA_ERROR")
    case -54 => Some("INVALID_FIELD")
    case -55 => Some("INVALID_INDEX_NULL")
    case -56 => Some("INVALID_OPERATION")
    case -57 => Some("INVALID_STATISTICS")
    case -58 => Some("INVALID_GENERATOR")
    case -59 => Some("OPERATION_TIMEOUT")
    case -60 => Some("NO_SUCH_INDEX")
    case -61 => Some("NO_SUCH_SEQUENCE")
    case -62 => Some("XAER_PROTO")
    case -63 => Some("UNKNOWN_ERROR")
    case _ => None
  }

  /** `errorCodeNames` as a map. */
  const ErrorCodeNames: map<int, string> :=
    map code | -63 <= code <= -1 && TableEntry(code).Some? :: TableEntry(code).value

  /**
   * `ErrorCode.Name`: total; the table's name for a listed code and
   * UNKNOWN_ERROR for any other. The only listed code named UNKNOWN_ERROR is -63.
   */
  function Name(code: int): (name: string)
    ensures name != ""
    ensures name == Unknown <==> code !in ErrorCodeNames || code == -63
  {
    if code in ErrorCodeNames then ErrorCodeNames[code] else Unknown
  }

  /** Every listed code lies in [-63, -1]. */
  lemma ListedCodesAreNegative(code: int)
    requires code in ErrorCodeNames
    ensures -63 <= code <= -1
  {
  }

  /** A code of zero or more is never listed, so its name is UNKNOWN_ERROR. */
  lemma NonNegativeCodeIsUnknown(code: int)
    requires code >= 0
    ensures Name(code) == Unknown
  {
    if code in ErrorCodeNames {
      ListedCodesAreNegative(code);
    }
  }

  /** The gaps in the table and its last entry all read UNKNOWN_ERROR. */
  lemma GapsAreUnknown()
    ensures -28 !in ErrorCodeNames && -33 !in ErrorCodeNames
    ensures -34 !in ErrorCodeNames && -35 !in ErrorCodeNames
    ensures Name(-28) == Name(-33) == Name(-34) == Name(-35) == Name(-63) == Unknown
  {
  }

  /** The names the package's own tests expect. */
  lemma TestedNames()
    ensures Name(-1) == "SYNTAX_ERROR"
    ensures Name(0) == Unknown
    ensures Name(1000) == Unknown
  {
  }

  /** `Error.Error`: "nuodb: " followed by the message. */
  function ErrorString(e: Error): (s: string)
    ensures |s| == |ErrorPrefix| + |e.message|
    ensures s[..|ErrorPrefix|] == ErrorPrefix && s[|ErrorPrefix|..] == e.message
  {
    ErrorPrefix + e.message
  }

  /** The text carries the message unchanged after the prefix and ignores the code. */
  lemma ErrorStringShowsMessage(e: Error, f: Error)
    ensures |ErrorString(e)| == |ErrorPrefix| + |e.message|
    ensures ErrorString(e)[..|ErrorPrefix|] == ErrorPrefix
    ensures ErrorString(e)[|ErrorPrefix|..] == e.message
    ensures e.message == f.message ==> ErrorString(e) == ErrorString(f)
    ensures ErrorString(e) == ErrorString(f) ==> e.message == f.message
  {
    if ErrorString(e) == ErrorString(f) {
      assert e.message == ErrorString(e)[|ErrorPrefix|..];
      assert f.message == ErrorString(f)[|ErrorPrefix|..];
    }
  }

  /** The message the package's own test expects. */
  lemma TestedErrorString()
    ensures ErrorString(Error(-1, "Some sort of error")) == "nuodb: Some sort of error"
  {
  }
}
