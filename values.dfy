/**
 * The Go side of the value codec (nuodb.go): how a `driver.Value` bind
 * argument becomes a `struct nuodb_value` (`Stmt.bind`, nuodb.go:231-271),
 * how a fetched `struct nuodb_value` becomes a `driver.Value` (`Rows.Next`,
 * nuodb.go:433-456), and `namedValuesToValues` (nuodb.go:388-397).
 */
module Values {
  import opened Wrappers
  import opened Wire

  const NANOS_PER_SECOND: int := 1_000_000_000

  /** The nanosecond within a second of a `time.Time`. */
  type Nanos = n: int | 0 <= n < 1_000_000_000

  /** A time zone (`*time.Location`); its rules are not modelled. */
  datatype Location = Location(name: string)

  /** A `time.Time` as the driver sees it: Unix seconds, the nanosecond, the zone it is shown in. */
  datatype GoTime = GoTime(sec: I64, nsec: Nanos, loc: Location)

  /**
   * A `driver.Value`. Strings are kept as their bytes; the FLOAT64 payload is
   * the IEEE-754 bit pattern, uninterpreted. `Unsupported` stands for a value
   * of any other Go type.
   */
  datatype DriverValue =
    | Nil
    | Int(i: I64)
    | Float(bits: I64)
    | Boolean(b: bool)
    | Str(s: seq<Byte>)
    | ByteSlice(bytes: seq<Byte>)
    | Timestamp(t: GoTime)
    | Unsupported

  /** The bytes a string or byte-slice argument passes by reference. */
  predicate HasPayload(v: DriverValue)
  {
    v.Str? || v.ByteSlice?
  }

  function Payload(v: DriverValue): seq<Byte>
    requires HasPayload(v)
  {
    if v.Str? then v.s else v.bytes
  }

  /**
   * One argument of `Stmt.bind` as a `struct nuodb_value`. `ref` is the
   * reference under which the argument's bytes stay reachable during the call.
   */
  function EncodeArg(v: DriverValue, ref: I64): (w: NuoValue)
    ensures w.vt == Null <==> v.Nil? || v.Unsupported?
    ensures HasPayload(v) ==> w.i32 == Wrap32(|Payload(v)|)
    ensures HasPayload(v) ==> w.i64 == (if |Payload(v)| > 0 then ref else 0)
    ensures v.Int? ==> w == NuoValue(v.i, 0, Int64)
    ensures v.Float? ==> w == NuoValue(v.bits, 0, Float64)
    ensures v.Boolean? ==> w == NuoValue(if v.b then 1 else 0, 0, Bool)
    ensures v.Str? ==> w.vt == String
    ensures v.ByteSlice? ==> w.vt == Bytes
    ensures v.Timestamp? ==> w == NuoValue(v.t.sec, v.t.nsec, Time)
  {
    match v
    case Int(i) => NuoValue(i, 0, Int64)
    case Float(bits) => NuoValue(bits, 0, Float64)
    case Boolean(b) => NuoValue(if b then 1 else 0, 0, Bool)
    case Str(s) => NuoValue(if |s| > 0 then ref else 0, Wrap32(|s|), String)
    case ByteSlice(bytes) => NuoValue(if |bytes| > 0 then ref else 0, Wrap32(|bytes|), Bytes)
    case Timestamp(t) => NuoValue(t.sec, t.nsec, Time)
    case Nil => NullValue
    case Unsupported => NullValue
  }

  /** The reference argument `i` of a bind call is reachable under; never 0. */
  function ArgRef(i: nat): I64
    requires i < TWO_TO_63 - 1
  {
    i + 1
  }

  /**
   * The `parameters` array `Stmt.bind` hands to the native side: one slot per
   * statement parameter, argument `i` encoded in slot `i`, arguments beyond the
   * parameter count ignored and slots without an argument left zero (NULL).
   */
  function Parameters(args: seq<DriverValue>, parameterCount: nat): (ps: seq<NuoValue>)
    requires parameterCount < TWO_TO_31
    ensures |ps| == parameterCount
    ensures forall i :: 0 <= i < parameterCount && i < |args| ==> ps[i] == EncodeArg(args[i], ArgRef(i))
    ensures forall i :: |args| <= i < parameterCount ==> ps[i] == NullValue
  {
    seq(parameterCount, i requires 0 <= i < parameterCount =>
      if i < |args| then EncodeArg(args[i], ArgRef(i)) else NullValue)
  }

  /** The memory that keeps the arguments' bytes reachable: argument `i`'s bytes under `ArgRef(i)`. */
  function PinnedArgs(args: seq<DriverValue>, parameterCount: nat): (mem: Memory)
    requires parameterCount < TWO_TO_31
    ensures forall i :: 0 <= i < parameterCount && i < |args| && HasPayload(args[i]) ==>
      ArgRef(i) in mem && mem[ArgRef(i)] == Payload(args[i])
  {
    map i | 0 <= i < parameterCount && i < |args| && HasPayload(args[i]) :: ArgRef(i) := Payload(args[i])
  }

  /**
   * The arguments after `Stmt.bind`: it stores every string argument it
   * encodes back into the slice as its byte slice, so that the bytes stay
   * alive during the native call.
   */
  function PinArgs(args: seq<DriverValue>, parameterCount: nat): (out: seq<DriverValue>)
    ensures |out| == |args|
    ensures forall i :: 0 <= i < |args| && i < parameterCount && args[i].Str? ==> out[i] == ByteSlice(args[i].s)
    ensures forall i :: 0 <= i < |args| && (i >= parameterCount || !args[i].Str?) ==> out[i] == args[i]
  {
    seq(|args|, i requires 0 <= i < |args| =>
      if i < parameterCount && args[i].Str? then ByteSlice(args[i].s) else args[i])
  }

  /** Only the first `parameterCount` arguments reach the native side. */
  lemma ExtraArgsIgnored(args: seq<DriverValue>, extra: seq<DriverValue>, parameterCount: nat)
    requires parameterCount < TWO_TO_31
    requires parameterCount <= |args|
    ensures Parameters(args + extra, parameterCount) == Parameters(args, parameterCount)
    ensures PinnedArgs(args + extra, parameterCount) == PinnedArgs(args, parameterCount)
  {
    var a := Parameters(args + extra, parameterCount);
    var b := Parameters(args, parameterCount);
    forall i | 0 <= i < parameterCount ensures a[i] == b[i] {
      assert (args + extra)[i] == args[i];
    }
    var m := PinnedArgs(args + extra, parameterCount);
    var n := PinnedArgs(args, parameterCount);
    forall i | 0 <= i < parameterCount && i < |args + extra| ensures (args + extra)[i] == args[i] {
    }
    assert m.Keys == n.Keys;
  }

  /** Every encoded slot's payload can be read back from the pinned memory. */
  lemma PinnedArgsReadable(args: seq<DriverValue>, parameterCount: nat, i: nat)
    requires parameterCount < TWO_TO_31
    requires i < parameterCount
    requires i < |args| ==> (HasPayload(args[i]) ==> |Payload(args[i])| < TWO_TO_31)
    ensures var w := Parameters(args, parameterCount)[i];
      IsRef(w.vt) ==> Readable(PinnedArgs(args, parameterCount), w.i64, w.i32)
  {
  }

  /**
   * `time.Unix(sec, nsec)`: the instant `nsec` nanoseconds after second
   * `sec`, with the nanosecond brought into [0, 1e9) (the seconds wrap as
   * Go's `int64` does).
   */
  function UnixTime(sec: I64, nsec: int, loc: Location): (t: GoTime)
    ensures -TWO_TO_63 <= sec + nsec / NANOS_PER_SECOND < TWO_TO_63 ==>
      t.sec * NANOS_PER_SECOND + t.nsec == sec * NANOS_PER_SECOND + nsec
    ensures 0 <= nsec < NANOS_PER_SECOND ==> t == GoTime(sec, nsec, loc)
  {
    GoTime(Wrap64(sec + nsec / NANOS_PER_SECOND), nsec % NANOS_PER_SECOND, loc)
  }

  /** The value's payload, if it has one, is there to read. */
  predicate Decodable(w: NuoValue, mem: Memory)
  {
    IsRef(w.vt) ==> Readable(mem, w.i64, w.i32)
  }

  /**
   * One column of `Rows.Next`: NULL is nil, INT64 an integer, BOOL a test
   * against zero, TIME a time in the connection's zone, and any other tag a
   * fresh copy of exactly `i32` bytes (an empty, non-nil slice when `i32` is not
   * positive).
   */
  function DecodeValue(w: NuoValue, mem: Memory, loc: Location): (v: DriverValue)
    requires Decodable(w, mem)
    ensures v.Nil? <==> w.vt == Null
    ensures IsRef(w.vt) ==> v.ByteSlice? && |v.bytes| == (if w.i32 > 0 then w.i32 else 0)
    ensures IsRef(w.vt) && w.i32 > 0 ==> v.bytes == mem[w.i64][..w.i32]
    ensures w.vt == Bool ==> v == Boolean(w.i64 != 0)
    ensures w.vt == Int64 ==> v == Int(w.i64)
    ensures w.vt == Float64 ==> v == Float(w.i64)
    ensures w.vt == Time ==> v.Timestamp? && v.t.loc == loc && 0 <= v.t.nsec < NANOS_PER_SECOND
    ensures w.vt == Time && -TWO_TO_63 <= w.i64 + w.i32 / NANOS_PER_SECOND < TWO_TO_63 ==>
      v.t.sec * NANOS_PER_SECOND + v.t.nsec == w.i64 * NANOS_PER_SECOND + w.i32
    ensures w.vt == Time && 0 <= w.i32 < NANOS_PER_SECOND ==> v.t.sec == w.i64 && v.t.nsec == w.i32
  {
    match w.vt
    case Null => Nil
    case Int64 => Int(w.i64)
    case Float64 => Float(w.i64)
    case Bool => Boolean(w.i64 != 0)
    case Time => Timestamp(UnixTime(w.i64, w.i32, loc))
    case _ => ByteSlice(Load(mem, w.i64, w.i32))
  }

  /**
   * What a bound value reads back as through the Go codec: strings come back
   * as byte slices, times in the connection's zone, unsupported values as nil.
   */
  function Fetched(v: DriverValue, loc: Location): DriverValue
  {
    match v
    case Str(s) => ByteSlice(s)
    case Timestamp(t) => Timestamp(t.(loc := loc))
    case Unsupported => Nil
    case _ => v
  }

  /**
   * Decoding undoes encoding on the Go side, for payloads whose length fits
   * an `int32_t`, given the memory the payload was pinned in.
   */
  lemma DecodeEncode(v: DriverValue, ref: I64, mem: Memory, loc: Location)
    requires HasPayload(v) ==> |Payload(v)| < TWO_TO_31
    requires HasPayload(v) && |Payload(v)| > 0 ==> ref in mem && mem[ref] == Payload(v)
    ensures Decodable(EncodeArg(v, ref), mem)
    ensures DecodeValue(EncodeArg(v, ref), mem, loc) == Fetched(v, loc)
  {
    if HasPayload(v) && |Payload(v)| > 0 {
      assert mem[ref][..|Payload(v)|] == Payload(v);
    }
  }

  /** The whole bind array reads back argument by argument from the memory that pins it. */
  lemma ParametersDecode(args: seq<DriverValue>, parameterCount: nat, loc: Location, i: nat)
    requires parameterCount < TWO_TO_31
    requires i < parameterCount && i < |args|
    requires HasPayload(args[i]) ==> |Payload(args[i])| < TWO_TO_31
    ensures Decodable(Parameters(args, parameterCount)[i], PinnedArgs(args, parameterCount))
    ensures DecodeValue(Parameters(args, parameterCount)[i], PinnedArgs(args, parameterCount), loc)
      == Fetched(args[i], loc)
  {
    DecodeEncode(args[i], ArgRef(i), PinnedArgs(args, parameterCount), loc);
  }

  /** An empty byte slice is not NULL on either path; nil and NULL correspond. */
  lemma EmptyIsNotNull(mem: Memory, loc: Location, ref: I64)
    ensures EncodeArg(ByteSlice([]), ref) == NuoValue(0, 0, Bytes)
    ensures DecodeValue(NuoValue(0, 0, Bytes), mem, loc) == ByteSlice([])
    ensures EncodeArg(Nil, ref) == NullValue
    ensures DecodeValue(NullValue, mem, loc) == Nil
  {
  }

  /** `driver.NamedValue`: an optional parameter name and the value. */
  datatype NamedValue = NamedValue(name: string, value: DriverValue)

  /** The values of `named`, in order. */
  function Unnamed(named: seq<NamedValue>): (vs: seq<DriverValue>)
    ensures |vs| == |named|
    ensures forall i :: 0 <= i < |named| ==> vs[i] == named[i].value
  {
    seq(|named|, i requires 0 <= i < |named| => named[i].value)
  }

  /** The error `namedValuesToValues` reports. */
  const NamedValuesMessage: string := "sql driver doesn't support named values"

  /**
   * `namedValuesToValues`: the values in order when no argument has a name,
   * an error as soon as one does.
   */
  method NamedValuesToValues(named: seq<NamedValue>) returns (r: Result<seq<DriverValue>, string>)
    ensures r.Ok? <==> forall i :: 0 <= i < |named| ==> named[i].name == ""
    ensures r.Err? ==> r.error == NamedValuesMessage
    ensures r.Ok? ==> |r.value| == |named| && forall i :: 0 <= i < |named| ==> r.value[i] == named[i].value
    ensures r.Ok? ==> r.value == Unnamed(named)
  {
    var values: seq<DriverValue> := [];
    var k := 0;
    while k < |named|
      invariant 0 <= k <= |named|
      invariant |values| == k
      invariant forall i :: 0 <= i < k ==> named[i].name == "" && values[i] == named[i].value
    {
      if |named[k].name| != 0 {
        return Err(NamedValuesMessage);
      }
      values := values + [named[k].value];
      k := k + 1;
    }
    return Ok(values);
  }
}
