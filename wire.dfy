/**
 * The value that crosses the C boundary (cnuodb.h): a tag from a closed
 * enumeration of seven kinds plus a 64-bit and a 32-bit integer slot.
 * Pointers carried in the 64-bit slot are opaque buffer references into a
 * `Memory`; payloads are byte sequences.
 */
module Wire {
  import opened Wrappers

  const TWO_TO_31: int := 0x8000_0000
  const TWO_TO_32: int := 0x1_0000_0000
  const TWO_TO_63: int := 0x8000_0000_0000_0000
  const TWO_TO_64: int := 0x1_0000_0000_0000_0000

  /** `int64_t` */
  type I64 = x: int | -0x8000_0000_0000_0000 <= x < 0x8000_0000_0000_0000
  /** `int32_t` */
  type I32 = x: int | -0x8000_0000 <= x < 0x8000_0000
  type Byte = bv8

  /** A conversion to `int64_t` that keeps the low 64 bits, two's complement. */
  function Wrap64(x: int): (r: I64)
    ensures (r - x) % TWO_TO_64 == 0
    ensures -TWO_TO_63 <= x < TWO_TO_63 ==> r == x
  {
    (x + TWO_TO_63) % TWO_TO_64 - TWO_TO_63
  }

  /** A conversion to `int32_t` that keeps the low 32 bits, two's complement. */
  function Wrap32(x: int): (r: I32)
    ensures (r - x) % TWO_TO_32 == 0
    ensures -TWO_TO_31 <= x < TWO_TO_31 ==> r == x
  {
    (x + TWO_TO_31) % TWO_TO_32 - TWO_TO_31
  }

  /** `enum nuodb_value_type`. `String` is used only for bind parameters. */
  datatype ValueType = Null | Int64 | Float64 | Bool | String | Bytes | Time

  /** The C ordinal of each enumerator. */
  function Ordinal(t: ValueType): nat
  {
    match t
    case Null => 0
    case Int64 => 1
    case Float64 => 2
    case Bool => 3
    case String => 4
    case Bytes => 5
    case Time => 6
  }

  /** The enumerator a C ordinal denotes, if any. */
  function TagOf(n: int): (t: Option<ValueType>)
    ensures t.Some? <==> 0 <= n < 7
    ensures t.Some? ==> Ordinal(t.value) == n
  {
    if n == 0 then Some(Null)
    else if n == 1 then Some(Int64)
    else if n == 2 then Some(Float64)
    else if n == 3 then Some(Bool)
    else if n == 4 then Some(String)
    else if n == 5 then Some(Bytes)
    else if n == 6 then Some(Time)
    else None
  }

  /** The ordinals are exactly 0..6, one per enumerator, in declaration order. */
  lemma OrdinalsAreConsecutive()
    ensures forall t: ValueType :: TagOf(Ordinal(t)) == Some(t)
    ensures forall t: ValueType, u: ValueType :: Ordinal(t) == Ordinal(u) ==> t == u
    ensures forall t: ValueType :: Ordinal(t) < 7
  {
  }

  /** `struct nuodb_value`: the two slots and the tag, and nothing else. */
  datatype NuoValue = NuoValue(i64: I64, i32: I32, vt: ValueType)

  const NullValue: NuoValue := NuoValue(0, 0, Null)

  /** Reads a `struct nuodb_value` from its three raw fields. */
  function FromRaw(i64: I64, i32: I32, ordinal: int): (v: Option<NuoValue>)
    ensures v.Some? <==> 0 <= ordinal < 7
  {
    match TagOf(ordinal)
    case Some(t) => Some(NuoValue(i64, i32, t))
    case None => None
  }

  /** Every value is exactly its three raw fields; a zero-filled one is NULL. */
  lemma RawRoundTrip(v: NuoValue)
    ensures FromRaw(v.i64, v.i32, Ordinal(v.vt)) == Some(v)
    ensures FromRaw(0, 0, 0) == Some(NullValue)
  {
    assert TagOf(Ordinal(v.vt)) == Some(v.vt) by { OrdinalsAreConsecutive(); }
  }

  /** Tags whose value refers to a byte buffer: address in `i64`, length in `i32`. */
  predicate IsRef(t: ValueType)
  {
    t == String || t == Bytes
  }

  /**
   * The memory a buffer reference may point into: each address maps to the
   * bytes readable from it on. Addresses are opaque.
   */
  type Memory = map<I64, seq<Byte>>

  /** `len` bytes can be read from `addr`; a non-positive length reads nothing. */
  predicate Readable(mem: Memory, addr: I64, len: int)
  {
    len <= 0 || (addr in mem && len <= |mem[addr]|)
  }

  /** The `len` bytes at `addr`, or none for a non-positive length. */
  function Load(mem: Memory, addr: I64, len: int): (b: seq<Byte>)
    requires Readable(mem, addr, len)
    ensures |b| == if len <= 0 then 0 else len
  {
    if len <= 0 then [] else mem[addr][..len]
  }
}
