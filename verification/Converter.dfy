/** pkg/modbus/converter.go: dynamic values to the widths the registers hold. */
module Converter {
  import opened Words

  // Go's integer types; int and uint are the 64-bit ones of the deployed platforms.
  datatype IntKind = GoInt | GoInt8 | GoInt16 | GoInt32 | GoInt64 | GoUint | GoUint8 | GoUint16 | GoUint32 | GoUint64

  predicate Unsigned(kind: IntKind)
  {
    kind.GoUint? || kind.GoUint8? || kind.GoUint16? || kind.GoUint32? || kind.GoUint64?
  }

  predicate InRange(kind: IntKind, n: int)
  {
    match kind
    case GoInt | GoInt64 => -0x8000_0000_0000_0000 <= n < 0x8000_0000_0000_0000
    case GoInt8 => -0x80 <= n < 0x80
    case GoInt16 => -0x8000 <= n < 0x8000
    case GoInt32 => -0x8000_0000 <= n < 0x8000_0000
    case GoUint | GoUint64 => 0 <= n < 0x1_0000_0000_0000_0000
    case GoUint8 => 0 <= n < 0x100
    case GoUint16 => 0 <= n < 0x1_0000
    case GoUint32 => 0 <= n < 0x1_0000_0000
  }

  /** An interface{} as the write path tells it apart; floats are bit patterns. */
  datatype RawValue =
    | Integer(kind: IntKind, n: int)
    | Single(bits32: uint32)
    | Double(bits64: uint64)
    | Boolean(b: bool)
    | Unsupported

  type GoValue = v: RawValue | v.Integer? ==> InRange(v.kind, v.n) witness Unsupported

  /** Float conversions are the platform's: any functions whatever. Integers appear here as the
      int64 or uint64 the source converts first. */
  datatype FloatOps = FloatOps(
    singleToInt: uint32 -> uint64,
    doubleToInt: uint64 -> uint64,
    singleToUint: uint32 -> uint64,
    doubleToUint: uint64 -> uint64,
    singleToDouble: uint32 -> uint64,
    doubleToSingle: uint64 -> uint32,
    intToSingle: int -> uint32,
    intToDouble: int -> uint64)

  // toInt64; the result is the int64's 64 bits as an unsigned word.
  function ToInt64(v: GoValue, ops: FloatOps): uint64
  {
    match v
    case Integer(_, n) => Wrap64(n)
    case Single(bits) => ops.singleToInt(bits)
    case Double(bits) => ops.doubleToInt(bits)
    case _ => 0
  }

  function ToUint64(v: GoValue, ops: FloatOps): uint64
  {
    match v
    case Integer(_, n) => Wrap64(n)
    case Single(bits) => ops.singleToUint(bits)
    case Double(bits) => ops.doubleToUint(bits)
    case _ => 0
  }

  // The narrowing conversions, again as the bits of the result.
  function ToInt16(v: GoValue, ops: FloatOps): uint16 { Wrap16(Signed64(ToInt64(v, ops))) }

  function ToUint16(v: GoValue, ops: FloatOps): uint16 { Wrap16(ToUint64(v, ops)) }

  function ToInt32(v: GoValue, ops: FloatOps): uint32 { Wrap32(Signed64(ToInt64(v, ops))) }

  function ToUint32(v: GoValue, ops: FloatOps): uint32 { Wrap32(ToUint64(v, ops)) }

  function ToFloat32(v: GoValue, ops: FloatOps): uint32
  {
    match v
    case Single(bits) => bits
    case Double(bits) => ops.doubleToSingle(bits)
    case Integer(kind, _) =>
      ops.intToSingle(if Unsigned(kind) then ToUint64(v, ops) else Signed64(ToInt64(v, ops)))
    case _ => 0
  }

  function ToFloat64(v: GoValue, ops: FloatOps): uint64
  {
    match v
    case Single(bits) => ops.singleToDouble(bits)
    case Double(bits) => bits
    case Integer(kind, _) =>
      ops.intToDouble(if Unsigned(kind) then ToUint64(v, ops) else Signed64(ToInt64(v, ops)))
    case _ => 0
  }

  lemma Truncate32(k: int, w: int)
    ensures (k * 0x1_0000_0000 + w) % 0x1_0000_0000 == w % 0x1_0000_0000
  {
  }

  lemma Truncate16(k: int, w: int)
    ensures (k * 0x1_0000 + w) % 0x1_0000 == w % 0x1_0000
  {
  }

  lemma TruncateTwice(n: int, q: int, w: int)
    requires n == q * 0x1_0000_0000_0000_0000 + w
    ensures n % 0x1_0000_0000 == w % 0x1_0000_0000 && n % 0x1_0000 == w % 0x1_0000
  {
    Truncate32(q * 0x1_0000_0000, w);
    Truncate16(q * 0x1_0000_0000_0000, w);
  }

  /** Every narrowing of an integer of any Go type is that integer modulo the width. */
  lemma NarrowingIsModular(v: GoValue, ops: FloatOps)
    requires v.Integer?
    ensures ToInt16(v, ops) == Wrap16(v.n) && ToUint16(v, ops) == Wrap16(v.n)
    ensures ToInt32(v, ops) == Wrap32(v.n) && ToUint32(v, ops) == Wrap32(v.n)
  {
    var n := v.n;
    var q := n / 0x1_0000_0000_0000_0000;
    TruncateTwice(n, q, Wrap64(n));
    TruncateTwice(n, q + 1, Wrap64(n) as int - 0x1_0000_0000_0000_0000);
  }

  /** The signed reading of the narrowed bits is the one representative in the signed range. */
  lemma SignedRepresentative(n: int, r: int)
    ensures -0x8000_0000 <= Signed32(Wrap32(n)) < 0x8000_0000
    ensures -0x8000 <= Signed16(Wrap16(n)) < 0x8000
    ensures -0x8000_0000 <= r < 0x8000_0000 && Wrap32(r) == Wrap32(n) ==> r == Signed32(Wrap32(n))
    ensures -0x8000 <= r < 0x8000 && Wrap16(r) == Wrap16(n) ==> r == Signed16(Wrap16(n))
  {
  }
}
