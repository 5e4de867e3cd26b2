/** pkg/modbus/collector.go, parseRegistersForPoint and the scaling in collectBatchGroup: from
    registers to typed values. Floats are bit patterns. */
module Decoding {
  import opened Words
  import opened ByteOrders
  import opened Points
  import opened Converter
  import opened Devices

  datatype Value =
    | I16(i16: int) | U16(u16: int) | I32(i32: int) | U32(u32: int)
    | F32(f32: nat) | F64(f64: nat) | B(b: bool) | S(bytes: seq<uint8>)

  /** A device's configuration: its byte order and the platform's float arithmetic. scaler is the
      product with the scale factor, converted back to the value's own type: any function whatever. */
  datatype Settings = Settings(order: ByteOrder, floats: FloatOps, scaler: (Value, uint64) -> Value)

  // The batch reader defaults an unset order to big; the single-point readers do not.
  function BatchOrder(settings: Settings): ByteOrder
  {
    if settings.order.Unset? then Big else settings.order
  }

  /** The registers a data type needs; a text takes what its point is given. */
  function Width(t: DataType): nat
  {
    match t
    case Int16 | UInt16 | Bool => 1
    case Int32 | UInt32 | Float32 => 2
    case Float64 => 4
    case Text | OtherType(_) => 0
  }

  function UntilZero(bs: seq<uint8>): (r: seq<uint8>)
    ensures r <= bs && 0 !in r
    ensures |r| < |bs| ==> bs[|r|] == 0
  {
    if bs == [] || bs[0] == 0 then [] else [bs[0]] + UntilZero(bs[1..])
  }

  /** None is the error of too few registers or an unsupported type. */
  function DecodeAs(order: ByteOrder, t: DataType, regs: seq<uint16>): (v: Option<Value>)
    ensures v.Some? <==> !t.OtherType? && |regs| >= Width(t)
  {
    if |regs| < Width(t) then None
    else match t {
      case Int16 => Some(I16(Signed16(regs[0])))
      case UInt16 => Some(U16(regs[0]))
      case Int32 => Some(I32(Signed32(Bits32(order, regs))))
      case UInt32 => Some(U32(Bits32(order, regs)))
      case Float32 => Some(F32(Bits32(order, regs)))
      case Float64 => Some(F64(Decode(order, regs[..4])))
      case Bool => Some(B(regs[0] != 0))
      case Text => Some(S(UntilZero(Wire(regs))))
      case OtherType(_) => None
    }
  }

  function Bits32(order: ByteOrder, regs: seq<uint16>): uint32
    requires |regs| >= 2
  {
    DecodeFits(order, regs[..2]);
    Decode(order, regs[..2])
  }

  function ApplyScale(settings: Settings, v: Value, scale: uint64): Value
  {
    if scale == SCALE_ONE || v.B? || v.S? then v else settings.scaler(v, scale)
  }

  datatype Quality = Good | Bad

  datatype PointValue = PointValue(name: string, value: Option<Value>, dataType: DataType, quality: Quality)

  function BadValue(p: Point): PointValue { PointValue(p.name, None, p.dataType, Bad) }

  function GoodValue(p: Point, v: Value): PointValue { PointValue(p.name, Some(v), p.dataType, Good) }

  /** The value reported for a point whose registers were read. */
  function Parsed(settings: Settings, p: Point, regs: seq<uint16>): PointValue
  {
    match DecodeAs(BatchOrder(settings), p.dataType, regs)
    case None => BadValue(p)
    case Some(v) => GoodValue(p, ApplyScale(settings, v, p.scale))
  }

  // readBatch's dispatch; an unknown register type is read as holding registers.
  function BatchBank(t: RegisterType): Bank
  {
    match t
    case Coil => Coils
    case DiscreteInput => DiscreteInputs
    case InputRegister => InputRegisters
    case _ => HoldingRegisters
  }

  // getModbusRegisterType: what can be read register by register.
  function RegisterBank(t: RegisterType): Option<Bank>
  {
    match t
    case InputRegister => Some(InputRegisters)
    case HoldingRegister => Some(HoldingRegisters)
    case _ => None
  }

  /** The simple meaning of a point: the image of the device at the point's own addresses, decoded.
      Addresses are uint16: a range that passes the last one continues at 0. */
  function Meaning(settings: Settings, image: Image, p: Point): PointValue
  {
    Parsed(settings, p, WrappedSlice(image, BatchBank(p.registerType), p.address, p.length))
  }

  /** What a point is worth when its group was read (served) or was not. */
  function Expected(settings: Settings, image: Image, p: Point, served: bool): PointValue
  {
    if served then Meaning(settings, image, p) else BadValue(p)
  }

  // ---- The method --------------------------------------------------------------------------------

  lemma WireStep(registers: seq<uint16>, i: nat)
    requires i < |registers|
    ensures Wire(registers[i..]) == [High(registers[i]), Low(registers[i])] + Wire(registers[i + 1..])
  {
    assert registers[i..][1..] == registers[i + 1..];
  }

  /** The byte buffer of a string: each register's high byte, then its low byte. */
  method RegisterBytes(registers: seq<uint16>) returns (bytes: array<uint8>)
    ensures bytes[..] == Wire(registers)
  {
    hide Wire, High, Low;
    bytes := new uint8[|registers| * 2](_ => 0);
    assert registers[0..] == registers;
    var i := 0;
    while i < |registers|
      invariant 0 <= i <= |registers|
      invariant bytes.Length == 2 * |registers|
      invariant Wire(registers) == bytes[..2 * i] + Wire(registers[i..])
    {
      ghost var done := bytes[..2 * i];
      WireStep(registers, i);
      PutUint16(bytes, 2 * i, High(registers[i]), Low(registers[i]));
      assert bytes[..2 * (i + 1)] == done + [High(registers[i]), Low(registers[i])];
      i := i + 1;
    }
  }

  lemma UntilZeroStep(bs: seq<uint8>, i: nat)
    requires i < |bs|
    ensures UntilZero(bs[i..]) == if bs[i] == 0 then [] else [bs[i]] + UntilZero(bs[i + 1..])
  {
    assert bs[i..][1..] == bs[i + 1..];
  }

  /** Bytes up to the first zero. */
  method TrimAtZero(bytes: array<uint8>) returns (result: seq<uint8>)
    ensures result == UntilZero(bytes[..])
  {
    hide UntilZero;
    ghost var input := bytes[..];
    result := [];
    var i := 0;
    assert input[0..] == input;
    while i < bytes.Length
      invariant 0 <= i <= bytes.Length
      invariant UntilZero(input) == result + UntilZero(input[i..])
    {
      UntilZeroStep(input, i);
      if bytes[i] != 0 {
        result := result + [bytes[i]];
      } else {
        return;
      }
      i := i + 1;
    }
  }

  datatype Parse = Parses(value: Value) | ParseError | IndexPanic

  /** Too few registers for the point or its type and an unsupported type are errors; a type of one
      register panics on none. */
  method ParseRegistersForPoint(settings: Settings, point: Point, registers: seq<uint16>) returns (r: Parse)
    ensures r.IndexPanic? <==> point.length == 0 == |registers| && Width(point.dataType) == 1
    ensures r.Parses? <==>
      |registers| >= point.length && DecodeAs(BatchOrder(settings), point.dataType, registers).Some?
    ensures r.Parses? ==> Some(r.value) == DecodeAs(BatchOrder(settings), point.dataType, registers)
  {
    if |registers| < point.length as int {
      return ParseError;
    }
    var deviceByteOrder := settings.order;
    if deviceByteOrder.Unset? {
      deviceByteOrder := Big;
    }
    match point.dataType {
      case Int16 =>
        if |registers| == 0 { return IndexPanic; }
        return Parses(I16(Signed16(registers[0])));
      case UInt16 =>
        if |registers| == 0 { return IndexPanic; }
        return Parses(U16(registers[0]));
      case Int32 =>
        if |registers| < 2 { return ParseError; }
        var bits := Word32FromRegisters(registers, deviceByteOrder);
        return Parses(I32(Signed32(bits)));
      case UInt32 =>
        if |registers| < 2 { return ParseError; }
        var bits := Word32FromRegisters(registers, deviceByteOrder);
        return Parses(U32(bits));
      case Float32 =>
        if |registers| < 2 { return ParseError; }
        var bits := Word32FromRegisters(registers, deviceByteOrder);
        return Parses(F32(bits));
      case Float64 =>
        if |registers| < 4 { return ParseError; }
        var bits := Float64FromRegisters(registers, deviceByteOrder);
        return Parses(F64(bits));
      case Bool =>
        if |registers| == 0 { return IndexPanic; }
        return Parses(B(registers[0] != 0));
      case Text =>
        var bytes := RegisterBytes(registers);
        var text := TrimAtZero(bytes);
        return Parses(S(text));
      case OtherType(_) => return ParseError;
    }
  }
}
