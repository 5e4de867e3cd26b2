/** What the values and requests of the other modules are, in terms of the device's tables and of
    numbers: an independent reading of the decoding, the scaling, the conversions and the limits. */
module Meanings {
  import opened Words
  import opened ByteOrders
  import opened Points
  import opened Converter
  import opened Devices
  import opened Decoding
  import opened Grouping
  import opened Reading
  import opened SinglePoints
  import opened Exactness

  // ---- Tables ------------------------------------------------------------------------------------

  /** The register, or the bit as 1 or 0, that a register type names at an address; a type that is none
      of the four names holding registers. */
  function Register(image: Image, t: RegisterType, address: uint16): uint16
  {
    match t
    case Coil => if image.coils[address] then 1 else 0
    case DiscreteInput => if image.discreteInputs[address] then 1 else 0
    case InputRegister => image.inputs[address]
    case HoldingRegister => image.holdings[address]
    case OtherRegister(_) => image.holdings[address]
  }

  /** Register i of a point. */
  function RegisterOf(image: Image, p: Point, i: nat): uint16
  {
    Register(image, p.registerType, (p.address + i) % 0x1_0000)
  }

  /** The first n of them. */
  function RegistersOf(image: Image, p: Point, n: nat): (regs: seq<uint16>)
    ensures |regs| == n && forall i :: 0 <= i < n ==> regs[i] == RegisterOf(image, p, i)
  {
    seq(n, i requires 0 <= i < n => RegisterOf(image, p, i))
  }

  lemma RegistersAre(image: Image, p: Point, i: nat)
    requires i < p.length
    ensures WrappedSlice(image, BatchBank(p.registerType), p.address, p.length)[i] == RegisterOf(image, p, i)
  {
  }

  // ---- Scaling -----------------------------------------------------------------------------------

  /** The meaning of a point is its meaning at scale 1, and, if the scale is another and the value a
      number, that value scaled once. */
  lemma ScaledOnce(settings: Settings, image: Image, p: Point)
    ensures var plain, scaled := Meaning(settings, image, p.(scale := SCALE_ONE)), Meaning(settings, image, p);
      && scaled.quality == plain.quality
      && scaled.value ==
         if plain.value.None? || p.scale == 0x3FF0_0000_0000_0000 || p.dataType.Bool? || p.dataType.Text?
         then plain.value
         else Some(settings.scaler(plain.value.value, p.scale))
  {
    hide WrappedSlice, Decode, Wire, UntilZero;
  }

  /** The bits of 1.0, and those of zero, by sign, exponent and fraction of a float64. */
  lemma ScaleBits(bits: uint64)
    ensures bits == SCALE_ONE <==>
      bits / 0x8000_0000_0000_0000 == 0 && bits / 0x10_0000_0000_0000 % 0x800 == 1023 && bits % 0x10_0000_0000_0000 == 0
    ensures ScaleIsZero(bits) <==> bits / 0x10_0000_0000_0000 % 0x800 == 0 && bits % 0x10_0000_0000_0000 == 0
  {
  }

  /** The single-point readers do not look at the scale. */
  lemma SingleIgnoresScale(settings: Settings, image: Image, p: Point, scale: uint64)
    ensures SingleMeaning(settings, image, p.(scale := scale)) == SingleMeaning(settings, image, p)
  {
  }

  // ---- Numbers -----------------------------------------------------------------------------------

  predicate OneRegister(t: DataType) { t.Int16? || t.UInt16? || t.Bool? }

  /** How many registers a value takes; a text takes what there is. */
  function Needs(t: DataType): nat
  {
    if OneRegister(t) then 1 else if t.Int32? || t.UInt32? || t.Float32? then 2 else if t.Float64? then 4 else 0
  }

  /** The number at scale 1: two's complement for the signed types, bits for the floats. */
  function Number(order: ByteOrder, t: DataType, regs: seq<uint16>): Value
    requires |regs| >= Needs(t) && !t.Text? && !t.OtherType?
  {
    match t
    case Int16 =>
      var n: int := regs[0];
      I16(if n < 0x8000 then n else n - 0x1_0000)
    case UInt16 => U16(regs[0])
    case Bool => B(regs[0] != 0)
    case Int32 =>
      var n := Meant2(order, regs[0], regs[1]);
      I32(if n < 0x8000_0000 then n else n - 0x1_0000_0000)
    case UInt32 => U32(Meant2(order, regs[0], regs[1]))
    case Float32 => F32(Meant2(order, regs[0], regs[1]))
    case Float64 => F64(Meant4(order, regs[0], regs[1], regs[2], regs[3]))
  }

  lemma DecodesNumber(order: ByteOrder, t: DataType, regs: seq<uint16>)
    requires |regs| >= Needs(t) && !t.Text? && !t.OtherType?
    ensures DecodeAs(order, t, regs) == Some(Number(order, t, regs))
  {
    hide Decode, Meant2, Meant4;
    if Needs(t) == 2 {
      DecodeInNumbers2(order, regs[0], regs[1]);
      assert regs[..2] == [regs[0], regs[1]];
    } else if Needs(t) == 4 {
      DecodeInNumbers4(order, regs[0], regs[1], regs[2], regs[3]);
      assert regs[..4] == [regs[0], regs[1], regs[2], regs[3]];
    }
  }

  /** A number that a collection reports at scale 1, from the device's tables: big where the order is unset. */
  lemma NumberMeaning(settings: Settings, image: Image, p: Point)
    requires !p.dataType.Text? && !p.dataType.OtherType? && p.length >= Needs(p.dataType)
    requires p.scale == SCALE_ONE
    ensures Meaning(settings, image, p) ==
      PointValue(p.name,
                 Some(Number(if settings.order.Unset? then Big else settings.order, p.dataType,
                             RegistersOf(image, p, p.length))),
                 p.dataType, Good)
  {
    hide DecodeAs, Number, WrappedSlice, Register;
    var regs := RegistersOf(image, p, p.length);
    forall i | 0 <= i < p.length
      ensures WrappedSlice(image, BatchBank(p.registerType), p.address, p.length)[i] == regs[i]
    {
      RegistersAre(image, p, i);
    }
    assert WrappedSlice(image, BatchBank(p.registerType), p.address, p.length) == regs;
    DecodesNumber(BatchOrder(settings), p.dataType, regs);
  }

  /** A bool point of length 1, for every register type. */
  lemma BoolMeaning(settings: Settings, image: Image, p: Point)
    requires p.dataType.Bool? && p.length == 1
    ensures Meaning(settings, image, p).value == Some(B(
      match p.registerType {
        case Coil => image.coils[p.address]
        case DiscreteInput => image.discreteInputs[p.address]
        case InputRegister => image.inputs[p.address] != 0
        case HoldingRegister => image.holdings[p.address] != 0
        case OtherRegister(_) => image.holdings[p.address] != 0
      }))
  {
  }

  /** A number that a single read returns: the order as configured, and zero where it is not one of the
      four; None for bits, for unknown register types and past the end of the table. */
  lemma NumberSingly(settings: Settings, image: Image, p: Point)
    requires !p.dataType.Text? && !p.dataType.OtherType?
    ensures SingleMeaning(settings, image, p) ==
      if (p.registerType.InputRegister? || p.registerType.HoldingRegister?) && p.address + Needs(p.dataType) <= 0x1_0000
      then Some(Number(settings.order, p.dataType, RegistersOf(image, p, Needs(p.dataType))))
      else None
  {
    hide DecodeAs, Number;
    var n := Needs(p.dataType);
    if RegisterBank(p.registerType).Some? && p.address + n <= 0x1_0000 {
      var regs := RegistersOf(image, p, n);
      forall i | 0 <= i < n ensures Slice(image, RegisterBank(p.registerType).value, p.address, n)[i] == regs[i] {
        assert (p.address + i) % 0x1_0000 == p.address + i;
      }
      assert Slice(image, RegisterBank(p.registerType).value, p.address, n) == regs;
      DecodesNumber(settings.order, p.dataType, regs);
    }
  }

  // ---- Texts -------------------------------------------------------------------------------------

  /** Byte i of a point's registers, high bytes first. */
  function ByteOf(image: Image, p: Point, i: nat): int
  {
    var w := RegisterOf(image, p, i / 2);
    if i % 2 == 0 then w / 0x100 else w % 0x100
  }

  /** bs are the point's bytes up to the first zero. */
  ghost predicate TextOf(image: Image, p: Point, bs: seq<uint8>)
  {
    && 0 !in bs
    && |bs| <= 2 * p.length
    && (forall i :: 0 <= i < |bs| ==> bs[i] == ByteOf(image, p, i))
    && (|bs| < 2 * p.length ==> ByteOf(image, p, |bs|) == 0)
  }

  lemma {:induction false} WireAt(regs: seq<uint16>, i: nat)
    requires i < 2 * |regs|
    ensures Wire(regs)[i] == if i % 2 == 0 then regs[i / 2] / 0x100 else regs[i / 2] % 0x100
    decreases |regs|
  {
    if i >= 2 {
      WireAt(regs[1..], i - 2);
      assert Wire(regs)[i] == Wire(regs[1..])[i - 2];
    }
  }

  lemma UntilZeroIsText(image: Image, p: Point, regs: seq<uint16>)
    requires |regs| == p.length && forall i :: 0 <= i < |regs| ==> regs[i] == RegisterOf(image, p, i)
    ensures TextOf(image, p, UntilZero(Wire(regs)))
  {
    hide Wire, UntilZero, RegisterOf;
    var wire := Wire(regs);
    var bs := UntilZero(wire);
    forall i | 0 <= i < |wire| ensures wire[i] == ByteOf(image, p, i) {
      WireAt(regs, i);
    }
    assert bs <= wire;
  }

  /** A text point means its bytes up to the first zero, whatever the scale and the order. */
  lemma TextMeaning(settings: Settings, image: Image, p: Point)
    requires p.dataType.Text?
    ensures Meaning(settings, image, p).value.Some? && Meaning(settings, image, p).value.value.S?
    ensures TextOf(image, p, Meaning(settings, image, p).value.value.bytes)
  {
    hide Wire, UntilZero, WrappedSlice, TextOf, RegisterOf;
    var regs := WrappedSlice(image, BatchBank(p.registerType), p.address, p.length);
    forall i | 0 <= i < |regs| ensures regs[i] == RegisterOf(image, p, i) {
      RegistersAre(image, p, i);
    }
    UntilZeroIsText(image, p, regs);
  }

  /** So does a single read of one, from the two register tables only. */
  lemma TextSingly(settings: Settings, image: Image, p: Point)
    requires p.dataType.Text?
    ensures SingleMeaning(settings, image, p).Some? <==>
      p.registerType.InputRegister? || p.registerType.HoldingRegister?
    ensures SingleMeaning(settings, image, p).Some? ==>
      SingleMeaning(settings, image, p).value.S? && TextOf(image, p, SingleMeaning(settings, image, p).value.bytes)
  {
    hide Wire, UntilZero, TextOf, RegisterOf, WrappedSlice;
    if RegisterBank(p.registerType).Some? {
      assert RegisterBank(p.registerType).value == BatchBank(p.registerType);
      var regs := WrappedSlice(image, BatchBank(p.registerType), p.address, p.length);
      forall i | 0 <= i < |regs| ensures regs[i] == RegisterOf(image, p, i) {
        RegistersAre(image, p, i);
      }
      UntilZeroIsText(image, p, regs);
    }
  }

  // ---- Qualities ---------------------------------------------------------------------------------

  /** A reported value has its point's name and type; it is BAD, and then empty, exactly when the group
      was not read, the type is unknown, or the point has fewer registers than its type needs. */
  lemma ExpectedIs(settings: Settings, image: Image, p: Point, served: bool)
    ensures var v := Expected(settings, image, p, served);
      && v.name == p.name && v.dataType == p.dataType
      && (v.quality.Bad? <==> v.value.None?)
      && (v.quality.Bad? <==> !served || p.dataType.OtherType? || p.length < Needs(p.dataType))
  {
    hide WrappedSlice, Decode, Wire, UntilZero;
  }

  /** A collection without a connection reports every point so. */
  lemma {:induction false} BadValuesCarryNothing(points: seq<Point>)
    ensures |BadValues(points)| == |points|
    ensures forall i :: 0 <= i < |points| ==>
      BadValues(points)[i] == PointValue(points[i].name, None, points[i].dataType, Bad)
  {
    BadValuesAre(points);
  }

  // ---- Requests ----------------------------------------------------------------------------------

  /** The most that one read asks for. */
  function Most(t: RegisterType): nat
  {
    if t.Coil? || t.DiscreteInput? then 2000 else if t.InputRegister? then 125 else 123
  }

  /** A group is read with one request if it is within the limit of its type, and otherwise with as few
      as the limit allows, from its start on, none over the limit. */
  lemma RequestsWithinLimits(g: BatchGroup)
    ensures forall i :: 0 <= i < |MainPlan(g)| ==>
      && MainPlan(g)[i].Read? && MainPlan(g)[i].bank == BatchBank(g.registerType)
      && MainPlan(g)[i].count <= Most(g.registerType)
    ensures g.totalLength <= Most(g.registerType) ==>
      MainPlan(g) == [Read(BatchBank(g.registerType), g.startAddress, g.totalLength)]
    ensures g.totalLength > Most(g.registerType) ==>
      g.totalLength <= |MainPlan(g)| * Most(g.registerType) < g.totalLength + Most(g.registerType)
  {
    hide SplitPlan;
    var bank := BatchBank(g.registerType);
    SplitWithinLimit(bank, g.startAddress, g.totalLength, Limit(bank));
    SplitCount(bank, g.startAddress, g.totalLength, Limit(bank));
  }

  /** Which table a request of a register type goes to. */
  lemma TableOfType(image: Image, t: RegisterType, address: uint16)
    ensures Slice(image, BatchBank(t), address, 1) == [Register(image, t, address)]
    ensures BatchBank(t).Coils? <==> t.Coil?
    ensures BatchBank(t).DiscreteInputs? <==> t.DiscreteInput?
    ensures BatchBank(t).InputRegisters? <==> t.InputRegister?
  {
  }

  /** After its only request failed, a group of input or holding registers goes on with one request for
      each register of each point, and any other group is given up, as is every split group. */
  lemma Fallback(g: BatchGroup, more: seq<Exchange>)
    ensures MainPlan(g) != []
    ensures ReadGroup(g, [Exchange(MainPlan(g)[0], Failed)] + more) ==
      if g.totalLength <= Most(g.registerType) && (g.registerType.InputRegister? || g.registerType.HoldingRegister?)
      then RunPlan(IndividualPlan(BatchBank(g.registerType), g.points), more)
      else Returns(None, more)
  {
    hide RunPlan, MainPlan, ReadGroup, IndividualPlan;
    FallsBack(g, more);
  }

  /** The single read's requests: one for a number, one for each register of a text, none where it fails. */
  lemma SingleRequests(p: Point)
    ensures SinglePlan(p).Some? <==>
      (p.registerType.InputRegister? || p.registerType.HoldingRegister?) && !p.dataType.OtherType?
    ensures SinglePlan(p).Some? && !p.dataType.Text? ==>
      SinglePlan(p).value == [Read(BatchBank(p.registerType), p.address, Needs(p.dataType))]
    ensures SinglePlan(p).Some? && p.dataType.Text? ==>
      && |SinglePlan(p).value| == p.length
      && forall i :: 0 <= i < p.length ==>
           SinglePlan(p).value[i] == Read(BatchBank(p.registerType), (p.address + i) % 0x1_0000, 1)
  {
  }

  // ---- Writes ------------------------------------------------------------------------------------

  /** What can be written: coils, and holding registers of the six numeric types; at the point's address. */
  lemma WhatIsWritten(settings: Settings, p: Point, v: GoValue)
    ensures WriteRequest(settings, p, v).Some? <==>
      || (p.registerType.Coil? && !v.Unsupported?)
      || (p.registerType.HoldingRegister? && !p.dataType.Bool? && !p.dataType.Text? && !p.dataType.OtherType?)
    ensures WriteRequest(settings, p, v).Some? ==>
      match WriteRequest(settings, p, v).value {
        case WriteCoil(address, _) => p.registerType.Coil? && address == p.address
        case WriteRegisters(address, words) =>
          p.registerType.HoldingRegister? && address == p.address && |words| == Needs(p.dataType)
        case _ => false
      }
  {
    hide Encode, Encode16;
  }

  /** A landed coil write sets that coil and nothing else. */
  lemma CoilApplied(image: Image, address: uint16, on: bool, t: RegisterType, a: uint16)
    ensures Register(Apply(image, WriteCoil(address, on)), t, a) ==
      if t.Coil? && a == address then (if on then 1 else 0) else Register(image, t, a)
  {
  }

  /** A landed register write sets its registers and nothing else. */
  lemma RegistersApplied(image: Image, address: uint16, words: seq<uint16>, t: RegisterType, a: uint16)
    requires words != [] && address + |words| <= 0x1_0000
    ensures Register(Apply(image, WriteRegisters(address, words)), t, a) ==
      if (t.HoldingRegister? || t.OtherRegister?) && address <= a < address + |words| then words[a - address]
      else Register(image, t, a)
  {
  }

  /** No other request changes the device. */
  lemma OthersApplyNothing(image: Image, request: Request)
    requires !request.WriteCoil? && !request.WriteRegisters?
    ensures Apply(image, request) == image
  {
  }

  /** Floats: a value of the point's own width is written bit for bit, any other goes through the
      platform's conversion, and an integer type takes the integer conversion modulo its width. */
  lemma FloatWritten(settings: Settings, b: uint64, s: uint32)
    ensures WrittenValue(settings, Float64, Double(b)) == F64(b)
    ensures WrittenValue(settings, Float32, Single(s)) == F32(s)
    ensures WrittenValue(settings, Float32, Double(b)) == F32(settings.floats.doubleToSingle(b))
    ensures WrittenValue(settings, Float64, Single(s)) == F64(settings.floats.singleToDouble(s))
    ensures WrittenValue(settings, UInt32, Double(b)) == U32(settings.floats.doubleToUint(b) % 0x1_0000_0000)
    ensures WrittenValue(settings, UInt16, Double(b)) == U16(settings.floats.doubleToUint(b) % 0x1_0000)
    ensures WrittenValue(settings, UInt32, Single(s)) == U32(settings.floats.singleToUint(s) % 0x1_0000_0000)
    ensures WrittenValue(settings, UInt16, Single(s)) == U16(settings.floats.singleToUint(s) % 0x1_0000)
    ensures WrittenValue(settings, Int32, Double(b)) == I32(Signed32(settings.floats.doubleToInt(b) % 0x1_0000_0000))
    ensures WrittenValue(settings, Int16, Double(b)) == I16(Signed16(settings.floats.doubleToInt(b) % 0x1_0000))
    ensures WrittenValue(settings, Int32, Single(s)) == I32(Signed32(settings.floats.singleToInt(s) % 0x1_0000_0000))
    ensures WrittenValue(settings, Int16, Single(s)) == I16(Signed16(settings.floats.singleToInt(s) % 0x1_0000))
  {
    hide Signed16, Signed32;
    LowHalf(settings.floats.doubleToInt(b));
    LowHalf(settings.floats.singleToInt(s));
  }

  lemma LowHalf(w: uint64)
    ensures Wrap32(Signed64(w)) == w % 0x1_0000_0000 && Wrap16(Signed64(w)) == w % 0x1_0000
  {
    if w >= 0x8000_0000_0000_0000 {
      TruncateTwice(w, 1, w as int - 0x1_0000_0000_0000_0000);
    }
  }

  /** An integer becomes a float by the platform's conversion of that integer. */
  lemma IntegerAsFloat(settings: Settings, v: GoValue)
    requires v.Integer?
    ensures WrittenValue(settings, Float32, v) == F32(settings.floats.intToSingle(v.n))
    ensures WrittenValue(settings, Float64, v) == F64(settings.floats.intToDouble(v.n))
  {
  }

  /** A bool, or a value of an unsupported type, is written to a number as zero. */
  lemma NoNumberIsZero(settings: Settings, t: DataType, v: GoValue)
    requires Writable(t) && (v.Boolean? || v.Unsupported?)
    ensures WrittenValue(settings, t, v) ==
      match t {
        case Int16 => I16(0)
        case UInt16 => U16(0)
        case Int32 => I32(0)
        case UInt32 => U32(0)
        case Float32 => F32(0)
        case Float64 => F64(0)
      }
  {
  }

  /** A single-precision value switches a coil on unless its double is a zero. */
  lemma SingleSwitches(settings: Settings, s: uint32)
    ensures CoilState(settings, Single(s)) ==
            Some(settings.floats.singleToDouble(s) % 0x8000_0000_0000_0000 != 0)
  {
  }

  /** A float64 written to a float64 point comes back bit for bit, and a float32 to a float32 point, in
      every order that is one of the four or unset. */
  lemma FloatComesBack(settings: Settings, image: Image, p: Point, b: uint64, s: uint32)
    requires WritablePoint(p) && !settings.order.Unknown?
    ensures p.dataType.Float64? ==>
      && WriteRequest(settings, p, Double(b)).Some?
      && Meaning(settings, Apply(image, WriteRequest(settings, p, Double(b)).value), p) == GoodValue(p, F64(b))
    ensures p.dataType.Float32? ==>
      && WriteRequest(settings, p, Single(s)).Some?
      && Meaning(settings, Apply(image, WriteRequest(settings, p, Single(s)).value), p) == GoodValue(p, F32(s))
  {
    hide Meaning, Apply, WriteRequest;
    FloatWritten(settings, b, s);
    RoundTripExactly(settings, image, p, Double(b));
    RoundTripExactly(settings, image, p, Single(s));
  }
}
