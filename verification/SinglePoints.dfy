/** pkg/modbus/collector.go: ReadSinglePoint and WritePoint between the acquisition and the release of
    opMutex, as functions of the replies, and what they have to do with batch collection. */
module SinglePoints {
  import opened Words
  import opened ByteOrders
  import opened Points
  import opened Converter
  import opened Devices
  import opened Decoding
  import opened Grouping
  import opened Reading

  // ---- Single reads ------------------------------------------------------------------------------

  /** The requests of collectSinglePoint; None for an unsupported data or register type. */
  function SinglePlan(p: Point): Option<seq<Request>>
  {
    match RegisterBank(p.registerType)
    case None => None
    case Some(bank) =>
      match p.dataType {
        case Int16 | UInt16 | Bool => Some([Read(bank, p.address, 1)])
        case Int32 | UInt32 | Float32 => Some([Read(bank, p.address, 2)])
        case Float64 => Some([Read(bank, p.address, 4)])
        case Text => Some(Singles(bank, p.address, p.length))
        case OtherType(_) => None
      }
  }

  /** A value of None is the error the caller gets. The device's order is used as configured and the
      scale is not applied. */
  function ReadOne(settings: Settings, p: Point, es: seq<Exchange>): Progress<Option<Value>>
  {
    match SinglePlan(p)
    case None => Returns(None, es)
    case Some(plan) =>
      match RunPlan(plan, es) {
        case Asks(request) => Asks(request)
        case Strays => Strays
        case Returns(None, rest) => Returns(None, rest)
        case Returns(Some(ws), rest) => Returns(DecodeAs(settings.order, p.dataType, ws), rest)
      }
  }

  predicate Wide(t: DataType) { t.Int32? || t.UInt32? || t.Float32? || t.Float64? }

  /** How many registers a single read fetches. */
  function Fetched(p: Point): nat { if p.dataType.Text? then p.length else Width(p.dataType) }

  /** What a single read sees of the device. A text is read register by register in uint16 addresses,
      so it wraps; any other type is one request, which the device refuses past the last address. */
  function FetchedWords(image: Image, bank: Bank, p: Point): Option<seq<uint16>>
  {
    if p.dataType.Text? then Some(WrappedSlice(image, bank, p.address, p.length))
    else if p.address + Fetched(p) <= ADDRESSES then Some(Slice(image, bank, p.address, Fetched(p)))
    else None
  }

  /** The meaning of a point to the single-point readers. */
  function SingleMeaning(settings: Settings, image: Image, p: Point): Option<Value>
  {
    match RegisterBank(p.registerType)
    case None => None
    case Some(bank) =>
      match FetchedWords(image, bank, p) {
        case None => None
        case Some(words) => DecodeAs(settings.order, p.dataType, words)
      }
  }

  /** At the single path's own addresses, wherever it gets an answer. */
  lemma FetchedIsWrapped(image: Image, bank: Bank, p: Point)
    requires p.dataType.Text? || p.address + Width(p.dataType) <= ADDRESSES
    ensures FetchedWords(image, bank, p) == Some(WrappedSlice(image, bank, p.address, Fetched(p)))
  {
    if !p.dataType.Text? {
      WrappedIsSlice(image, bank, p.address, Fetched(p));
    }
  }

  /** A read that all requests of the plan answered fetched what the device holds. */
  lemma PlanFetches(p: Point, es: seq<Exchange>, image: Image)
    requires SinglePlan(p).Some? && AllHonest(image, es)
    requires RunPlan(SinglePlan(p).value, es).Returns? && RunPlan(SinglePlan(p).value, es).value.Some?
    ensures FetchedWords(image, RegisterBank(p.registerType).value, p) == RunPlan(SinglePlan(p).value, es).value
  {
    hide Singles, WrappedSlice, Table;
    var bank, plan := RegisterBank(p.registerType).value, SinglePlan(p).value;
    if p.dataType.Text? {
      SinglesRead(bank, p.address, p.length, es, image);
    } else {
      assert plan == [Read(bank, p.address, Fetched(p))];
      assert Honest(image, es[0]) && es[0].reply.Answer?;
      assert plan[1..] == [] && es[0].reply.words + [] == es[0].reply.words;
    }
  }

  /** On honest replies a successful single read returns the point's single meaning, and it fails
      only for an unsupported type or a failed request. */
  lemma ReadOneReads(settings: Settings, p: Point, es: seq<Exchange>, image: Image) returns (k: nat)
    requires AllHonest(image, es) && ReadOne(settings, p, es).Returns?
    ensures k <= |es| && ReadOne(settings, p, es).rest == es[k..]
    ensures ReadOne(settings, p, es).value ==
      if SinglePlan(p).Some? && AllAnswered(es[..k]) then SingleMeaning(settings, image, p) else None
  {
    hide RunPlan, FetchedWords, Singles, DecodeAs;
    if SinglePlan(p).None? {
      k := 0;
      assert es[0..] == es;
    } else {
      var plan := SinglePlan(p).value;
      k := PlanConsumes(plan, es);
      if RunPlan(plan, es).value.Some? {
        PlanFetches(p, es, image);
      }
    }
  }

  lemma ReadOneGoesOn(settings: Settings, p: Point, es: seq<Exchange>, reply: Reply)
    requires ReadOne(settings, p, es).Asks?
    ensures ReadOne(settings, p, es).request.Read?
    ensures var next := ReadOne(settings, p, es + [Exchange(ReadOne(settings, p, es).request, reply)]);
      !next.Strays? && (next.Returns? ==> next.rest == [])
  {
    hide RunPlan, Singles, DecodeAs;
    PlanGoesOn(SinglePlan(p).value, es, reply);
  }

  lemma DecodePrefix(order: ByteOrder, t: DataType, regs: seq<uint16>)
    requires !t.Text? && !t.OtherType? && |regs| >= Width(t)
    ensures DecodeAs(order, t, regs[..Width(t)]) == DecodeAs(order, t, regs)
  {
    hide Decode;
    assert Width(t) == 2 ==> regs[..2][..2] == regs[..2];
    assert Width(t) == 4 ==> regs[..4][..4] == regs[..4];
  }

  lemma WrappedPrefix(image: Image, bank: Bank, address: uint16, m: nat, n: nat)
    requires m <= n
    ensures WrappedSlice(image, bank, address, n)[..m] == WrappedSlice(image, bank, address, m)
  {
    hide WrappedSlice;
    WrappedJoin(image, bank, address, m, n - m);
  }

  /** The batch path in terms of the registers the single path fetches. */
  lemma MeaningOfFetched(settings: Settings, image: Image, p: Point)
    requires RegisterBank(p.registerType).Some? && !p.dataType.OtherType? && p.length >= Width(p.dataType)
    requires p.scale == SCALE_ONE
    ensures Meaning(settings, image, p) ==
      GoodValue(p, DecodeAs(BatchOrder(settings), p.dataType,
                            WrappedSlice(image, RegisterBank(p.registerType).value, p.address, Fetched(p))).value)
  {
    hide WrappedSlice, Wire;
    var bank := RegisterBank(p.registerType).value;
    if !p.dataType.Text? {
      WrappedPrefix(image, bank, p.address, Width(p.dataType), p.length);
      DecodePrefix(BatchOrder(settings), p.dataType, WrappedSlice(image, bank, p.address, p.length));
    }
  }

  predicate Agree(settings: Settings, image: Image, p: Point)
  {
    SingleMeaning(settings, image, p).Some? &&
    Meaning(settings, image, p) == GoodValue(p, SingleMeaning(settings, image, p).value)
  }

  /** Batch and single path agree at scale 1, for every data type and on every image, unless the
      byte order is unset and the value is wider than a register, or its registers leave the table. */
  lemma PathsAgree(settings: Settings, image: Image, p: Point)
    requires RegisterBank(p.registerType).Some? && !p.dataType.OtherType? && p.length >= Width(p.dataType)
    requires p.dataType.Text? || p.address + Width(p.dataType) <= ADDRESSES
    requires p.scale == SCALE_ONE && !(settings.order.Unset? && Wide(p.dataType))
    ensures Agree(settings, image, p)
  {
    hide WrappedSlice, Wire, Decode, FetchedWords, Meaning;
    MeaningOfFetched(settings, image, p);
    FetchedIsWrapped(image, RegisterBank(p.registerType).value, p);
  }

  lemma DecodeOnes()
    ensures Decode(Big, [1, 1]) == 0x1_0001
    ensures Decode(Big, [1, 1, 1, 1]) != 0
  {
    Wire2([1, 1]);
    Wire4([1, 1, 1, 1]);
    assert Wire([1, 1]) == [0, 1, 0, 1];
    assert FromBigEndian([0, 1, 0, 1]) == FromBigEndian([0, 1, 0]) * 0x100 + 1 by {
      assert [0, 1, 0, 1][..3] == [0, 1, 0];
    }
    assert FromBigEndian([0, 1, 0]) == FromBigEndian([0, 1]) * 0x100 by {
      assert [0, 1, 0][..2] == [0, 1];
    }
    assert FromBigEndian([0, 1]) == FromBigEndian([0]) * 0x100 + 1 by {
      assert [0, 1][..1] == [0];
    }
    assert FromBigEndian([0]) == 0 by {
      assert [0][..0] == [];
    }
    var wire := Wire([1, 1, 1, 1]);
    assert wire[7] == 1;
  }

  /** The exceptions are real: with the order unset some image makes the two paths disagree on every
      wide point, because the single-point readers then leave their byte buffer zero; and past the end
      of the table the single request of a number is refused, which the batch path is not. */
  lemma PathsAgreeExactly(settings: Settings, base: Image, p: Point)
    requires RegisterBank(p.registerType).Some? && !p.dataType.OtherType? && p.length >= Width(p.dataType)
    requires p.scale == SCALE_ONE
    ensures (forall image :: Agree(settings, image, p)) <==>
      && !(settings.order.Unset? && Wide(p.dataType))
      && (p.dataType.Text? || p.address + Width(p.dataType) <= ADDRESSES)
  {
    hide DecodeAs, Table, Meaning, WrappedSlice;
    if !p.dataType.Text? && p.address + Width(p.dataType) > ADDRESSES {
      assert !Agree(settings, base, p);
    } else if settings.order.Unset? && Wide(p.dataType) {
      UnsetDisagrees(settings, base, p);
    } else {
      forall image ensures Agree(settings, image, p) {
        PathsAgree(settings, image, p);
      }
    }
  }

  function AllOnes(image: Image, bank: Bank): Image
  {
    if bank.InputRegisters? then image.(inputs := seq(0x1_0000, _ => 1)) else image.(holdings := seq(0x1_0000, _ => 1))
  }

  lemma UnsetDisagrees(settings: Settings, base: Image, p: Point)
    requires RegisterBank(p.registerType).Some? && p.length >= Width(p.dataType)
    requires p.address + Width(p.dataType) <= ADDRESSES && p.scale == SCALE_ONE
    requires settings.order.Unset? && Wide(p.dataType)
    ensures exists image :: !Agree(settings, image, p)
  {
    hide Decode, DecodeAs, Meaning, FetchedWords;
    var bank := RegisterBank(p.registerType).value;
    var image := AllOnes(base, bank);
    var regs := WrappedSlice(image, bank, p.address, Fetched(p));
    MeaningOfFetched(settings, image, p);
    FetchedIsWrapped(image, bank, p);
    WideDecodings(p.dataType, regs);
    assert !Agree(settings, image, p);
  }

  lemma WideDecodings(t: DataType, regs: seq<uint16>)
    requires Wide(t) && |regs| == Width(t) && forall i :: 0 <= i < |regs| ==> regs[i] == 1
    ensures DecodeAs(Big, t, regs) != DecodeAs(Unset, t, regs)
  {
    DecodeOnes();
    if t.Float64? {
      assert regs[..4] == [1, 1, 1, 1];
    } else {
      assert regs[..2] == [1, 1];
    }
  }

  // ---- Writes ------------------------------------------------------------------------------------

  // v != 0.0 on the bits of a float64.
  predicate DoubleIsZero(bits: uint64) { ScaleIsZero(bits) }

  /** writeCoil's conversion; None is the unsupported value type. */
  function CoilState(settings: Settings, v: GoValue): Option<bool>
  {
    match v
    case Boolean(b) => Some(b)
    case Integer(kind, _) =>
      Some(if Unsigned(kind) then ToUint64(v, settings.floats) != 0 else ToInt64(v, settings.floats) != 0)
    case Single(_) | Double(_) => Some(!DoubleIsZero(ToFloat64(v, settings.floats)))
    case Unsupported => None
  }

  /** A coil is switched on by true and by every number other than zero, whatever its type. */
  lemma CoilStateMeans(settings: Settings, v: GoValue)
    ensures v.Boolean? ==> CoilState(settings, v) == Some(v.b)
    ensures v.Integer? ==> CoilState(settings, v) == Some(v.n != 0)
    ensures v.Double? ==> CoilState(settings, v) == Some(v.bits64 % 0x8000_0000_0000_0000 != 0)
    ensures CoilState(settings, v).None? <==> v.Unsupported?
  {
  }

  /** writeHoldingRegister's conversion and encoding; None is the unsupported data type. */
  function RegisterWords(settings: Settings, t: DataType, v: GoValue): Option<seq<uint16>>
  {
    match t
    case Int16 => Some([Encode16(settings.order, ToInt16(v, settings.floats))])
    case UInt16 => Some([Encode16(settings.order, ToUint16(v, settings.floats))])
    case Int32 => Some(Encode(settings.order, ToInt32(v, settings.floats), 4))
    case UInt32 => Some(Encode(settings.order, ToUint32(v, settings.floats), 4))
    case Float32 => Some(Encode(settings.order, ToFloat32(v, settings.floats), 4))
    case Float64 => Some(Encode(settings.order, ToFloat64(v, settings.floats), 8))
    case _ => None
  }

  function WriteRequest(settings: Settings, p: Point, v: GoValue): Option<Request>
  {
    match p.registerType
    case Coil =>
      (match CoilState(settings, v)
       case None => None
       case Some(on) => Some(WriteCoil(p.address, on)))
    case HoldingRegister =>
      (match RegisterWords(settings, p.dataType, v)
       case None => None
       case Some(words) => Some(WriteRegisters(p.address, words)))
    case _ => None
  }

  lemma IntendedIsWrite(settings: Settings, p: Point, v: GoValue)
    ensures WriteRequest(settings, p, v).Some? ==> IsWrite(WriteRequest(settings, p, v).value)
  {
    hide CoilState, RegisterWords;
  }

  /** true is a nil error. */
  function WriteOne(settings: Settings, p: Point, v: GoValue, es: seq<Exchange>): Progress<bool>
  {
    match WriteRequest(settings, p, v)
    case None => Returns(false, es)
    case Some(request) =>
      match RunPlan([request], es) {
        case Asks(r) => Asks(r)
        case Strays => Strays
        case Returns(result, rest) => Returns(result.Some?, rest)
      }
  }

  lemma WriteOneGoesOn(settings: Settings, p: Point, v: GoValue, es: seq<Exchange>, reply: Reply)
    requires WriteOne(settings, p, v, es).Asks?
    ensures es == [] && Some(WriteOne(settings, p, v, es).request) == WriteRequest(settings, p, v)
    ensures WriteOne(settings, p, v, es + [Exchange(WriteOne(settings, p, v, es).request, reply)]) ==
            Returns(reply.Answer?, [])
  {
    hide RegisterWords, CoilState;
    var request := WriteRequest(settings, p, v).value;
    PlanGoesOn([request], es, reply);
    assert es + [Exchange(request, reply)] == [Exchange(request, reply)];
    assert [Exchange(request, reply)][1..] == [] && [request][1..] == [];
  }

  // ---- Write, then read --------------------------------------------------------------------------

  predicate Writable(t: DataType) { Wide(t) || t.Int16? || t.UInt16? }

  predicate InWidth(t: DataType, bits: nat)
  {
    if t.Float64? then bits < 0x1_0000_0000_0000_0000
    else if Wide(t) then bits < 0x1_0000_0000
    else bits < 0x1_0000
  }

  /** The 16, 32 or 64 bits that v is converted to. */
  function Bits(settings: Settings, t: DataType, v: GoValue): (bits: nat)
    requires Writable(t)
    ensures InWidth(t, bits)
  {
    match t
    case Int16 => ToInt16(v, settings.floats)
    case UInt16 => ToUint16(v, settings.floats)
    case Int32 => ToInt32(v, settings.floats)
    case UInt32 => ToUint32(v, settings.floats)
    case Float32 => ToFloat32(v, settings.floats)
    case Float64 => ToFloat64(v, settings.floats)
  }

  function ValueOf(t: DataType, bits: nat): Value
    requires Writable(t) && InWidth(t, bits)
  {
    match t
    case Int16 => I16(Signed16(bits))
    case UInt16 => U16(bits)
    case Int32 => I32(Signed32(bits))
    case UInt32 => U32(bits)
    case Float32 => F32(bits)
    case Float64 => F64(bits)
  }

  /** The bits that come back. Wide types lose everything under an order that is none of the four,
      which is written as big and read as zero; 16-bit types exchange their bytes under little and
      swap, where the write does and the read does not. */
  function BitsBack(order: ByteOrder, t: DataType, bits: nat): (back: nat)
    requires Writable(t) && InWidth(t, bits)
    ensures InWidth(t, back)
  {
    if !Wide(t) then Encode16(order, bits) else if order.Unknown? then 0 else bits
  }

  /** The value that a write of v is meant to leave in a point. */
  function WrittenValue(settings: Settings, t: DataType, v: GoValue): Value
    requires Writable(t)
  {
    ValueOf(t, Bits(settings, t, v))
  }

  /** The value that is read from the point afterwards. */
  function ReadBack(settings: Settings, t: DataType, v: GoValue): Value
    requires Writable(t)
  {
    ValueOf(t, BitsBack(settings.order, t, Bits(settings, t, v)))
  }

  lemma EncodeUnset(v: nat, n: nat)
    ensures Encode(Unset, v, n) == Encode(Big, v, n)
  {
  }

  lemma EncodedBits(settings: Settings, t: DataType, v: GoValue)
    requires Writable(t)
    ensures RegisterWords(settings, t, v) ==
      Some(if Wide(t) then Encode(settings.order, Bits(settings, t, v), 2 * Width(t))
           else [Encode16(settings.order, Bits(settings, t, v))])
  {
    hide Encode, Encode16, ToInt16, ToUint16, ToInt32, ToUint32, ToFloat32, ToFloat64;
  }

  lemma DecodeIsValueOf(order: ByteOrder, t: DataType, words: seq<uint16>)
    requires Writable(t) && |words| == Width(t)
    ensures var bits := if Wide(t) then Decode(order, words) else words[0];
      InWidth(t, bits) && DecodeAs(order, t, words) == Some(ValueOf(t, bits))
  {
    hide Decode;
    assert words[..Width(t)] == words;
    if Wide(t) {
      DecodeFits(order, words);
    }
  }

  lemma EncodedComesBack(order: ByteOrder, t: DataType, bits: nat)
    requires Wide(t) && InWidth(t, bits)
    ensures Decode(if order.Unset? then Big else order, Encode(order, bits, 2 * Width(t))) == BitsBack(order, t, bits)
  {
    hide Encode;
    WordSizes();
    EncodeUnset(bits, 2 * Width(t));
    if !order.Unknown? {
      DecodeEncode(if order.Unset? then Big else order, bits, Width(t));
    }
  }

  /** Decoding the words of a write gives the bits that come back: for every writable type and every
      order, named, unset or unknown. */
  lemma WordsDecode(settings: Settings, t: DataType, v: GoValue)
    requires Writable(t)
    ensures RegisterWords(settings, t, v).Some? && |RegisterWords(settings, t, v).value| == Width(t)
    ensures DecodeAs(BatchOrder(settings), t, RegisterWords(settings, t, v).value) ==
            Some(ReadBack(settings, t, v))
  {
    hide Encode, Decode, Bits, ValueOf, DecodeAs, RegisterWords;
    EncodedBits(settings, t, v);
    DecodeIsValueOf(BatchOrder(settings), t, RegisterWords(settings, t, v).value);
    if Wide(t) {
      EncodedComesBack(settings.order, t, Bits(settings, t, v));
    }
  }

  /** q has none of the registers that a write of p changes, before them, behind them, or round the end
      of the table from behind them. */
  predicate Disjoint(p: Point, q: Point)
  {
    || BatchBank(q.registerType) != HoldingRegisters
    || End(q) <= p.address
    || (p.address + Width(p.dataType) <= q.address && End(q) <= ADDRESSES + p.address)
  }

  /** A point that can be written and whose registers hold its type. */
  predicate WritablePoint(p: Point)
  {
    && p.registerType.HoldingRegister? && Writable(p.dataType) && p.scale == SCALE_ONE
    && p.length >= Width(p.dataType) && p.address + Width(p.dataType) <= ADDRESSES
  }

  /** After a write landed, the point itself decodes to exactly this. */
  lemma WriteThenMeaning(settings: Settings, image: Image, p: Point, v: GoValue)
    requires WritablePoint(p)
    ensures WriteRequest(settings, p, v).Some? && InTable(WriteRequest(settings, p, v).value)
    ensures Meaning(settings, Apply(image, WriteRequest(settings, p, v).value), p) ==
            GoodValue(p, ReadBack(settings, p.dataType, v))
  {
    hide RegisterWords, DecodeAs, ReadBack, WrappedSlice;
    WordsDecode(settings, p.dataType, v);
    var words := RegisterWords(settings, p.dataType, v).value;
    var image' := Apply(image, WriteRequest(settings, p, v).value);
    MeaningOfFetched(settings, image', p);
    WrappedIsSlice(image', HoldingRegisters, p.address, Width(p.dataType));
    assert Slice(image', HoldingRegisters, p.address, Width(p.dataType)) == words;
  }

  /** A condition on the value's bits and the order alone. */
  predicate Preserved(order: ByteOrder, t: DataType, bits: nat)
    requires Writable(t) && InWidth(t, bits)
  {
    if Wide(t) then order.Unknown? ==> bits == 0
    else order.Little? || order.Swap? ==> High(bits) == Low(bits)
  }

  lemma BytesMatch(w: uint16)
    ensures SwapBytes(w) == w <==> High(w) == Low(w)
  {
    if SwapBytes(w) == w {
      JoinParts(Low(w), High(w));
    }
    if High(w) == Low(w) {
      SplitJoin(w);
    }
  }

  ghost predicate RoundTrips(settings: Settings, image: Image, p: Point, v: GoValue)
    requires WritablePoint(p)
  {
    && WriteRequest(settings, p, v).Some?
    && Meaning(settings, Apply(image, WriteRequest(settings, p, v).value), p) ==
       GoodValue(p, WrittenValue(settings, p.dataType, v))
  }

  /** A written value comes back exactly when the order is one of the four or unset, or the bits are
      zero, for 32- and 64-bit types; and exactly when the order is neither little nor swap, or the
      two bytes match, for 16-bit types. */
  lemma RoundTripExactly(settings: Settings, image: Image, p: Point, v: GoValue)
    requires WritablePoint(p)
    ensures RoundTrips(settings, image, p, v) <==>
            Preserved(settings.order, p.dataType, Bits(settings, p.dataType, v))
  {
    hide Meaning, Apply, WriteRequest, Bits, SwapBytes;
    WriteThenMeaning(settings, image, p, v);
    var bits := Bits(settings, p.dataType, v);
    if !Wide(p.dataType) {
      BytesMatch(bits);
    }
  }

  /** The write of a coil: a bool point there then reads the written state. */
  lemma CoilThenMeaning(settings: Settings, image: Image, p: Point, v: GoValue)
    requires p.registerType.Coil? && p.dataType.Bool? && p.length > 0 && CoilState(settings, v).Some?
    ensures WriteRequest(settings, p, v).Some?
    ensures Meaning(settings, Apply(image, WriteRequest(settings, p, v).value), p) ==
            GoodValue(p, B(CoilState(settings, v).value))
  {
    hide CoilState;
    var image' := Apply(image, WriteRequest(settings, p, v).value);
    assert WrappedSlice(image', Coils, p.address, p.length)[0] == BitWord(CoilState(settings, v).value);
  }

  lemma OverwriteElsewhere<T>(s: seq<T>, at: nat, ws: seq<T>, a: nat)
    requires at + |ws| <= |s| && a < |s| && (a < at || at + |ws| <= a)
    ensures Overwrite(s, at, ws)[a] == s[a]
  {
  }

  /** Nothing disjoint changes. */
  lemma WriteElsewhere(settings: Settings, image: Image, p: Point, v: GoValue, q: Point)
    requires p.registerType.HoldingRegister? && WriteRequest(settings, p, v).Some? && Disjoint(p, q)
    ensures Meaning(settings, Apply(image, WriteRequest(settings, p, v).value), q) == Meaning(settings, image, q)
  {
    hide Parsed, RegisterWords, AsWords, Overwrite;
    WordCount(settings, p.dataType, v);
    var words := RegisterWords(settings, p.dataType, v).value;
    var image', bank := Apply(image, WriteRegisters(p.address, words)), BatchBank(q.registerType);
    if image' != image && bank.HoldingRegisters? {
      forall i | 0 <= i < q.length
        ensures WrappedSlice(image', bank, q.address, q.length)[i] == WrappedSlice(image, bank, q.address, q.length)[i]
      {
        OverwriteElsewhere(image.holdings, p.address, words, Wrap16(q.address + i));
      }
    }
    assert WrappedSlice(image', bank, q.address, q.length) == WrappedSlice(image, bank, q.address, q.length);
  }

  lemma WordCount(settings: Settings, t: DataType, v: GoValue)
    requires RegisterWords(settings, t, v).Some?
    ensures |RegisterWords(settings, t, v).value| == Width(t)
  {
  }

  lemma WrittenPoint(settings: Settings, image: Image, p: Point, v: GoValue, q: Point, served: bool)
    requires WritablePoint(p) && WriteRequest(settings, p, v).Some?
    ensures WrittenReport(settings, image, p, v, q, served,
                          Expected(settings, Apply(image, WriteRequest(settings, p, v).value), q, served))
  {
    hide Meaning, WriteRequest, Apply, ReadBack;
    WriteThenMeaning(settings, image, p, v);
    if Disjoint(p, q) {
      WriteElsewhere(settings, image, p, v, q);
    }
  }

  /** Write, then collect any configuration: wherever a group reads its own registers and was served,
      the written point in it is GOOD with the value read back, and every disjoint point reports what
      it would have reported. */
  lemma WriteThenCollect(settings: Settings, image: Image, p: Point, v: GoValue, groups: seq<BatchGroup>,
                         es: seq<Exchange>, values: seq<PointValue>)
    requires WritablePoint(p) && WriteRequest(settings, p, v).Some?
    requires AllHonest(Apply(image, WriteRequest(settings, p, v).value), es)
    requires CollectGroups(settings, groups, es).Returns? && CollectGroups(settings, groups, es).value == Some(values)
    ensures forall j, k :: 0 <= j < |groups| && 0 <= k < |groups[j].points| ==>
      WrittenAt(settings, image, p, v, groups, es, values, j, k)
  {
    hide CollectGroups, ReadsOwn, WasServed, CompleteRead, WriteRequest, Apply, Expected, WrittenReport;
    var image' := Apply(image, WriteRequest(settings, p, v).value);
    forall j, k | 0 <= j < |groups| && 0 <= k < |groups[j].points|
      ensures WrittenAt(settings, image, p, v, groups, es, values, j, k)
    {
      CollectReportsAt(settings, groups, es, image', j, k);
      WrittenPoint(settings, image, p, v, groups[j].points[k], WasServed(groups, es, j));
    }
  }

  ghost predicate WrittenReport(settings: Settings, image: Image, p: Point, v: GoValue, q: Point, served: bool,
                                value: PointValue)
  {
    && (q == p && Writable(p.dataType) ==>
          value == if served then GoodValue(p, ReadBack(settings, p.dataType, v)) else BadValue(p))
    && (Disjoint(p, q) ==> value == Expected(settings, image, q, served))
  }

  ghost predicate WrittenAt(settings: Settings, image: Image, p: Point, v: GoValue, groups: seq<BatchGroup>,
                            es: seq<Exchange>, values: seq<PointValue>, j: nat, k: nat)
    requires j < |groups| && k < |groups[j].points|
  {
    && Offset(groups, j) + k < |values|
    && (ReadsOwn(groups[j]) ==>
          WrittenReport(settings, image, p, v, groups[j].points[k], WasServed(groups, es, j),
                        values[Offset(groups, j) + k]))
  }

  /** The groups that the point is in read their own registers; there is one, if it is configured once. */
  ghost predicate ReadsPoint(points: seq<Point>, p: Point)
  {
    forall j, k | 0 <= j < |Grouped(points)| && 0 <= k < |Grouped(points)[j].points| ::
      Grouped(points)[j].points[k] == p ==> ReadsOwn(Grouped(points)[j])
  }

  /** Write, then collect with every request answered: the value read back is reported, GOOD. */
  lemma WriteComesBack(settings: Settings, image: Image, p: Point, v: GoValue, points: seq<Point>, es: seq<Exchange>,
                       values: seq<PointValue>)
    requires WritablePoint(p) && WriteRequest(settings, p, v).Some? && p in points && ReadsPoint(points, p)
    requires AllHonest(Apply(image, WriteRequest(settings, p, v).value), es) && AllAnswered(es)
    requires CollectGroups(settings, Grouped(points), es).Returns?
    requires CollectGroups(settings, Grouped(points), es).value == Some(values)
    ensures GoodValue(p, ReadBack(settings, p.dataType, v)) in values
  {
    hide CollectGroups, Grouped, ReadsOwn, WasServed, WriteRequest, Apply, ReadBack;
    var j, k := PlaceOf(points, p);
    WriteThenCollect(settings, image, p, v, Grouped(points), es, values);
    AnsweredServes(settings, Grouped(points), es, j);
    assert WrittenAt(settings, image, p, v, Grouped(points), es, values, j, k);
  }

  // ---- Integers ----------------------------------------------------------------------------------

  /** Any integer of any Go type: a write means its one representative modulo 2^16 or 2^32 in the
      range of the point's type. */
  lemma IntegerWritten(settings: Settings, v: GoValue)
    requires v.Integer?
    ensures WrittenValue(settings, Int16, v) == I16(Signed16(Wrap16(v.n)))
    ensures WrittenValue(settings, UInt16, v) == U16(Wrap16(v.n))
    ensures WrittenValue(settings, Int32, v) == I32(Signed32(Wrap32(v.n)))
    ensures WrittenValue(settings, UInt32, v) == U32(Wrap32(v.n))
  {
    NarrowingIsModular(v, settings.floats);
  }

  function IntWidth(t: DataType): nat { if t.Int16? || t.UInt16? then 0x1_0000 else 0x1_0000_0000 }

  function IntOf(v: Value): int
    requires v.I16? || v.U16? || v.I32? || v.U32?
  {
    match v
    case I16(n) => n
    case U16(n) => n
    case I32(n) => n
    case U32(n) => n
  }

  predicate IntRange(t: DataType, n: int)
  {
    match t
    case Int16 => -0x8000 <= n < 0x8000
    case UInt16 => 0 <= n < 0x1_0000
    case Int32 => -0x8000_0000 <= n < 0x8000_0000
    case _ => 0 <= n < 0x1_0000_0000
  }

  /** Writing an integer to a 16- or 32-bit integer point and collecting it gives the one number of
      the type's range that is congruent to it, whenever the order preserves its bits. */
  lemma IntegerComesBack(settings: Settings, image: Image, p: Point, v: GoValue)
    requires WritablePoint(p) && (p.dataType.Int16? || p.dataType.UInt16? || p.dataType.Int32? || p.dataType.UInt32?)
    requires v.Integer? && Preserved(settings.order, p.dataType, v.n % IntWidth(p.dataType))
    ensures WriteRequest(settings, p, v).Some?
    ensures var value := Meaning(settings, Apply(image, WriteRequest(settings, p, v).value), p).value;
      && value.Some? && (value.value.I16? || value.value.U16? || value.value.I32? || value.value.U32?)
      && var m := IntOf(value.value);
         IntRange(p.dataType, m) && m % IntWidth(p.dataType) == v.n % IntWidth(p.dataType)
  {
    hide Meaning, Apply, WriteRequest, ToInt16, ToUint16, ToInt32, ToUint32;
    NarrowingIsModular(v, settings.floats);
    RoundTripExactly(settings, image, p, v);
  }
}
