/** pkg/modbus/byteorder.go: how a 32- or 64-bit value is laid out in 16-bit registers.

    The reference is the letter table of docs/byte_order.md. With the value's bytes written most
    significant first, the registers carry ABCD (big), DCBA (little), BADC (swap) or CDAB (middle),
    and for 64 bits HGFEDCBA, BADCFEHG and EFGHABCD. The source encodes and decodes by different
    routes; both are proved to follow this one table. */
module ByteOrders {
  import opened Words

  // Unset is the empty string of a configuration without byte_order; nothing validates the others.
  datatype ByteOrder = Big | Little | Swap | Middle | Unset | Unknown(text: string)

  predicate Named(order: ByteOrder) { order.Big? || order.Little? || order.Swap? || order.Middle? }

  function SwapPairs(bs: seq<uint8>): (r: seq<uint8>)
    ensures |r| == |bs|
  {
    if bs == [] then [] else if |bs| == 1 then [0] else [bs[1], bs[0]] + SwapPairs(bs[2..])
  }

  /** The order in which the bytes of a value travel; every layout is its own inverse. */
  function Layout(order: ByteOrder, bs: seq<uint8>): (wire: seq<uint8>)
    ensures |wire| == |bs|
  {
    match order
    case Little => Reverse(bs)
    case Swap => SwapPairs(bs)
    case Middle => bs[|bs| / 2..] + bs[..|bs| / 2]
    case _ => bs
  }

  /** The bytes of a register sequence, high byte of each register first. */
  function Wire(regs: seq<uint16>): (bs: seq<uint8>)
    ensures |bs| == 2 * |regs|
  {
    if regs == [] then [] else [High(regs[0]), Low(regs[0])] + Wire(regs[1..])
  }

  function Registers(bs: seq<uint8>): (regs: seq<uint16>)
    ensures |regs| == |bs| / 2
  {
    if |bs| < 2 then [] else [Join(bs[0], bs[1])] + Registers(bs[2..])
  }

  /** What a register write of an n-byte value puts on the device. */
  function Encode(order: ByteOrder, v: nat, n: nat): (regs: seq<uint16>)
    ensures |regs| == n / 2
  {
    Registers(Layout(order, BigEndian(v, n)))
  }

  /** What the readers make of registers. An order that is not one of the four matches no case of
      the buffer fillers, whose buffer then stays zero. */
  function Decode(order: ByteOrder, regs: seq<uint16>): nat
  {
    if Named(order) then FromBigEndian(Layout(order, Wire(regs))) else 0
  }

  /** A 16-bit value has a rule of its own: little and swap exchange its bytes, middle does not. */
  function Encode16(order: ByteOrder, v: uint16): uint16
  {
    if order.Little? || order.Swap? then SwapBytes(v) else v
  }

  // ---- The codec is a bijection ----------------------------------------------------------------

  lemma {:induction false} SwapPairsTwice(bs: seq<uint8>)
    requires |bs| % 2 == 0
    ensures SwapPairs(SwapPairs(bs)) == bs
  {
    if bs != [] {
      SwapPairsTwice(bs[2..]);
      assert SwapPairs(bs)[2..] == SwapPairs(bs[2..]);
      assert [bs[0], bs[1]] + bs[2..] == bs;
    }
  }

  lemma LayoutTwice(order: ByteOrder, bs: seq<uint8>)
    requires |bs| % 2 == 0
    ensures Layout(order, Layout(order, bs)) == bs
  {
    if order.Swap? {
      SwapPairsTwice(bs);
    }
  }

  lemma {:induction false} RegistersOfWire(regs: seq<uint16>)
    ensures Registers(Wire(regs)) == regs
  {
    if regs != [] {
      RegistersOfWire(regs[1..]);
      SplitJoin(regs[0]);
      assert Wire(regs)[2..] == Wire(regs[1..]);
      assert [regs[0]] + regs[1..] == regs;
    }
  }

  lemma {:induction false} WireOfRegisters(bs: seq<uint8>, k: nat)
    requires |bs| == 2 * k
    ensures Wire(Registers(bs)) == bs
  {
    if k > 0 {
      WireOfRegisters(bs[2..], k - 1);
      JoinParts(bs[0], bs[1]);
      var regs := Registers(bs);
      assert regs[1..] == Registers(bs[2..]);
      assert Wire(regs) == [bs[0], bs[1]] + bs[2..];
    }
  }

  /** Decoding what was encoded gives the value back, at every even width and in every named order. */
  lemma DecodeEncode(order: ByteOrder, v: nat, k: nat)
    requires Named(order) && v < Pow256(2 * k)
    ensures Decode(order, Encode(order, v, 2 * k)) == v
  {
    var bs := BigEndian(v, 2 * k);
    WireOfRegisters(Layout(order, bs), k);
    LayoutTwice(order, bs);
    FromBigEndianOfBigEndian(v, 2 * k);
  }

  /** Encoding what was decoded gives the registers back. */
  lemma EncodeDecode(order: ByteOrder, regs: seq<uint16>, n: nat)
    requires Named(order) && n == 2 * |regs|
    ensures Decode(order, regs) < Pow256(n)
    ensures Encode(order, Decode(order, regs), n) == regs
  {
    var wire := Wire(regs);
    var bs := Layout(order, wire);
    assert Decode(order, regs) == FromBigEndian(bs);
    EncodeOfBytes(order, bs, n);
    calc {
      Encode(order, FromBigEndian(bs), n);
      Registers(Layout(order, bs));
      { LayoutTwice(order, wire); }
      Registers(wire);
      { RegistersOfWire(regs); }
      regs;
    }
  }

  lemma EncodeOfBytes(order: ByteOrder, bs: seq<uint8>, n: nat)
    requires |bs| == n
    ensures FromBigEndian(bs) < Pow256(n)
    ensures Encode(order, FromBigEndian(bs), n) == Registers(Layout(order, bs))
  {
    BigEndianOfFromBigEndian(bs);
  }

  /** 32-bit values: two registers, both directions. */
  lemma Codec32(order: ByteOrder, v: uint32, regs: seq<uint16>)
    requires Named(order) && |regs| == 2
    ensures Decode(order, Encode(order, v, 4)) == v
    ensures Decode(order, regs) < 0x1_0000_0000 && Encode(order, Decode(order, regs), 4) == regs
  {
    WordSizes();
    DecodeEncode(order, v, 2);
    EncodeDecode(order, regs, 4);
  }

  /** 64-bit values: four registers, both directions. */
  lemma Codec64(order: ByteOrder, v: uint64, regs: seq<uint16>)
    requires Named(order) && |regs| == 4
    ensures Decode(order, Encode(order, v, 8)) == v
    ensures Decode(order, regs) < 0x1_0000_0000_0000_0000 && Encode(order, Decode(order, regs), 8) == regs
  {
    WordSizes();
    DecodeEncode(order, v, 4);
    EncodeDecode(order, regs, 8);
  }

  /** The letter table: how Encode places the bytes A B C D (and E F G H) of a value in registers. */
  lemma LetterTable32(order: ByteOrder, bs: seq<uint8>)
    requires |bs| == 4
    ensures Registers(Layout(order, bs)) ==
      match order {
        case Little => [Join(bs[3], bs[2]), Join(bs[1], bs[0])]
        case Swap => [Join(bs[1], bs[0]), Join(bs[3], bs[2])]
        case Middle => [Join(bs[2], bs[3]), Join(bs[0], bs[1])]
        case _ => [Join(bs[0], bs[1]), Join(bs[2], bs[3])]
      }
  {
    SwapPairs4(bs);
    Registers4(Layout(order, bs));
  }

  lemma LetterTable64(order: ByteOrder, bs: seq<uint8>)
    requires |bs| == 8
    ensures Registers(Layout(order, bs)) ==
      match order {
        case Little => [Join(bs[7], bs[6]), Join(bs[5], bs[4]), Join(bs[3], bs[2]), Join(bs[1], bs[0])]
        case Swap => [Join(bs[1], bs[0]), Join(bs[3], bs[2]), Join(bs[5], bs[4]), Join(bs[7], bs[6])]
        case Middle => [Join(bs[4], bs[5]), Join(bs[6], bs[7]), Join(bs[0], bs[1]), Join(bs[2], bs[3])]
        case _ => [Join(bs[0], bs[1]), Join(bs[2], bs[3]), Join(bs[4], bs[5]), Join(bs[6], bs[7])]
      }
  {
    SwapPairs4(bs[4..]);
    assert SwapPairs(bs) == [bs[1], bs[0]] + SwapPairs(bs[2..]);
    assert SwapPairs(bs[2..]) == [bs[3], bs[2]] + SwapPairs(bs[4..]);
    var wire := Layout(order, bs);
    Registers4(wire[4..]);
    assert Registers(wire) == [Join(wire[0], wire[1])] + Registers(wire[2..]);
    assert Registers(wire[2..]) == [Join(wire[2], wire[3])] + Registers(wire[4..]);
  }

  // ---- The codec in numbers ----------------------------------------------------------------------

  function Exchange8(w: uint16): uint16 { w % 0x100 * 0x100 + w / 0x100 }

  /** The value of two registers, most significant first. */
  function Number2(a: uint16, b: uint16): nat { a * 0x1_0000 + b }

  function Number4(a: uint16, b: uint16, c: uint16, d: uint16): nat
  {
    Number2(a, b) * 0x1_0000_0000 + Number2(c, d)
  }

  /** What two registers mean in each order, in numbers; none of the four means zero. */
  function Meant2(order: ByteOrder, a: uint16, b: uint16): nat
  {
    match order
    case Big => Number2(a, b)
    case Little => Number2(Exchange8(b), Exchange8(a))
    case Swap => Number2(Exchange8(a), Exchange8(b))
    case Middle => Number2(b, a)
    case _ => 0
  }

  function Meant4(order: ByteOrder, a: uint16, b: uint16, c: uint16, d: uint16): nat
  {
    match order
    case Big => Number4(a, b, c, d)
    case Little => Number4(Exchange8(d), Exchange8(c), Exchange8(b), Exchange8(a))
    case Swap => Number4(Exchange8(a), Exchange8(b), Exchange8(c), Exchange8(d))
    case Middle => Number4(c, d, a, b)
    case _ => 0
  }

  lemma Number2OfBytes(bs: seq<uint8>)
    requires |bs| == 4
    ensures FromBigEndian(bs) == Number2(Join(bs[0], bs[1]), Join(bs[2], bs[3]))
  {
    FourBytes(bs);
  }

  lemma FourBytes(bs: seq<uint8>)
    requires |bs| == 4
    ensures FromBigEndian(bs) == ((bs[0] as int * 0x100 + bs[1]) * 0x100 + bs[2]) * 0x100 + bs[3]
  {
    assert bs[..3][..2] == bs[..2] && bs[..2][..1] == bs[..1] && bs[..1][..0] == [];
    assert FromBigEndian(bs) == FromBigEndian(bs[..3]) * 0x100 + bs[3];
    assert FromBigEndian(bs[..3]) == FromBigEndian(bs[..2]) * 0x100 + bs[2];
    assert FromBigEndian(bs[..2]) == FromBigEndian(bs[..1]) * 0x100 + bs[1];
    assert FromBigEndian(bs[..1]) == FromBigEndian([]) * 0x100 + bs[0];
  }

  lemma Number4OfBytes(bs: seq<uint8>)
    requires |bs| == 8
    ensures FromBigEndian(bs) ==
      Number4(Join(bs[0], bs[1]), Join(bs[2], bs[3]), Join(bs[4], bs[5]), Join(bs[6], bs[7]))
  {
    hide FromBigEndian, Join;
    BytesJoin(bs[..4], bs[4..]);
    assert bs[..4] + bs[4..] == bs;
    Number2OfBytes(bs[..4]);
    Number2OfBytes(bs[4..]);
  }

  lemma BytesJoin(high: seq<uint8>, low: seq<uint8>)
    requires |low| == 4
    ensures FromBigEndian(high + low) == FromBigEndian(high) * 0x1_0000_0000 + FromBigEndian(low)
  {
    FourBytes(low);
    var bs := high + low;
    var n := |high|;
    assert bs[..n] == high;
    assert bs[..n + 3][..n + 2] == bs[..n + 2] && bs[..n + 2][..n + 1] == bs[..n + 1] && bs[..n + 1][..n] == bs[..n];
    assert FromBigEndian(bs) == FromBigEndian(bs[..n + 3]) * 0x100 + low[3];
    assert FromBigEndian(bs[..n + 3]) == FromBigEndian(bs[..n + 2]) * 0x100 + low[2];
    assert FromBigEndian(bs[..n + 2]) == FromBigEndian(bs[..n + 1]) * 0x100 + low[1];
    assert FromBigEndian(bs[..n + 1]) == FromBigEndian(bs[..n]) * 0x100 + low[0];
  }

  /** What a 32-bit read makes of two registers. */
  lemma DecodeInNumbers2(order: ByteOrder, a: uint16, b: uint16)
    ensures Decode(order, [a, b]) == Meant2(order, a, b)
  {
    hide FromBigEndian, Layout;
    if Named(order) {
      Wire2([a, b]);
      var wire := Wire([a, b]);
      var bs := Layout(order, wire);
      Number2OfBytes(bs);
      Placed4(order, wire);
      WordParts(a, 0, 0);
      WordParts(b, 0, 0);
    }
  }

  lemma Placed4(order: ByteOrder, bs: seq<uint8>)
    requires |bs| == 4 && Named(order)
    ensures Layout(order, bs) ==
      match order {
        case Little => [bs[3], bs[2], bs[1], bs[0]]
        case Swap => [bs[1], bs[0], bs[3], bs[2]]
        case Middle => [bs[2], bs[3], bs[0], bs[1]]
        case _ => bs
      }
  {
    SwapPairs4(bs);
  }

  lemma Placed8(order: ByteOrder, bs: seq<uint8>)
    requires |bs| == 8 && Named(order)
    ensures Layout(order, bs) ==
      match order {
        case Little => [bs[7], bs[6], bs[5], bs[4], bs[3], bs[2], bs[1], bs[0]]
        case Swap => [bs[1], bs[0], bs[3], bs[2], bs[5], bs[4], bs[7], bs[6]]
        case Middle => [bs[4], bs[5], bs[6], bs[7], bs[0], bs[1], bs[2], bs[3]]
        case _ => bs
      }
  {
    SwapPairs8(bs);
  }

  /** What a 64-bit read makes of four. */
  lemma DecodeInNumbers4(order: ByteOrder, a: uint16, b: uint16, c: uint16, d: uint16)
    ensures Decode(order, [a, b, c, d]) == Meant4(order, a, b, c, d)
  {
    hide FromBigEndian, Layout;
    if Named(order) {
      Wire4([a, b, c, d]);
      var wire := Wire([a, b, c, d]);
      var bs := Layout(order, wire);
      Number4OfBytes(bs);
      Placed8(order, wire);
      WordParts(a, 0, 0);
      WordParts(b, 0, 0);
      WordParts(c, 0, 0);
      WordParts(d, 0, 0);
    }
  }

  /** What a 32- or 64-bit write puts on the device means the value in the same order, and big for an
      order that is none of the four; a 16-bit write exchanges the bytes under little and swap. */
  lemma EncodeInNumbers(order: ByteOrder, v: uint32, w: uint64, h: uint16)
    ensures var regs := Encode(order, v, 4); Meant2(if Named(order) then order else Big, regs[0], regs[1]) == v
    ensures var regs := Encode(order, w, 8);
      Meant4(if Named(order) then order else Big, regs[0], regs[1], regs[2], regs[3]) == w
    ensures Encode16(order, h) == if order.Little? || order.Swap? then Exchange8(h) else h
  {
    hide Registers, Layout, FromBigEndian, BigEndian, Decode, Meant2, Meant4;
    var named := if Named(order) then order else Big;
    AsBig(order, v, 4);
    AsBig(order, w, 8);
    var short, long := Encode(named, v, 4), Encode(named, w, 8);
    Codec32(named, v, short);
    Codec64(named, w, long);
    assert short == [short[0], short[1]] && long == [long[0], long[1], long[2], long[3]];
    DecodeInNumbers2(named, short[0], short[1]);
    DecodeInNumbers4(named, long[0], long[1], long[2], long[3]);
    WordParts(h, 0, 0);
  }

  lemma AsBig(order: ByteOrder, v: nat, n: nat)
    ensures !Named(order) ==> Encode(order, v, n) == Encode(Big, v, n)
  {
  }

  lemma SwapPairs4(bs: seq<uint8>)
    requires |bs| == 4
    ensures SwapPairs(bs) == [bs[1], bs[0], bs[3], bs[2]]
  {
    assert SwapPairs(bs) == [bs[1], bs[0]] + SwapPairs(bs[2..]);
  }

  lemma Registers4(bs: seq<uint8>)
    requires |bs| == 4
    ensures Registers(bs) == [Join(bs[0], bs[1]), Join(bs[2], bs[3])]
  {
    assert Registers(bs) == [Join(bs[0], bs[1])] + Registers(bs[2..]);
  }

  lemma Wire2(regs: seq<uint16>)
    requires |regs| == 2
    ensures Wire(regs) == [High(regs[0]), Low(regs[0]), High(regs[1]), Low(regs[1])]
  {
    assert Wire(regs) == [High(regs[0]), Low(regs[0])] + Wire(regs[1..]);
  }

  lemma Wire4(regs: seq<uint16>)
    requires |regs| == 4
    ensures Wire(regs) == [High(regs[0]), Low(regs[0]), High(regs[1]), Low(regs[1]),
                           High(regs[2]), Low(regs[2]), High(regs[3]), Low(regs[3])]
  {
    Wire2(regs[2..]);
    assert Wire(regs) == [High(regs[0]), Low(regs[0])] + Wire(regs[1..]);
    assert Wire(regs[1..]) == [High(regs[1]), Low(regs[1])] + Wire(regs[2..]);
  }

  // ---- Encoders --------------------------------------------------------------------------------

  /** binary.BigEndian.PutUint16/32/64 at an offset: width bytes are written, the others are kept. */
  method PutBigEndian(bytes: array<uint8>, at: nat, width: nat, v: nat)
    requires at + width <= bytes.Length
    modifies bytes
    ensures bytes[..] == old(bytes[..at]) + BigEndian(v, width) + old(bytes[at + width..])
  {
    var rest, k := v, width;
    while k > 0
      invariant 0 <= k <= width && rest >= 0
      invariant BigEndian(v, width) == BigEndian(rest, k) + bytes[at + k..at + width]
      invariant bytes[..at] == old(bytes[..at]) && bytes[at + width..] == old(bytes[at + width..])
    {
      ghost var tail := bytes[at + k..at + width];
      bytes[at + k - 1] := rest % 0x100;
      assert bytes[at + k - 1..at + width] == [rest % 0x100] + tail;
      rest, k := rest / 0x100, k - 1;
    }
  }

  /** binary.BigEndian.Uint16 of two bytes. */
  method Uint16At(bytes: array<uint8>, at: nat) returns (w: uint16)
    requires at + 2 <= bytes.Length
    ensures w == Join(bytes[at], bytes[at + 1])
  {
    w := Join(bytes[at], bytes[at + 1]);
  }

  lemma SwapPairsStep(bs: seq<uint8>)
    ensures |bs| <= 1 ==> SwapPairs(bs) == seq(|bs|, _ => 0)
    ensures |bs| >= 2 ==> SwapPairs(bs) == [bs[1], bs[0]] + SwapPairs(bs[2..])
  {
  }

  method SwapBytesInRegisters(bytes: array<uint8>) returns (result: array<uint8>)
    ensures fresh(result) && result[..] == SwapPairs(bytes[..])
  {
    hide SwapPairs;
    SwapPairsStep([]);
    result := new uint8[bytes.Length](_ => 0);
    var i := 0;
    while i < bytes.Length
      invariant 0 <= i <= bytes.Length + 1
      invariant i <= bytes.Length ==> SwapPairs(bytes[..]) == result[..i] + SwapPairs(bytes[i..])
      invariant i > bytes.Length ==> SwapPairs(bytes[..]) == result[..]
      invariant forall k :: i <= k < bytes.Length ==> result[k] == 0
    {
      ghost var done := result[..i];
      SwapPairsStep(bytes[i..]);
      if i + 1 < bytes.Length {
        result[i] := bytes[i + 1];
        result[i + 1] := bytes[i];
        assert bytes[i..][2..] == bytes[i + 2..];
        assert result[..i + 2] == done + [bytes[i + 1], bytes[i]];
      }
      i := i + 2;
    }
  }

  method SwapRegisterPairs(bytes: array<uint8>) returns (result: array<uint8>)
    requires bytes.Length == 4
    ensures fresh(result) && result[..] == Layout(Middle, bytes[..])
  {
    result := new uint8[4](_ => 0);
    result[0] := bytes[2];
    result[1] := bytes[3];
    result[2] := bytes[0];
    result[3] := bytes[1];
  }

  method SwapRegisterPairs64(bytes: array<uint8>) returns (result: array<uint8>)
    requires bytes.Length == 8
    ensures fresh(result) && result[..] == Layout(Middle, bytes[..])
  {
    result := new uint8[8](_ => 0);
    result[0], result[1], result[2], result[3] := bytes[4], bytes[5], bytes[6], bytes[7];
    result[4], result[5], result[6], result[7] := bytes[0], bytes[1], bytes[2], bytes[3];
  }

  method Uint16ToRegisters(value: uint16, order: ByteOrder) returns (regs: seq<uint16>)
    ensures regs == [Encode16(order, value)]
  {
    match order
    case Little | Swap => regs := [SwapBytes(value)];
    case _ => regs := [value];
  }

  /** int32ToRegisters, uint32ToRegisters and float32ToRegisters, on the value's 32 bits. */
  method Word32ToRegisters(bits: uint32, order: ByteOrder) returns (regs: seq<uint16>)
    ensures regs == Encode(order, bits, 4)
  {
    hide BigEndian, Join, SwapBytes, Registers, SwapPairs, Reverse;
    var bytes := new uint8[4](_ => 0);
    PutBigEndian(bytes, 0, 4, bits);
    ghost var value := bytes[..];
    assert value == BigEndian(bits, 4);
    LetterTable32(order, value);
    SwapPairs4(value);
    match order {
      case Little =>
        var second := Uint16At(bytes, 2);
        var first := Uint16At(bytes, 0);
        JoinParts(value[2], value[3]);
        JoinParts(value[0], value[1]);
        return [SwapBytes(second), SwapBytes(first)];
      case Swap => bytes := SwapBytesInRegisters(bytes);
      case Middle => bytes := SwapRegisterPairs(bytes);
      case _ =>
    }
    ghost var wire := bytes[..];
    assert wire == Layout(order, value);
    Registers4(wire);
    var r0 := Uint16At(bytes, 0);
    var r1 := Uint16At(bytes, 2);
    regs := [r0, r1];
  }

  /** float64ToRegisters, on the value's 64 bits. */
  method Float64ToRegisters(bits: uint64, order: ByteOrder) returns (regs: seq<uint16>)
    ensures regs == Encode(order, bits, 8)
  {
    hide BigEndian, Join, Registers, SwapPairs, Reverse;
    var bytes := new uint8[8](_ => 0);
    PutBigEndian(bytes, 0, 8, bits);
    ghost var value := bytes[..];
    assert value == BigEndian(bits, 8);
    LetterTable64(order, value);
    if order.Little? {
      regs := ReversedRegisters(bytes);
      return;
    }
    if order.Swap? {
      bytes := SwapBytesInRegisters(bytes);
    } else if order.Middle? {
      bytes := SwapRegisterPairs64(bytes);
    }
    ghost var wire := bytes[..];
    assert wire == Layout(order, value);
    LetterTable64(Big, wire);
    var r0 := Uint16At(bytes, 0);
    var r1 := Uint16At(bytes, 2);
    var r2 := Uint16At(bytes, 4);
    var r3 := Uint16At(bytes, 6);
    regs := [r0, r1, r2, r3];
  }

  /** The little-endian branch of float64ToRegisters: registers last to first, each byte-swapped. */
  method ReversedRegisters(bytes: array<uint8>) returns (regs: seq<uint16>)
    requires bytes.Length == 8
    ensures regs == [Join(bytes[7], bytes[6]), Join(bytes[5], bytes[4]), Join(bytes[3], bytes[2]),
                     Join(bytes[1], bytes[0])]
  {
    var a := Uint16At(bytes, 6);
    var b := Uint16At(bytes, 4);
    var c := Uint16At(bytes, 2);
    var d := Uint16At(bytes, 0);
    var plain := [a, b, c, d];
    regs := plain;
    var i := 0;
    while i < 4
      invariant 0 <= i <= 4 && |regs| == 4
      invariant forall k :: 0 <= k < i ==> regs[k] == SwapBytes(plain[k])
      invariant forall k :: i <= k < 4 ==> regs[k] == plain[k]
    {
      regs := regs[i := SwapBytes(regs[i])];
      i := i + 1;
    }
    JoinParts(bytes[6], bytes[7]);
    JoinParts(bytes[4], bytes[5]);
    JoinParts(bytes[2], bytes[3]);
    JoinParts(bytes[0], bytes[1]);
  }

  // ---- Decoders --------------------------------------------------------------------------------

  method PutUint16(bytes: array<uint8>, at: nat, first: uint8, second: uint8)
    requires at + 2 <= bytes.Length
    modifies bytes
    ensures bytes[at] == first && bytes[at + 1] == second
    ensures forall k :: 0 <= k < bytes.Length && k != at && k != at + 1 ==> bytes[k] == old(bytes[k])
  {
    bytes[at], bytes[at + 1] := first, second;
  }

  /** The buffer that putBytesWithOrder and putFloat64BytesWithOrder fill; it is read back least
      significant byte first under little and most significant first otherwise. */
  function Buffer(order: ByteOrder, regs: seq<uint16>): (bs: seq<uint8>)
    ensures |bs| == 2 * |regs|
  {
    if order.Little? then Wire(regs) else Layout(order, Wire(regs))
  }

  method PutBytesWithOrder(bytes: array<uint8>, registers: seq<uint16>, order: ByteOrder)
    requires bytes.Length == 4
    modifies bytes
    ensures bytes[..] == if |registers| >= 2 && Named(order) then Buffer(order, registers[..2]) else old(bytes[..])
  {
    if |registers| < 2 { return; }
    ghost var regs := registers[..2];
    Wire2(regs);
    SwapPairs4(Wire(regs));
    var r0, r1 := registers[0], registers[1];
    match order
    case Big =>
      PutUint16(bytes, 0, High(r0), Low(r0));
      PutUint16(bytes, 2, High(r1), Low(r1));
    case Little =>
      var s0, s1 := SwapBytes(r0), SwapBytes(r1);
      JoinParts(Low(r0), High(r0));
      JoinParts(Low(r1), High(r1));
      PutUint16(bytes, 0, Low(s0), High(s0));
      PutUint16(bytes, 2, Low(s1), High(s1));
    case Swap =>
      var s0, s1 := SwapBytes(r0), SwapBytes(r1);
      JoinParts(Low(r0), High(r0));
      JoinParts(Low(r1), High(r1));
      PutUint16(bytes, 0, High(s0), Low(s0));
      PutUint16(bytes, 2, High(s1), Low(s1));
    case Middle =>
      PutUint16(bytes, 0, High(r1), Low(r1));
      PutUint16(bytes, 2, High(r0), Low(r0));
    case _ =>
  }

  method PutFloat64BytesWithOrder(bytes: array<uint8>, registers: seq<uint16>, order: ByteOrder)
    requires bytes.Length == 8
    modifies bytes
    ensures bytes[..] == if |registers| >= 4 && Named(order) then Buffer(order, registers[..4]) else old(bytes[..])
  {
    if |registers| < 4 { return; }
    var regs := registers[..4];
    Wire4(regs);
    match order
    case Big => PutFour(bytes, regs[0], regs[1], regs[2], regs[3]);
    case Little =>
      SplitSwap(regs[0]);
      SplitSwap(regs[1]);
      SplitSwap(regs[2]);
      SplitSwap(regs[3]);
      var s0, s1, s2, s3 := SwapBytes(regs[0]), SwapBytes(regs[1]), SwapBytes(regs[2]), SwapBytes(regs[3]);
      PutUint16(bytes, 0, Low(s0), High(s0));
      PutUint16(bytes, 2, Low(s1), High(s1));
      PutUint16(bytes, 4, Low(s2), High(s2));
      PutUint16(bytes, 6, Low(s3), High(s3));
    case Swap =>
      SwapPairs8(Wire(regs));
      PutUint16(bytes, 0, Low(regs[0]), High(regs[0]));
      PutUint16(bytes, 2, Low(regs[1]), High(regs[1]));
      PutUint16(bytes, 4, Low(regs[2]), High(regs[2]));
      PutUint16(bytes, 6, Low(regs[3]), High(regs[3]));
    case Middle => PutFour(bytes, regs[2], regs[3], regs[0], regs[1]);
    case _ =>
  }

  method PutFour(bytes: array<uint8>, a: uint16, b: uint16, c: uint16, d: uint16)
    requires bytes.Length == 8
    modifies bytes
    ensures bytes[..] == [High(a), Low(a), High(b), Low(b), High(c), Low(c), High(d), Low(d)]
  {
    PutUint16(bytes, 0, High(a), Low(a));
    PutUint16(bytes, 2, High(b), Low(b));
    PutUint16(bytes, 4, High(c), Low(c));
    PutUint16(bytes, 6, High(d), Low(d));
  }

  lemma SplitSwap(w: uint16)
    ensures High(SwapBytes(w)) == Low(w) && Low(SwapBytes(w)) == High(w)
  {
    JoinParts(Low(w), High(w));
  }

  lemma SwapPairs8(bs: seq<uint8>)
    requires |bs| == 8
    ensures SwapPairs(bs) == [bs[1], bs[0], bs[3], bs[2], bs[5], bs[4], bs[7], bs[6]]
  {
    SwapPairs4(bs[4..]);
    assert SwapPairs(bs) == [bs[1], bs[0]] + SwapPairs(bs[2..]);
    assert SwapPairs(bs[2..]) == [bs[3], bs[2]] + SwapPairs(bs[4..]);
  }

  /** getUint32WithOrder; also the 64-bit reads, which the source writes in line. */
  function GetWithOrder(bytes: seq<uint8>, order: ByteOrder): nat
  {
    if order.Little? then FromLittleEndian(bytes) else FromBigEndian(bytes)
  }

  lemma {:induction false} FromBigEndianOfZeros(n: nat)
    ensures FromBigEndian(seq(n, _ => 0)) == 0
  {
    if n > 0 {
      FromBigEndianOfZeros(n - 1);
      var zeros: seq<uint8> := seq(n, _ => 0);
      assert zeros[..n - 1] == seq(n - 1, _ => 0);
    }
  }

  /** Filling the buffer in one order and reading it in that order is Decode. */
  lemma BufferIsDecode(order: ByteOrder, regs: seq<uint16>, bytes: seq<uint8>)
    requires bytes == if Named(order) then Buffer(order, regs) else seq(2 * |regs|, _ => 0)
    ensures GetWithOrder(bytes, order) == Decode(order, regs)
  {
    if !Named(order) {
      FromBigEndianOfZeros(2 * |regs|);
    }
  }

  /** The 32-bit read: fill a zeroed buffer and read it. */
  method Word32FromRegisters(registers: seq<uint16>, order: ByteOrder) returns (bits: uint32)
    requires |registers| >= 2
    ensures bits == Decode(order, registers[..2])
  {
    var bytes := new uint8[4](_ => 0);
    PutBytesWithOrder(bytes, registers, order);
    ghost var buffer := bytes[..];
    BufferIsDecode(order, registers[..2], buffer);
    DecodeFits(order, registers[..2]);
    bits := GetWithOrder(bytes[..], order);
  }

  /** The 64-bit read. */
  method Float64FromRegisters(registers: seq<uint16>, order: ByteOrder) returns (bits: uint64)
    requires |registers| >= 4
    ensures bits == Decode(order, registers[..4])
  {
    var bytes := new uint8[8](_ => 0);
    PutFloat64BytesWithOrder(bytes, registers, order);
    ghost var buffer := bytes[..];
    BufferIsDecode(order, registers[..4], buffer);
    DecodeFits(order, registers[..4]);
    bits := GetWithOrder(bytes[..], order);
  }

  lemma DecodeFits(order: ByteOrder, regs: seq<uint16>)
    requires |regs| == 2 || |regs| == 4
    ensures |regs| == 2 ==> Decode(order, regs) < 0x1_0000_0000
    ensures |regs| == 4 ==> Decode(order, regs) < 0x1_0000_0000_0000_0000
  {
    WordSizes();
    if Named(order) {
      EncodeDecode(order, regs, 2 * |regs|);
    }
  }
}
