/** Machine words as bounded integers, with Go's truncating conversions written out, and the two
    byte sequences of package encoding/binary. */
module Words {

  type uint8 = x: int | 0 <= x < 0x100
  type uint16 = x: int | 0 <= x < 0x1_0000
  type uint32 = x: int | 0 <= x < 0x1_0000_0000
  type uint64 = x: int | 0 <= x < 0x1_0000_0000_0000_0000

  datatype Option<+T> = None | Some(value: T)

  // Dafny's % is never negative, so these are Go's truncations for negative operands too.
  function Wrap16(x: int): uint16 { x % 0x1_0000 }

  function Wrap32(x: int): uint32 { x % 0x1_0000_0000 }

  function Wrap64(x: int): uint64 { x % 0x1_0000_0000_0000_0000 }

  lemma WrapAgain(m: nat, n: nat)
    ensures Wrap16(Wrap16(m) + n) == Wrap16(m + n)
  {
  }

  // Two's-complement reading of a word: Go's int16(w), int32(w), int64(w) on an unsigned w.
  function Signed16(w: uint16): int { if w < 0x8000 then w else w - 0x1_0000 }

  function Signed32(w: uint32): int { if w < 0x8000_0000 then w else w - 0x1_0000_0000 }

  function Signed64(w: uint64): int
  {
    if w < 0x8000_0000_0000_0000 then w else w - 0x1_0000_0000_0000_0000
  }

  function High(w: uint16): uint8 { w / 0x100 }

  function Low(w: uint16): uint8 { w % 0x100 }

  function Join(high: uint8, low: uint8): uint16 { high as int * 0x100 + low as int }

  // (w >> 8) | ((w & 0xFF) << 8)
  function SwapBytes(w: uint16): uint16 { Join(Low(w), High(w)) }

  /** The shift-and-mask expression of the source, on bit vectors, is the arithmetic one above. */
  lemma SwapBytesIsShiftAndMask(w: bv16)
    ensures (w >> 8) | ((w & 0xFF) << 8) == w % 0x100 * 0x100 + w / 0x100
  {
  }

  /** The same as a function, and the parts of a word as numbers. */
  lemma WordParts(w: uint16, high: uint8, low: uint8)
    ensures High(w) == w / 0x100 && Low(w) == w % 0x100
    ensures Join(high, low) == 0x100 * high + low
    ensures SwapBytes(w) == w % 0x100 * 0x100 + w / 0x100
  {
  }

  lemma JoinParts(high: uint8, low: uint8)
    ensures High(Join(high, low)) == high && Low(Join(high, low)) == low
    ensures SwapBytes(Join(high, low)) == Join(low, high)
  {
  }

  lemma SplitJoin(w: uint16)
    ensures Join(High(w), Low(w)) == w
  {
  }

  function Pow256(n: nat): nat { if n == 0 then 1 else 0x100 * Pow256(n - 1) }

  /** The n low-order bytes of v, most significant first. */
  function BigEndian(v: nat, n: nat): (bs: seq<uint8>)
    ensures |bs| == n
  {
    if n == 0 then [] else BigEndian(v / 0x100, n - 1) + [v % 0x100]
  }

  function FromBigEndian(bs: seq<uint8>): nat
  {
    if bs == [] then 0 else FromBigEndian(bs[..|bs| - 1]) * 0x100 + bs[|bs| - 1]
  }

  function Reverse<T>(s: seq<T>): (r: seq<T>)
    ensures |r| == |s|
    ensures forall i :: 0 <= i < |s| ==> r[i] == s[|s| - 1 - i]
  {
    if s == [] then [] else [s[|s| - 1]] + Reverse(s[..|s| - 1])
  }

  function FromLittleEndian(bs: seq<uint8>): nat { FromBigEndian(Reverse(bs)) }

  lemma {:induction false} FromBigEndianOfBigEndian(v: nat, n: nat)
    requires v < Pow256(n)
    ensures FromBigEndian(BigEndian(v, n)) == v
  {
    if n > 0 {
      FromBigEndianOfBigEndian(v / 0x100, n - 1);
      assert BigEndian(v, n)[..n - 1] == BigEndian(v / 0x100, n - 1);
    }
  }

  lemma {:induction false} BigEndianOfFromBigEndian(bs: seq<uint8>)
    ensures FromBigEndian(bs) < Pow256(|bs|)
    ensures BigEndian(FromBigEndian(bs), |bs|) == bs
  {
    if bs != [] {
      var front := bs[..|bs| - 1];
      BigEndianOfFromBigEndian(front);
      assert front + [bs[|bs| - 1]] == bs;
    }
  }

  lemma WordSizes()
    ensures Pow256(2) == 0x1_0000
    ensures Pow256(4) == 0x1_0000_0000
    ensures Pow256(8) == 0x1_0000_0000_0000_0000
  {
    assert Pow256(2) == 0x100 * Pow256(1);
    assert Pow256(4) == 0x100 * Pow256(3) && Pow256(3) == 0x100 * Pow256(2);
    assert Pow256(6) == 0x100 * Pow256(5) && Pow256(5) == 0x100 * Pow256(4);
    assert Pow256(8) == 0x100 * Pow256(7) && Pow256(7) == 0x100 * Pow256(6);
  }
}
