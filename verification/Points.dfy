/** config/points.go: the configured points and their validation. */
module Points {
  import opened Words

  datatype DataType = Int16 | UInt16 | Int32 | UInt32 | Float32 | Float64 | Bool | Text | OtherType(text: string)

  datatype RegisterTag = Coil | DiscreteInput | InputRegister | HoldingRegister | OtherRegister(text: string)

  function RegisterText(tag: RegisterTag): string
  {
    match tag
    case Coil => "coil"
    case DiscreteInput => "discrete_input"
    case InputRegister => "input_register"
    case HoldingRegister => "holding_register"
    case OtherRegister(text) => text
  }

  // The source's register type is a string; a string that is none of the four names is OtherRegister.
  type RegisterType = tag: RegisterTag |
    tag.OtherRegister? ==> tag.text !in {"coil", "discrete_input", "input_register", "holding_register"}
    witness Coil

  /** Scale is a float64, kept as its bit pattern: equality with 1.0 and with 0 are exact on bits. */
  datatype Point = Point(
    name: string,
    address: uint16,
    dataType: DataType,
    registerType: RegisterType,
    length: uint16,
    scale: uint64)

  const SCALE_ONE: uint64 := 0x3FF0_0000_0000_0000

  predicate ScaleIsZero(bits: uint64) { bits == 0 || bits == 0x8000_0000_0000_0000 }

  /** The end of a point's registers, as a mathematical sum: Go's uint16 sum is Wrap16 of it. */
  function End(p: Point): nat { p.address + p.length }

  // ---- Validation ------------------------------------------------------------------------------

  function DigitChar(d: int): char
    requires 0 <= d < 10
  {
    ('0' as int + d) as char
  }

  /** Front(n) is the text of n without its last digit. */
  function Front(n: nat): string
    decreases n, 0
  {
    if n < 10 then "" else DecimalText(n / 10)
  }

  function DecimalText(n: nat): (s: string)
    ensures |s| > 0 && ':' !in s
    decreases n, 1
  {
    Front(n) + [DigitChar(n % 10)]
  }

  // fmt.Sprintf("%d:%s", point.Address, point.RegisterType)
  function AddressKey(p: Point): string
  {
    DecimalText(p.address) + ":" + RegisterText(p.registerType)
  }

  predicate SameRegister(p: Point, q: Point) { p.address == q.address && p.registerType == q.registerType }

  /** What a configuration is supposed to satisfy. */
  ghost predicate Acceptable(points: seq<Point>)
  {
    && points != []
    && (forall i :: 0 <= i < |points| ==>
          points[i].name != "" && points[i].length > 0 && !ScaleIsZero(points[i].scale))
    && UniqueNames(points)
    && (forall i, j :: 0 <= i < j < |points| ==> !SameRegister(points[i], points[j]))
  }

  ghost predicate UniqueNames(points: seq<Point>)
  {
    forall i, j :: 0 <= i < j < |points| ==> points[i].name != points[j].name
  }

  datatype Fault = EmptyName | DuplicateName | DuplicateAddress | NoLength | ZeroScale

  datatype Verdict = Accepted | NoPoints | Rejected(index: nat, fault: Fault)

  ghost function NamesOf(points: seq<Point>): set<string> { set k | 0 <= k < |points| :: points[k].name }

  ghost function RegistersOf(points: seq<Point>): set<(uint16, RegisterType)>
  {
    set k | 0 <= k < |points| :: (points[k].address, points[k].registerType)
  }

  /** The first rule that point p breaks, given the points before it. */
  ghost function FaultOf(p: Point, before: seq<Point>): Option<Fault>
  {
    if p.name == "" then Some(EmptyName)
    else if p.name in NamesOf(before) then Some(DuplicateName)
    else if (p.address, p.registerType) in RegistersOf(before) then Some(DuplicateAddress)
    else if p.length == 0 then Some(NoLength)
    else if ScaleIsZero(p.scale) then Some(ZeroScale)
    else None
  }

  lemma {:induction false} DecimalTextInjective(m: nat, n: nat)
    requires DecimalText(m) == DecimalText(n)
    ensures m == n
  {
    var s := DecimalText(m);
    assert s[|s| - 1] == DigitChar(m % 10) == DigitChar(n % 10);
    assert s[..|s| - 1] == Front(m) == Front(n);
    if m >= 10 {
      assert n >= 10;
      DecimalTextInjective(m / 10, n / 10);
    }
  }

  /** A separator that occurs in neither prefix splits a text in one way only. */
  lemma SplitAtSeparator(s: string, s': string, t: string, t': string)
    requires ':' !in s && ':' !in s' && s + ":" + t == s' + ":" + t'
    ensures s == s' && t == t'
  {
    var key := s + ":" + t;
    assert key[|s|] == ':' && key[|s'|] == ':';
    assert |s| == |s'|;
    assert key[..|s|] == s && key[..|s|] == s';
    assert key[|s| + 1..] == t && key[|s| + 1..] == t';
  }

  /** The composite key of the uniqueness map confuses no two registers. */
  lemma AddressKeyInjective(p: Point, q: Point)
    ensures AddressKey(p) == AddressKey(q) <==> SameRegister(p, q)
  {
    if AddressKey(p) == AddressKey(q) {
      SplitAtSeparator(DecimalText(p.address), DecimalText(q.address),
                       RegisterText(p.registerType), RegisterText(q.registerType));
      DecimalTextInjective(p.address, q.address);
    }
  }

  ghost predicate Faultless(points: seq<Point>, n: nat)
    requires n <= |points|
  {
    forall i :: 0 <= i < n ==> FaultOf(points[i], points[..i]) == None
  }

  ghost predicate FirstFaultAt(points: seq<Point>, i: nat, fault: Fault)
  {
    i < |points| && FaultOf(points[i], points[..i]) == Some(fault) && Faultless(points, i)
  }

  lemma FaultlessIsAcceptable(points: seq<Point>)
    requires points != []
    ensures Faultless(points, |points|) <==> Acceptable(points)
  {
    forall i, j | 0 <= i < j < |points|
      ensures points[i].name in NamesOf(points[..j])
      ensures (points[i].address, points[i].registerType) in RegistersOf(points[..j])
    {
      assert points[..j][i] == points[i];
    }
    if Faultless(points, |points|) {
      forall i | 0 <= i < |points|
        ensures points[i].name != "" && points[i].length > 0 && !ScaleIsZero(points[i].scale)
      {
        assert FaultOf(points[i], points[..i]) == None;
      }
      forall i, j | 0 <= i < j < |points|
        ensures points[i].name != points[j].name && !SameRegister(points[i], points[j])
      {
        assert FaultOf(points[j], points[..j]) == None;
      }
    }
  }

  /** What a rejection says: the points before the bad one are acceptable, and the bad one breaks the
      named rule and none that is checked earlier. */
  lemma RejectionMeans(points: seq<Point>, i: nat, fault: Fault)
    requires FirstFaultAt(points, i, fault)
    ensures i == 0 || Acceptable(points[..i])
    ensures var p, named, newName, newPlace :=
      points[i],
      points[i].name != "",
      forall j :: 0 <= j < i ==> points[j].name != points[i].name,
      forall j :: 0 <= j < i ==>
        points[j].address != points[i].address || points[j].registerType != points[i].registerType;
      match fault {
        case EmptyName => !named
        case DuplicateName => named && !newName
        case DuplicateAddress => named && newName && !newPlace
        case NoLength => named && newName && newPlace && p.length == 0
        case ZeroScale => named && newName && newPlace && p.length > 0 && p.scale % 0x8000_0000_0000_0000 == 0
      }
  {
    var before := points[..i];
    forall j | 0 <= j < i
      ensures before[j] == points[j] && points[j].name in NamesOf(before)
      ensures (points[j].address, points[j].registerType) in RegistersOf(before)
    {
      assert before[j] == points[j];
    }
    if i > 0 {
      forall k | 0 <= k < i ensures FaultOf(before[k], before[..k]) == None {
        assert before[..k] == points[..k] && FaultOf(points[k], points[..k]) == None;
      }
      FaultlessIsAcceptable(before);
    }
  }

  ghost function KeysOf(points: seq<Point>): set<string> { set k | 0 <= k < |points| :: AddressKey(points[k]) }

  lemma KeySeen(before: seq<Point>, p: Point)
    ensures AddressKey(p) in KeysOf(before) <==> (p.address, p.registerType) in RegistersOf(before)
    ensures KeysOf(before + [p]) == KeysOf(before) + {AddressKey(p)}
    ensures NamesOf(before + [p]) == NamesOf(before) + {p.name}
  {
    forall k | 0 <= k < |before| ensures AddressKey(before[k]) == AddressKey(p) <==> SameRegister(before[k], p) {
      AddressKeyInjective(before[k], p);
    }
    var after := before + [p];
    assert forall k :: 0 <= k < |before| ==> after[k] == before[k];
    assert after[|before|] == p;
  }

  /** The loop of ValidatePoints: the first point with a fault, and its first fault. */
  method FirstFault(points: seq<Point>) returns (verdict: Verdict)
    ensures !verdict.NoPoints?
    ensures verdict.Accepted? <==> Faultless(points, |points|)
    ensures verdict.Rejected? ==> FirstFaultAt(points, verdict.index, verdict.fault)
  {
    hide AddressKey;
    var nameMap: map<string, bool> := map[];
    var addressMap: map<string, bool> := map[];
    var i := 0;
    while i < |points|
      invariant 0 <= i <= |points|
      invariant Faultless(points, i)
      invariant nameMap.Keys == NamesOf(points[..i]) && addressMap.Keys == KeysOf(points[..i])
    {
      var point := points[i];
      KeySeen(points[..i], point);
      assert points[..i] + [point] == points[..i + 1];
      if point.name == "" {
        return Rejected(i, EmptyName);
      }
      if point.name in nameMap {
        return Rejected(i, DuplicateName);
      }
      nameMap := nameMap[point.name := true];
      var addressKey := AddressKey(point);
      if addressKey in addressMap {
        return Rejected(i, DuplicateAddress);
      }
      addressMap := addressMap[addressKey := true];
      if point.length <= 0 {
        return Rejected(i, NoLength);
      }
      if ScaleIsZero(point.scale) {
        return Rejected(i, ZeroScale);
      }
      i := i + 1;
    }
    return Accepted;
  }

  /** Accepts exactly the acceptable lists; a rejection names the first bad point and its first fault. */
  method ValidatePoints(points: seq<Point>) returns (verdict: Verdict)
    ensures verdict.Accepted? <==> Acceptable(points)
    ensures verdict.NoPoints? <==> points == []
    ensures verdict.Rejected? ==> FirstFaultAt(points, verdict.index, verdict.fault)
  {
    if |points| == 0 {
      return NoPoints;
    }
    verdict := FirstFault(points);
    FaultlessIsAcceptable(points);
  }
}
