/** pkg/modbus/collector.go: the three routes by which a group is read (one request, split requests,
    register by register) and the collection over all groups, as functions of the replies the device
    gives. The methods of module Collectors are proved to follow these functions. */
module Reading {
  import opened Words
  import opened Points
  import opened Devices
  import opened Decoding
  import opened Grouping

  // Largest read the collector issues. MODBUS Application Protocol Specification V1.1b3 allows 2000
  // bits (sections 6.1, 6.2) and 125 registers (6.3, 6.4); the source uses 123 for holding registers.
  function Limit(bank: Bank): uint16
  {
    match bank
    case Coils => 2000
    case DiscreteInputs => 2000
    case InputRegisters => 125
    case HoldingRegisters => 123
  }

  function SplitPlan(bank: Bank, start: uint16, remaining: uint16, max: uint16): seq<Request>
    requires max > 0
    decreases remaining
  {
    if remaining == 0 then []
    else
      var batch := if remaining > max then max else remaining;
      [Read(bank, start, batch)] + SplitPlan(bank, Wrap16(start + batch), remaining - batch, max)
  }

  function Singles(bank: Bank, address: uint16, count: nat): (plan: seq<Request>)
    ensures |plan| == count
    ensures forall i :: 0 <= i < count ==> plan[i] == Read(bank, Wrap16(address + i), 1)
  {
    seq(count, i requires 0 <= i < count => Read(bank, Wrap16(address + i), 1))
  }

  function IndividualPlan(bank: Bank, points: seq<Point>): seq<Request>
  {
    if points == [] then []
    else Singles(bank, points[0].address, points[0].length) + IndividualPlan(bank, points[1..])
  }

  predicate Splits(g: BatchGroup) { g.totalLength > Limit(BatchBank(g.registerType)) }

  function BulkPlan(g: BatchGroup): seq<Request>
  {
    [Read(BatchBank(g.registerType), g.startAddress, g.totalLength)]
  }

  /** The requests that a group is first read with. */
  function MainPlan(g: BatchGroup): seq<Request>
  {
    var bank := BatchBank(g.registerType);
    if Splits(g) then SplitPlan(bank, g.startAddress, g.totalLength, Limit(bank)) else BulkPlan(g)
  }

  /** readBatch: over the limit, split requests without fallback; otherwise one request, and the
      register-by-register fallback, which coils, discrete inputs and unknown types do not have. */
  function ReadGroup(g: BatchGroup, es: seq<Exchange>): Progress<Option<seq<uint16>>>
  {
    match RunPlan(MainPlan(g), es)
    case Returns(None, rest) =>
      if Splits(g) then Returns(None, rest)
      else
        (match RegisterBank(g.registerType)
         case None => Returns(None, rest)
         case Some(b) => RunPlan(IndividualPlan(b, g.points), rest))
    case other => other
  }

  /** The read of the group succeeded on some route, as the exchanges show it. */
  predicate Served(g: BatchGroup, es: seq<Exchange>)
  {
    if Splits(g) then AllAnswered(es)
    else es != [] && (es[0].reply.Answer? || (RegisterBank(g.registerType).Some? && AllAnswered(es[1..])))
  }

  // registers[0] on an empty slice.
  predicate IndexesNothing(p: Point) { p.length == 0 && Width(p.dataType) == 1 }

  /** Cuts the flat register array into the points' registers; None is a slice or an index that
      reaches past its end. */
  function GroupValues(settings: Settings, points: seq<Point>, regs: seq<uint16>): Option<seq<PointValue>>
  {
    if points == [] then Some([])
    else if |regs| < points[0].length || IndexesNothing(points[0]) then None
    else match GroupValues(settings, points[1..], regs[points[0].length..]) {
      case None => None
      case Some(vs) => Some([Parsed(settings, points[0], regs[..points[0].length])] + vs)
    }
  }

  function BadValues(points: seq<Point>): seq<PointValue>
  {
    if points == [] then [] else [BadValue(points[0])] + BadValues(points[1..])
  }

  function ReportGroup(settings: Settings, g: BatchGroup, regs: Option<seq<uint16>>): Option<seq<PointValue>>
  {
    match regs
    case None => Some(BadValues(g.points))
    case Some(ws) => GroupValues(settings, g.points, ws)
  }

  /** The loop of CollectPoints over its groups; a value of None is a panic. */
  function CollectGroups(settings: Settings, groups: seq<BatchGroup>,
                         es: seq<Exchange>): Progress<Option<seq<PointValue>>>
    decreases |groups|
  {
    if groups == [] then Returns(Some([]), es)
    else match ReadGroup(groups[0], es) {
      case Asks(request) => Asks(request)
      case Strays => Strays
      case Returns(regs, rest) =>
        match ReportGroup(settings, groups[0], regs) {
          case None => Returns(None, rest)
          case Some(vs) =>
            match CollectGroups(settings, groups[1..], rest) {
              case Returns(Some(more), rest') => Returns(Some(vs + more), rest')
              case other => other
            }
        }
    }
  }

  // ---- Splitting tiles the range -----------------------------------------------------------------

  /** The split requests are consecutive and non-empty, cover exactly the range and never wrap. */
  lemma {:induction false} SplitTiles(bank: Bank, start: uint16, remaining: uint16, max: uint16)
    requires max > 0 && start + remaining <= ADDRESSES
    ensures Tiles(SplitPlan(bank, start, remaining, max), bank, start, remaining)
    decreases remaining
  {
    if remaining > 0 {
      var batch := if remaining > max then max else remaining;
      if batch < remaining {
        assert Wrap16(start + batch) == start + batch;
        SplitTiles(bank, start + batch, remaining - batch, max);
      }
    }
  }

  /** Every split request respects the limit, also when the addresses wrap. */
  lemma {:induction false} SplitWithinLimit(bank: Bank, start: uint16, remaining: uint16, max: uint16)
    requires max > 0
    ensures forall i :: 0 <= i < |SplitPlan(bank, start, remaining, max)| ==>
      var r := SplitPlan(bank, start, remaining, max)[i]; r.Read? && r.bank == bank && 0 < r.count <= max
    decreases remaining
  {
    if remaining > 0 {
      var batch := if remaining > max then max else remaining;
      SplitWithinLimit(bank, Wrap16(start + batch), remaining - batch, max);
    }
  }

  /** As few requests as the limit allows: their number is remaining / max rounded up. */
  lemma {:induction false} SplitCount(bank: Bank, start: uint16, remaining: uint16, max: uint16)
    requires max > 0
    ensures remaining <= |SplitPlan(bank, start, remaining, max)| * max < remaining + max
    decreases remaining
  {
    if remaining > 0 {
      var batch := if remaining > max then max else remaining;
      var rest := SplitPlan(bank, Wrap16(start + batch), remaining - batch, max);
      SplitCount(bank, Wrap16(start + batch), remaining - batch, max);
      assert (1 + |rest|) * max == max + |rest| * max;
    }
  }

  lemma {:induction false} SinglesTile(bank: Bank, address: uint16, count: nat)
    requires address + count <= ADDRESSES
    ensures Tiles(Singles(bank, address, count), bank, address, count)
    decreases count
  {
    if count == 1 {
      assert Singles(bank, address, 1)[1..] == [];
    } else if count > 1 {
      SinglesTile(bank, address + 1, count - 1);
      assert Singles(bank, address, count)[1..] == Singles(bank, address + 1, count - 1);
    }
  }

  /** The fallback reads exactly the range of a contiguous run, one register at a time. */
  lemma {:induction false} IndividualTiles(bank: Bank, points: seq<Point>)
    requires Chain(points) && AllSound(points)
    ensures Tiles(IndividualPlan(bank, points), bank, points[0].address, SumLengths(points))
  {
    hide Singles;
    var p := points[0];
    assert Sound(p);
    SinglesTile(bank, p.address, p.length);
    if |points| == 1 {
      assert IndividualPlan(bank, points[1..]) == [] && SumLengths(points[1..]) == 0;
      assert Tiles([], bank, p.address + p.length, 0);
    } else {
      assert points[1..][0].address == End(p);
      IndividualTiles(bank, points[1..]);
    }
    TilesConcat(Singles(bank, p.address, p.length), IndividualPlan(bank, points[1..]), bank,
                p.address, p.length, SumLengths(points[1..]));
  }

  // ---- One group ---------------------------------------------------------------------------------

  /** The image's slice over a sound group's range. */
  function GroupSlice(image: Image, g: BatchGroup): (ws: seq<uint16>)
    requires GroupOk(g) && AllSound(g.points)
    ensures |ws| == SumLengths(g.points)
  {
    GroupSpan(g);
    Slice(image, BatchBank(g.registerType), g.startAddress, g.totalLength)
  }

  /** The three routes agree: whichever of them succeeds, on honest replies the array is the slice. */
  lemma RoutesReadSlice(g: BatchGroup, es: seq<Exchange>, image: Image)
    requires GroupOk(g) && AllSound(g.points) && AllHonest(image, es)
    requires ReadGroup(g, es).Returns? && ReadGroup(g, es).value.Some?
    ensures ReadGroup(g, es).value.value == GroupSlice(image, g)
  {
    hide GroupOk, AllSound, SumLengths, RunPlan, MainPlan, IndividualPlan, Tiles;
    GroupSpan(g);
    var bank := BatchBank(g.registerType);
    MainTiles(g);
    var main := RunPlan(MainPlan(g), es);
    if main.value.Some? {
      TiledPlanReadsSlice(MainPlan(g), es, image, bank, g.startAddress, g.totalLength);
    } else {
      var k := PlanConsumes(MainPlan(g), es);
      HonestSuffix(image, es, k);
      IndividualTilesGroup(g, bank);
      TiledPlanReadsSlice(IndividualPlan(bank, g.points), main.rest, image, bank, g.startAddress, g.totalLength);
    }
  }

  lemma MainTiles(g: BatchGroup)
    requires g.totalLength > 0 && g.startAddress + g.totalLength <= ADDRESSES
    ensures Tiles(MainPlan(g), BatchBank(g.registerType), g.startAddress, g.totalLength)
  {
    var bank := BatchBank(g.registerType);
    if Splits(g) {
      SplitTiles(bank, g.startAddress, g.totalLength, Limit(bank));
    } else {
      assert BulkPlan(g)[1..] == [];
    }
  }

  lemma HonestSuffix(image: Image, es: seq<Exchange>, k: nat)
    requires AllHonest(image, es) && k <= |es|
    ensures AllHonest(image, es[k..]) && AllHonest(image, es[..k])
  {
  }

  lemma IndividualTilesGroup(g: BatchGroup, bank: Bank)
    requires GroupOk(g) && AllSound(g.points)
    ensures Tiles(IndividualPlan(bank, g.points), bank, g.startAddress, g.totalLength)
  {
    IndividualTiles(bank, g.points);
  }

  /** What a finished group read consumed, and that it succeeded exactly when the exchanges served it. */
  lemma ReadConsumes(g: BatchGroup, es: seq<Exchange>) returns (k: nat)
    requires ReadGroup(g, es).Returns?
    ensures k <= |es| && ReadGroup(g, es).rest == es[k..]
    ensures ReadGroup(g, es).value.Some? <==> Served(g, es[..k])
  {
    hide RunPlan, SplitPlan, IndividualPlan;
    var bank := BatchBank(g.registerType);
    if Splits(g) {
      k := PlanConsumes(SplitPlan(bank, g.startAddress, g.totalLength, Limit(bank)), es);
    } else {
      k := 1;
      BulkConsumes(g, es);
      if RunPlan(BulkPlan(g), es).value.None? && RegisterBank(g.registerType).Some? {
        var m := PlanConsumes(IndividualPlan(RegisterBank(g.registerType).value, g.points), es[1..]);
        k := 1 + m;
        assert es[1..][m..] == es[k..];
        assert es[..k][1..] == es[1..][..m];
      }
    }
  }

  lemma BulkConsumes(g: BatchGroup, es: seq<Exchange>)
    requires RunPlan(BulkPlan(g), es).Returns?
    ensures es != [] && RunPlan(BulkPlan(g), es).rest == es[1..]
    ensures RunPlan(BulkPlan(g), es).value.Some? <==> es[0].reply.Answer?
  {
    var k := PlanConsumes(BulkPlan(g), es);
    assert k == 1;
  }

  /** The exchanges that a finished group read consumed are a complete read of the group. */
  lemma ReadPrefix(g: BatchGroup, es: seq<Exchange>, k: nat)
    requires ReadGroup(g, es).Returns? && k <= |es| && ReadGroup(g, es).rest == es[k..]
    ensures ReadGroup(g, es[..k]) == Returns(ReadGroup(g, es).value, [])
  {
    hide RunPlan, SplitPlan, IndividualPlan;
    var bank := BatchBank(g.registerType);
    if Splits(g) {
      PlanPrefix(SplitPlan(bank, g.startAddress, g.totalLength, Limit(bank)), es, k);
    } else {
      BulkConsumes(g, es);
      PlanPrefix(BulkPlan(g), es, 1);
      if RunPlan(BulkPlan(g), es).value.None? && RegisterBank(g.registerType).Some? {
        assert k > 0 && es[1..][k - 1..] == es[k..] && es[..k] == es[..1] + es[1..][..k - 1];
        PlanPrefix(IndividualPlan(RegisterBank(g.registerType).value, g.points), es[1..], k - 1);
        PlanFrame(BulkPlan(g), es[..1], es[1..][..k - 1]);
        assert [] + es[1..][..k - 1] == es[1..][..k - 1];
      } else {
        assert k == 1;
      }
    }
  }

  // ---- Who gets which registers ------------------------------------------------------------------

  /** Cut at running offsets, the array gives each point the image at its own addresses. */
  ghost predicate GetsOwn(image: Image, bank: Bank, points: seq<Point>, regs: seq<uint16>)
  {
    points != [] ==>
      && points[0].length <= |regs|
      && regs[..points[0].length] == WrappedSlice(image, bank, points[0].address, points[0].length)
      && GetsOwn(image, bank, points[1..], regs[points[0].length..])
  }

  /** In uint16 arithmetic each point starts where the one before it ends. */
  ghost predicate WrapChain(points: seq<Point>)
  {
    forall i :: 0 < i < |points| ==> points[i].address == Wrap16(End(points[i - 1]))
  }

  /** The words of such a run do. */
  lemma {:induction false} CutsOwnRegisters(image: Image, bank: Bank, points: seq<Point>)
    requires points != [] && WrapChain(points)
    ensures GetsOwn(image, bank, points, WrappedSlice(image, bank, points[0].address, SumLengths(points)))
  {
    hide WrappedSlice, Wrap16;
    var p, rest := points[0], SumLengths(points[1..]);
    WrappedJoin(image, bank, p.address, p.length, rest);
    var regs := WrappedSlice(image, bank, p.address, SumLengths(points));
    assert regs[..p.length] == WrappedSlice(image, bank, p.address, p.length);
    if |points| > 1 {
      assert points[1..][0].address == Wrap16(End(p));
      assert regs[p.length..] == WrappedSlice(image, bank, Wrap16(End(p)), rest);
      CutsOwnRegisters(image, bank, points[1..]);
    }
  }

  lemma SinglesStep(bank: Bank, address: uint16, count: nat)
    requires count > 0
    ensures Singles(bank, address, count) == [Read(bank, address, 1)] + Singles(bank, Wrap16(address + 1), count - 1)
  {
  }

  /** Reading register by register gives the words in uint16 addresses. */
  lemma {:induction false} SinglesRead(bank: Bank, address: uint16, count: nat, es: seq<Exchange>, image: Image)
    requires RunPlan(Singles(bank, address, count), es).Returns?
    requires RunPlan(Singles(bank, address, count), es).value.Some? && AllHonest(image, es)
    ensures RunPlan(Singles(bank, address, count), es).value.value == WrappedSlice(image, bank, address, count)
    decreases count
  {
    hide Table, Singles, WrappedSlice;
    if count > 0 {
      var next := Wrap16(address + 1);
      SinglesStep(bank, address, count);
      WrappedJoin(image, bank, address, 1, count - 1);
      WrappedIsSlice(image, bank, address, 1);
      assert Singles(bank, address, count)[1..] == Singles(bank, next, count - 1);
      assert Honest(image, es[0]);
      SinglesRead(bank, next, count - 1, es[1..], image);
    }
  }

  /** So do split requests, wherever they are all answered. */
  lemma {:induction false} SplitReads(bank: Bank, start: uint16, remaining: uint16, max: uint16, es: seq<Exchange>,
                                      image: Image)
    requires max > 0 && AllHonest(image, es)
    requires RunPlan(SplitPlan(bank, start, remaining, max), es).Returns?
    requires RunPlan(SplitPlan(bank, start, remaining, max), es).value.Some?
    ensures RunPlan(SplitPlan(bank, start, remaining, max), es).value.value ==
      WrappedSlice(image, bank, start, remaining)
    decreases remaining
  {
    hide Table, WrappedSlice;
    if remaining > 0 {
      var batch := if remaining > max then max else remaining;
      assert Honest(image, es[0]);
      WrappedIsSlice(image, bank, start, batch);
      WrappedJoin(image, bank, start, batch, remaining - batch);
      SplitReads(bank, Wrap16(start + batch), remaining - batch, max, es[1..], image);
    } else {
      assert WrappedSlice(image, bank, start, 0) == [];
    }
  }

  /** A group's first requests, answered, give the words from its start on. */
  lemma MainReads(g: BatchGroup, es: seq<Exchange>, image: Image)
    requires AllHonest(image, es) && RunPlan(MainPlan(g), es).Returns? && RunPlan(MainPlan(g), es).value.Some?
    ensures RunPlan(MainPlan(g), es).value.value ==
            WrappedSlice(image, BatchBank(g.registerType), g.startAddress, g.totalLength)
  {
    hide Table, WrappedSlice, SplitPlan;
    var bank := BatchBank(g.registerType);
    if Splits(g) {
      SplitReads(bank, g.startAddress, g.totalLength, Limit(bank), es, image);
    } else {
      assert Honest(image, es[0]);
      WrappedIsSlice(image, bank, g.startAddress, g.totalLength);
      assert BulkPlan(g)[1..] == [] && es[0].reply.words + [] == es[0].reply.words;
    }
  }

  /** Register by register, every point gets its own, in whatever order the points come. */
  lemma {:induction false} IndividualGetsOwn(image: Image, bank: Bank, points: seq<Point>, es: seq<Exchange>)
    requires AllHonest(image, es) && RunPlan(IndividualPlan(bank, points), es).Returns?
    requires RunPlan(IndividualPlan(bank, points), es).value.Some?
    ensures GetsOwn(image, bank, points, RunPlan(IndividualPlan(bank, points), es).value.value)
  {
    hide RunPlan, Singles, WrappedSlice;
    if points != [] {
      var p := points[0];
      var singles := Singles(bank, p.address, p.length);
      PlanConcat(singles, IndividualPlan(bank, points[1..]), es);
      var first := RunPlan(singles, es);
      SinglesRead(bank, p.address, p.length, es, image);
      var k := PlanConsumes(singles, es);
      HonestSuffix(image, es, k);
      IndividualGetsOwn(image, bank, points[1..], first.rest);
      var regs := RunPlan(IndividualPlan(bank, points), es).value.value;
      assert regs[..p.length] == first.value.value;
      assert regs[p.length..] == RunPlan(IndividualPlan(bank, points[1..]), first.rest).value.value;
    }
  }

  /** Points of one type, given their own registers, report their meaning, unless an index panics. */
  lemma {:induction false} OwnRegistersDecode(settings: Settings, image: Image, t: RegisterType, points: seq<Point>,
                                              regs: seq<uint16>)
    requires GetsOwn(image, BatchBank(t), points, regs)
    requires forall i :: 0 <= i < |points| ==> points[i].registerType == t
    ensures GroupValues(settings, points, regs) ==
      if exists i :: 0 <= i < |points| && IndexesNothing(points[i]) then None
      else Some(ExpectedValues(settings, image, points, true))
  {
    hide WrappedSlice, Parsed, IndexesNothing;
    if points != [] {
      var rest := points[1..];
      OwnRegistersDecode(settings, image, t, rest, regs[points[0].length..]);
      assert forall i :: 0 < i < |points| ==> points[i] == rest[i - 1];
      assert forall i :: 0 <= i < |rest| ==> rest[i] == points[i + 1];
    }
  }

  /** The device can carry out all of the group's first requests. */
  predicate Answerable(g: BatchGroup)
  {
    forall i :: 0 <= i < |MainPlan(g)| ==> InTable(MainPlan(g)[i])
  }

  ghost predicate OneType(g: BatchGroup)
  {
    forall i :: 0 <= i < |g.points| ==> g.points[i].registerType == g.registerType
  }

  /** The group's points follow each other from its start, as many registers as its total says. */
  ghost predicate Unbroken(g: BatchGroup)
  {
    g.points != [] && WrapChain(g.points) && g.startAddress == g.points[0].address &&
      g.totalLength == SumLengths(g.points)
  }

  /** The group is such a run, or the requests that treat it as one cannot be answered. */
  ghost predicate ReadsOwn(g: BatchGroup)
  {
    OneType(g) && (Unbroken(g) || !Answerable(g))
  }

  lemma AnsweredInTable(plan: seq<Request>, es: seq<Exchange>, image: Image)
    requires AllHonest(image, es) && RunPlan(plan, es).Returns? && RunPlan(plan, es).value.Some?
    ensures forall i :: 0 <= i < |plan| ==> InTable(plan[i])
  {
    hide InTable;
    var k := PlanConsumes(plan, es);
    forall i | 0 <= i < |plan| ensures InTable(plan[i]) {
      assert es[..k][i] == es[i] && Honest(image, es[i]);
    }
  }

  /** Then every route that succeeds gives each point its own registers. */
  lemma GroupGetsOwn(g: BatchGroup, es: seq<Exchange>, image: Image)
    requires ReadsOwn(g) && AllHonest(image, es)
    requires ReadGroup(g, es).Returns? && ReadGroup(g, es).value.Some?
    ensures GetsOwn(image, BatchBank(g.registerType), g.points, ReadGroup(g, es).value.value)
  {
    hide SumLengths, RunPlan, MainPlan, IndividualPlan, InTable, GetsOwn, WrappedSlice;
    var bank := BatchBank(g.registerType);
    var main := RunPlan(MainPlan(g), es);
    if main.value.Some? {
      AnsweredInTable(MainPlan(g), es, image);
      MainReads(g, es, image);
      CutsOwnRegisters(image, bank, g.points);
    } else {
      var k := PlanConsumes(MainPlan(g), es);
      HonestSuffix(image, es, k);
      IndividualGetsOwn(image, bank, g.points, main.rest);
    }
  }

  ghost function ExpectedValues(settings: Settings, image: Image, points: seq<Point>,
                                served: bool): (vs: seq<PointValue>)
    ensures |vs| == |points|
    ensures forall i :: 0 <= i < |points| ==> vs[i] == Expected(settings, image, points[i], served)
  {
    if points == [] then []
    else [Expected(settings, image, points[0], served)] + ExpectedValues(settings, image, points[1..], served)
  }

  lemma {:induction false} BadValuesAre(points: seq<Point>)
    ensures |BadValues(points)| == |points|
    ensures forall i :: 0 <= i < |points| ==> BadValues(points)[i] == BadValue(points[i])
  {
    if points != [] {
      BadValuesAre(points[1..]);
    }
  }

  /** The segment is a whole read of the group, from its first request to its end. */
  predicate CompleteRead(g: BatchGroup, es: seq<Exchange>)
  {
    ReadGroup(g, es).Returns? && ReadGroup(g, es).rest == []
  }

  /** A point's own registers cannot be decoded. */
  predicate Undecodable(p: Point) { p.dataType.OtherType? || p.length < Width(p.dataType) }

  lemma {:induction false} CutQualities(settings: Settings, points: seq<Point>, regs: seq<uint16>)
    requires GroupValues(settings, points, regs).Some?
    ensures |GroupValues(settings, points, regs).value| == |points|
    ensures forall i :: 0 <= i < |points| ==>
      (GroupValues(settings, points, regs).value[i].quality.Bad? <==> Undecodable(points[i]))
    decreases |points|
  {
    hide DecodeAs;
    if points != [] {
      CutQualities(settings, points[1..], regs[points[0].length..]);
    }
  }

  /** What a group reports on honest replies, unless it panics: which of its points are BAD, and, if it
      reads its own registers, every point's meaning. */
  lemma GroupReport(settings: Settings, g: BatchGroup, es: seq<Exchange>, image: Image, i: nat)
    requires AllHonest(image, es) && ReadGroup(g, es).Returns? && i < |g.points|
    requires ReportGroup(settings, g, ReadGroup(g, es).value).Some?
    ensures var vs, served := ReportGroup(settings, g, ReadGroup(g, es).value).value, ReadGroup(g, es).value.Some?;
      && |vs| == |g.points|
      && (vs[i].quality.Bad? <==> !served || Undecodable(g.points[i]))
      && (ReadsOwn(g) ==> vs[i] == Expected(settings, image, g.points[i], served))
  {
    hide ReadGroup, SumLengths, GroupValues, BadValues, ExpectedValues, GetsOwn, Answerable, Unbroken, Meaning;
    var regs := ReadGroup(g, es).value;
    if regs.Some? {
      CutQualities(settings, g.points, regs.value);
      if ReadsOwn(g) {
        GroupGetsOwn(g, es, image);
        OwnRegistersDecode(settings, image, g.registerType, g.points, regs.value);
      }
    } else {
      BadValuesAre(g.points);
    }
  }

  // ---- The whole collection ----------------------------------------------------------------------

  /** The exchanges of a collection in which group j was read. */
  function Segment(groups: seq<BatchGroup>, es: seq<Exchange>, j: nat): (segment: seq<Exchange>)
    requires j < |groups|
  {
    match ReadGroup(groups[0], es)
    case Returns(_, rest) =>
      if j > 0 then Segment(groups[1..], rest, j - 1)
      else if |rest| <= |es| then es[..|es| - |rest|] else []
    case _ => []
  }

  /** Group j was read, as its exchanges show. */
  predicate WasServed(groups: seq<BatchGroup>, es: seq<Exchange>, j: nat)
    requires j < |groups|
  {
    Served(groups[j], Segment(groups, es, j))
  }

  /** Where group j's values start. */
  function Offset(groups: seq<BatchGroup>, j: nat): nat
    requires j <= |groups|
  {
    if j == 0 then 0 else |groups[0].points| + Offset(groups[1..], j - 1)
  }

  /** The value of point k of group j is in its place; it is BAD exactly when the group was not read or
      the point's own registers cannot be decoded; and it is the point's meaning, if the group was
      read and reads its own registers. */
  ghost predicate ReportedAt(settings: Settings, image: Image, groups: seq<BatchGroup>, es: seq<Exchange>,
                             values: seq<PointValue>, j: nat, k: nat)
    requires j < |groups| && k < |groups[j].points|
  {
    var i, p := Offset(groups, j) + k, groups[j].points[k];
    && i < |values|
    && CompleteRead(groups[j], Segment(groups, es, j))
    && (values[i].quality.Bad? <==> !WasServed(groups, es, j) || Undecodable(p))
    && (ReadsOwn(groups[j]) ==> values[i] == Expected(settings, image, p, WasServed(groups, es, j)))
  }

  /** What a collection that returned reports. */
  ghost predicate Reports(settings: Settings, image: Image, groups: seq<BatchGroup>, es: seq<Exchange>,
                          values: seq<PointValue>)
  {
    && |values| == |AllPoints(groups)|
    && forall j, k :: 0 <= j < |groups| && 0 <= k < |groups[j].points| ==>
         ReportedAt(settings, image, groups, es, values, j, k)
  }

  lemma AllPointsStep(groups: seq<BatchGroup>)
    requires groups != []
    ensures AllPoints(groups) == groups[0].points + AllPoints(groups[1..])
  {
    assert PointLists(groups)[1..] == PointLists(groups[1..]);
  }

  /** The first segment is a complete read, and was answered exactly when it returned registers. */
  lemma FirstSegment(groups: seq<BatchGroup>, es: seq<Exchange>)
    requires groups != [] && ReadGroup(groups[0], es).Returns?
    ensures CompleteRead(groups[0], Segment(groups, es, 0))
    ensures WasServed(groups, es, 0) <==> ReadGroup(groups[0], es).value.Some?
    ensures es == Segment(groups, es, 0) + ReadGroup(groups[0], es).rest
  {
    hide ReadGroup, Served;
    var k := ReadConsumes(groups[0], es);
    ReadPrefix(groups[0], es, k);
    assert |es[k..]| == |es| - k;
    assert Segment(groups, es, 0) == es[..k];
  }

  /** Whatever the configuration and whatever requests fail, a collection that returns reports this. */
  lemma {:induction false} CollectReportsAt(settings: Settings, groups: seq<BatchGroup>, es: seq<Exchange>,
                                            image: Image, j: nat, k: nat)
    requires AllHonest(image, es) && CollectGroups(settings, groups, es).Returns?
    requires CollectGroups(settings, groups, es).value.Some? && j < |groups| && k < |groups[j].points|
    ensures ReportedAt(settings, image, groups, es, CollectGroups(settings, groups, es).value.value, j, k)
    decreases j
  {
    hide ReadGroup, ReportGroup, ReadsOwn, Served, CompleteRead, Undecodable, Expected;
    FirstSegment(groups, es);
    var rest := ReadGroup(groups[0], es).rest;
    var n := ReadConsumes(groups[0], es);
    HonestSuffix(image, es, n);
    if j == 0 {
      GroupReport(settings, groups[0], es, image, k);
    } else {
      ReportSize(settings, groups[0], ReadGroup(groups[0], es).value);
      CollectReportsAt(settings, groups[1..], rest, image, j - 1, k);
    }
  }

  lemma ReportSize(settings: Settings, g: BatchGroup, regs: Option<seq<uint16>>)
    requires ReportGroup(settings, g, regs).Some?
    ensures |ReportGroup(settings, g, regs).value| == |g.points|
  {
    hide GroupValues, BadValues;
    if regs.Some? {
      CutQualities(settings, g.points, regs.value);
    } else {
      BadValuesAre(g.points);
    }
  }

  lemma CollectReports(settings: Settings, groups: seq<BatchGroup>, es: seq<Exchange>, image: Image)
    requires AllHonest(image, es) && CollectGroups(settings, groups, es).Returns?
    requires CollectGroups(settings, groups, es).value.Some?
    ensures Reports(settings, image, groups, es, CollectGroups(settings, groups, es).value.value)
  {
    hide CollectGroups, ReportedAt, AllPoints;
    var values := CollectGroups(settings, groups, es).value.value;
    CollectNames(settings, groups, es);
    assert |values| == |ValueNames(values)| == |PointNames(AllPoints(groups))|;
    forall j, k | 0 <= j < |groups| && 0 <= k < |groups[j].points|
      ensures ReportedAt(settings, image, groups, es, values, j, k)
    {
      CollectReportsAt(settings, groups, es, image, j, k);
    }
  }

  function Segments(groups: seq<BatchGroup>, es: seq<Exchange>): (segments: seq<seq<Exchange>>)
    ensures |segments| == |groups| && forall j :: 0 <= j < |groups| ==> segments[j] == Segment(groups, es, j)
  {
    seq(|groups|, j requires 0 <= j < |groups| => Segment(groups, es, j))
  }

  /** The segments are all the exchanges the collection made, in order. */
  lemma {:induction false} SegmentsCover(settings: Settings, groups: seq<BatchGroup>, es: seq<Exchange>)
    requires CollectGroups(settings, groups, es).Returns? && CollectGroups(settings, groups, es).value.Some?
    ensures es == Concat(Segments(groups, es)) + CollectGroups(settings, groups, es).rest
    decreases |groups|
  {
    hide ReadGroup, ReportGroup;
    if groups == [] {
      assert Segments(groups, es) == [] && [] + es == es;
    } else {
      FirstSegment(groups, es);
      var rest := ReadGroup(groups[0], es).rest;
      SegmentsCover(settings, groups[1..], rest);
      assert Segments(groups, es)[1..] == Segments(groups[1..], rest);
    }
  }

  /** Where every request was answered, every group was read. */
  lemma {:induction false} AnsweredServes(settings: Settings, groups: seq<BatchGroup>, es: seq<Exchange>, j: nat)
    requires CollectGroups(settings, groups, es).Returns? && CollectGroups(settings, groups, es).value.Some?
    requires AllAnswered(es) && j < |groups|
    ensures WasServed(groups, es, j)
    decreases j
  {
    hide ReadGroup, ReportGroup, Served;
    FirstSegment(groups, es);
    var rest := ReadGroup(groups[0], es).rest;
    var k := ReadConsumes(groups[0], es);
    if j == 0 {
      AnsweredIsServed(groups[0], es, k);
    } else {
      AnsweredServes(settings, groups[1..], rest, j - 1);
    }
  }

  lemma AnsweredIsServed(g: BatchGroup, es: seq<Exchange>, k: nat)
    requires ReadGroup(g, es).Returns? && AllAnswered(es) && k <= |es| && ReadGroup(g, es).rest == es[k..]
    ensures ReadGroup(g, es).value.Some?
  {
    hide RunPlan, MainPlan, IndividualPlan;
    var m := PlanConsumes(MainPlan(g), es);
  }

  // ---- Names -------------------------------------------------------------------------------------

  function PointNames(ps: seq<Point>): (names: seq<string>)
    ensures |names| == |ps| && forall i :: 0 <= i < |ps| ==> names[i] == ps[i].name
  {
    seq(|ps|, i requires 0 <= i < |ps| => ps[i].name)
  }

  function ValueNames(vs: seq<PointValue>): (names: seq<string>)
    ensures |names| == |vs| && forall i :: 0 <= i < |vs| ==> names[i] == vs[i].name
  {
    seq(|vs|, i requires 0 <= i < |vs| => vs[i].name)
  }

  lemma NoPoints()
    ensures AllPoints([]) == []
  {
    assert PointLists([]) == [];
  }

  lemma {:induction false} BadNames(points: seq<Point>)
    ensures ValueNames(BadValues(points)) == PointNames(points)
  {
    if points != [] {
      BadNames(points[1..]);
      assert PointNames(points) == [points[0].name] + PointNames(points[1..]);
    }
  }

  lemma ParsedName(settings: Settings, p: Point, regs: seq<uint16>)
    ensures Parsed(settings, p, regs).name == p.name
  {
    hide DecodeAs;
  }

  lemma NamesCons(p: Point, ps: seq<Point>, v: PointValue, vs: seq<PointValue>)
    requires v.name == p.name && ValueNames(vs) == PointNames(ps)
    ensures ValueNames([v] + vs) == PointNames([p] + ps)
  {
    assert ValueNames([v] + vs) == [v.name] + ValueNames(vs);
    assert PointNames([p] + ps) == [p.name] + PointNames(ps);
  }

  lemma {:induction false} CutNames(settings: Settings, points: seq<Point>, regs: seq<uint16>)
    requires GroupValues(settings, points, regs).Some?
    ensures ValueNames(GroupValues(settings, points, regs).value) == PointNames(points)
    decreases |points|
  {
    hide Parsed, ValueNames, PointNames;
    if points == [] {
      assert |ValueNames([])| == 0 && |PointNames([])| == 0;
    } else {
      var p, rest := points[0], regs[points[0].length..];
      CutNames(settings, points[1..], rest);
      ParsedName(settings, p, regs[..p.length]);
      NamesCons(p, points[1..], Parsed(settings, p, regs[..p.length]), GroupValues(settings, points[1..], rest).value);
      assert points == [p] + points[1..];
    }
  }

  /** Whatever the configuration and the replies, a collection that returns has one value per point,
      named in the order of the groups' points. */
  lemma {:induction false} CollectNames(settings: Settings, groups: seq<BatchGroup>, es: seq<Exchange>)
    requires CollectGroups(settings, groups, es).Returns? && CollectGroups(settings, groups, es).value.Some?
    ensures ValueNames(CollectGroups(settings, groups, es).value.value) == PointNames(AllPoints(groups))
    decreases |groups|
  {
    hide ReadGroup, GroupValues, BadValues, Concat;
    if groups == [] {
      NoPoints();
    } else {
      AllPointsStep(groups);
      BadNames(groups[0].points);
      var regs := ReadGroup(groups[0], es).value;
      if regs.Some? {
        CutNames(settings, groups[0].points, regs.value);
      }
      CollectNames(settings, groups[1..], ReadGroup(groups[0], es).rest);
      var first, more := groups[0].points, AllPoints(groups[1..]);
      assert PointNames(first + more) == PointNames(first) + PointNames(more);
    }
  }

  lemma Without<T>(s: seq<T>, i: nat)
    requires i < |s|
    ensures multiset(s[..i] + s[i + 1..]) == multiset(s) - multiset{s[i]}
  {
    assert s == s[..i] + [s[i]] + s[i + 1..];
  }

  lemma NamesWithout(ps: seq<Point>, i: nat)
    requires i < |ps|
    ensures multiset(PointNames(ps)) == multiset(PointNames(ps[..i] + ps[i + 1..])) + multiset{ps[i].name}
  {
    var names := PointNames(ps);
    assert PointNames(ps[..i] + ps[i + 1..]) == names[..i] + names[i + 1..];
    Without(names, i);
    assert names[i] in multiset(names);
  }

  lemma Find<T>(s: seq<T>, t: seq<T>) returns (i: nat)
    requires s != [] && multiset(s) == multiset(t)
    ensures i < |t| && t[i] == s[0] && multiset(s[1..]) == multiset(t[..i] + t[i + 1..])
  {
    assert s[0] in multiset(t);
    i :| 0 <= i < |t| && t[i] == s[0];
    Without(t, i);
    WithoutFirst(s);
  }

  lemma WithoutFirst<T>(s: seq<T>)
    requires s != []
    ensures multiset(s[1..]) == multiset(s) - multiset{s[0]}
  {
    assert s == [s[0]] + s[1..];
  }

  lemma NamesFirst(ps: seq<Point>)
    requires ps != []
    ensures multiset(PointNames(ps)) == multiset{ps[0].name} + multiset(PointNames(ps[1..]))
  {
    assert PointNames(ps) == [ps[0].name] + PointNames(ps[1..]);
  }

  lemma NoneLeft<T>(s: seq<T>, t: seq<T>)
    requires s == [] && multiset(s) == multiset(t)
    ensures t == s
  {
    assert |multiset(t)| == |t|;
  }

  lemma {:induction false} NamesPermuted(ps: seq<Point>, qs: seq<Point>)
    requires multiset(ps) == multiset(qs)
    ensures multiset(PointNames(ps)) == multiset(PointNames(qs))
    decreases |ps|
  {
    hide PointNames;
    if ps == [] {
      NoneLeft(ps, qs);
    } else {
      var i := Find(ps, qs);
      NamesPermuted(ps[1..], qs[..i] + qs[i + 1..]);
      NamesFirst(ps);
      NamesWithout(qs, i);
    }
  }

  // ---- Whole configurations ----------------------------------------------------------------------

  /** The condition under which every point of a configuration is read at its own addresses. */
  ghost predicate ReadsRight(points: seq<Point>)
  {
    && (forall i :: 0 <= i < |points| ==> !IndexesNothing(points[i]))
    && forall i :: 0 <= i < |Grouped(points)| ==> ReadsOwn(Grouped(points)[i])
  }

  lemma ArrangedMembers(g: BatchGroup)
    ensures forall p :: p in Arranged(g).points <==> p in g.points
  {
    hide SortedPoints;
    ExchangeSorts(g.points);
    forall p ensures p in SortedPoints(g.points) <==> p in g.points {
      assert p in multiset(SortedPoints(g.points)) <==> p in multiset(g.points);
    }
  }

  lemma GroupedOneType(points: seq<Point>, i: nat)
    requires i < |Grouped(points)|
    ensures OneType(Grouped(points)[i]) && Grouped(points)[i].points != []
  {
    hide Greedy, SortedPoints, SumLengths;
    var g, g' := Greedy(points)[i], Grouped(points)[i];
    GreedyShaped(points);
    ArrangedMembers(g);
    forall k | 0 <= k < |g'.points| ensures g'.points[k].registerType == g'.registerType {
      assert g'.points[k] in g.points;
    }
  }

  /** A point of the configuration has its place in a group. */
  lemma PlaceOf(points: seq<Point>, p: Point) returns (j: nat, k: nat)
    requires p in points
    ensures j < |Grouped(points)| && k < |Grouped(points)[j].points| && Grouped(points)[j].points[k] == p
  {
    hide Grouped, Concat;
    GroupedPartitions(points);
    assert p in multiset(points) && p in multiset(AllPoints(Grouped(points)));
    j, k := ConcatMember(PointLists(Grouped(points)), p);
  }

  /** And every point of a group is one of the configuration. */
  lemma GroupedFrom(points: seq<Point>, j: nat, k: nat)
    requires j < |Grouped(points)| && k < |Grouped(points)[j].points|
    ensures Grouped(points)[j].points[k] in points
  {
    hide Grouped, Concat;
    GroupedPartitions(points);
    MemberOfConcat(PointLists(Grouped(points)), j, k);
    assert Grouped(points)[j].points[k] in multiset(points);
  }

  /** Then a collection over honest replies cannot panic. */
  lemma {:induction false} NoPanic(settings: Settings, groups: seq<BatchGroup>, es: seq<Exchange>, image: Image)
    requires AllHonest(image, es) && CollectGroups(settings, groups, es).Returns?
    requires forall j :: 0 <= j < |groups| ==>
      ReadsOwn(groups[j]) && forall k :: 0 <= k < |groups[j].points| ==> !IndexesNothing(groups[j].points[k])
    ensures CollectGroups(settings, groups, es).value.Some?
    decreases |groups|
  {
    hide ReadGroup, GroupValues, Unbroken, Answerable, IndexesNothing, GetsOwn;
    if groups != [] {
      var g := groups[0];
      var n := ReadConsumes(g, es);
      HonestSuffix(image, es, n);
      if ReadGroup(g, es).value.Some? {
        GroupGetsOwn(g, es, image);
        OwnRegistersDecode(settings, image, g.registerType, g.points, ReadGroup(g, es).value.value);
      }
      NoPanic(settings, groups[1..], es[n..], image);
    }
  }

  lemma ReadsRightReturns(settings: Settings, points: seq<Point>, es: seq<Exchange>, image: Image)
    requires AllHonest(image, es) && CollectGroups(settings, Grouped(points), es).Returns? && ReadsRight(points)
    ensures CollectGroups(settings, Grouped(points), es).value.Some?
  {
    hide Grouped, ReadsOwn, IndexesNothing, CollectGroups;
    forall j, k | 0 <= j < |Grouped(points)| && 0 <= k < |Grouped(points)[j].points|
      ensures !IndexesNothing(Grouped(points)[j].points[k])
    {
      GroupedFrom(points, j, k);
    }
    NoPanic(settings, Grouped(points), es, image);
  }

  lemma SoundReadsOwn(g: BatchGroup)
    requires Shaped(g) && Chain(g.points) && AllSound(g.points)
    ensures ReadsOwn(g)
  {
    if !Full(g) {
      TotalExactly(g);
    } else {
      ChainSpan(g.points);
      assert BulkPlan(g)[0].count == 0 && !InTable(BulkPlan(g)[0]);
      assert MainPlan(g)[0] == BulkPlan(g)[0];
    }
  }

  /** Points whose registers exist, none of which ends at the end of its table before one that starts
      at 0, are read right. A group that fills its table is asked for zero registers, which is refused,
      and is read register by register. */
  lemma SoundReadsRight(points: seq<Point>)
    requires AllSound(points) && !WrapsRound(points)
    ensures ReadsRight(points) && Grouped(points) == Greedy(points)
  {
    hide Greedy, Grouped, WrapsRound, Shaped, Chain, ReadsOwn, SumLengths;
    ContiguousExactly(points);
    GreedyShaped(points);
    SortChangesNothing(points);
    assert forall i :: 0 <= i < |points| ==> Sound(points[i]);
    forall i | 0 <= i < |Greedy(points)| ensures ReadsOwn(Greedy(points)[i]) {
      SoundMembers(points, i);
      SoundReadsOwn(Greedy(points)[i]);
    }
  }

  // ---- A collection asks only reads, and goes on from every reply ---------------------------------

  lemma {:induction false} IndividualPlanReads(bank: Bank, points: seq<Point>)
    ensures forall i :: 0 <= i < |IndividualPlan(bank, points)| ==> IndividualPlan(bank, points)[i].Read?
  {
    if points != [] {
      IndividualPlanReads(bank, points[1..]);
    }
  }

  lemma ReadGroupGoesOn(g: BatchGroup, es: seq<Exchange>, reply: Reply)
    requires ReadGroup(g, es).Asks?
    ensures ReadGroup(g, es).request.Read?
    ensures var next := ReadGroup(g, es + [Exchange(ReadGroup(g, es).request, reply)]);
      !next.Strays? && (next.Returns? ==> next.rest == [])
  {
    hide RunPlan, SplitPlan, IndividualPlan;
    var bank := BatchBank(g.registerType);
    var e := Exchange(ReadGroup(g, es).request, reply);
    if Splits(g) {
      var plan := SplitPlan(bank, g.startAddress, g.totalLength, Limit(bank));
      SplitWithinLimit(bank, g.startAddress, g.totalLength, Limit(bank));
      PlanGoesOn(plan, es, reply);
    } else if RunPlan(BulkPlan(g), es).Asks? {
      PlanGoesOn(BulkPlan(g), es, reply);
      assert es + [e] == [e];
      if RunPlan(BulkPlan(g), [e]) == Returns(None, []) && RegisterBank(g.registerType).Some? {
        PlanStarts(IndividualPlan(RegisterBank(g.registerType).value, g.points));
      }
    } else {
      PlanFrame(BulkPlan(g), es, [e]);
      var rest := RunPlan(BulkPlan(g), es).rest;
      var plan := IndividualPlan(RegisterBank(g.registerType).value, g.points);
      IndividualPlanReads(RegisterBank(g.registerType).value, g.points);
      PlanGoesOn(plan, rest, reply);
    }
  }

  lemma PlanStarts(plan: seq<Request>)
    ensures !RunPlan(plan, []).Strays?
    ensures RunPlan(plan, []).Returns? ==> RunPlan(plan, []).rest == []
  {
  }

  lemma ReadGroupFrame(g: BatchGroup, es: seq<Exchange>, more: seq<Exchange>)
    requires ReadGroup(g, es).Returns?
    ensures ReadGroup(g, es + more) == Returns(ReadGroup(g, es).value, ReadGroup(g, es).rest + more)
  {
    hide RunPlan, SplitPlan, IndividualPlan;
    var bank := BatchBank(g.registerType);
    if Splits(g) {
      PlanFrame(SplitPlan(bank, g.startAddress, g.totalLength, Limit(bank)), es, more);
    } else {
      PlanFrame(BulkPlan(g), es, more);
      if RunPlan(BulkPlan(g), es).value.None? && RegisterBank(g.registerType).Some? {
        PlanFrame(IndividualPlan(RegisterBank(g.registerType).value, g.points), RunPlan(BulkPlan(g), es).rest, more);
      }
    }
  }

  lemma CollectStarts(settings: Settings, groups: seq<BatchGroup>)
    ensures var first := CollectGroups(settings, groups, []);
      !first.Strays? && (first.Returns? ==> first.rest == []) && (first.Asks? ==> first.request.Read?)
    decreases |groups|
  {
    if groups != [] {
      var g := groups[0];
      var bank := BatchBank(g.registerType);
      if Splits(g) {
        SplitWithinLimit(bank, g.startAddress, g.totalLength, Limit(bank));
        assert g.totalLength > 0;
      }
      assert ReadGroup(g, []).Asks? && ReadGroup(g, []).request.Read?;
    }
  }

  lemma {:induction false} CollectGoesOn(settings: Settings, groups: seq<BatchGroup>, es: seq<Exchange>, reply: Reply)
    requires CollectGroups(settings, groups, es).Asks?
    ensures CollectGroups(settings, groups, es).request.Read?
    ensures var e := Exchange(CollectGroups(settings, groups, es).request, reply);
      var next := CollectGroups(settings, groups, es + [e]);
      !next.Strays? && (next.Returns? ==> next.rest == [])
    decreases |groups|
  {
    hide ReadGroup, ReportGroup;
    var e := Exchange(CollectGroups(settings, groups, es).request, reply);
    if ReadGroup(groups[0], es).Asks? {
      ReadGroupGoesOn(groups[0], es, reply);
      CollectStarts(settings, groups[1..]);
    } else {
      ReadGroupFrame(groups[0], es, [e]);
      CollectGoesOn(settings, groups[1..], ReadGroup(groups[0], es).rest, reply);
    }
  }
}
