/** Exactly when a collection goes wrong: when it reaches past the end of an array, and when it gives a
    point registers that are not its own. */
module Exactness {
  import opened Words
  import opened Points
  import opened Devices
  import opened Decoding
  import opened Grouping
  import opened Reading

  // ---- A device that answers ---------------------------------------------------------------------

  predicate Reads(plan: seq<Request>)
  {
    forall i :: 0 <= i < |plan| ==> plan[i].Read? && InTable(plan[i])
  }

  /** The exchanges of a plan all of whose requests are answered. */
  function Answered(image: Image, plan: seq<Request>): (es: seq<Exchange>)
    requires Reads(plan)
    ensures |es| == |plan|
  {
    if plan == [] then []
    else
      var words := Slice(image, plan[0].bank, plan[0].address, plan[0].count);
      [Exchange(plan[0], Answer(words))] + Answered(image, plan[1..])
  }

  function Counts(plan: seq<Request>): nat
    requires forall i :: 0 <= i < |plan| ==> plan[i].Read?
  {
    if plan == [] then 0 else plan[0].count as nat + Counts(plan[1..])
  }

  lemma {:induction false} AnsweredRuns(image: Image, plan: seq<Request>)
    requires Reads(plan)
    ensures AllHonest(image, Answered(image, plan))
    ensures var run := RunPlan(plan, Answered(image, plan)); run.Returns? && run.value.Some? && run.rest == []
    decreases |plan|
  {
    hide Slice;
    if plan != [] {
      AnsweredRuns(image, plan[1..]);
      assert Answered(image, plan)[1..] == Answered(image, plan[1..]);
    }
  }

  /** The first word of the answers is the one at the first request's address. */
  lemma FirstWord(image: Image, plan: seq<Request>)
    requires Reads(plan) && plan != [] && plan[0].count > 0
    requires RunPlan(plan, Answered(image, plan)).Returns? && RunPlan(plan, Answered(image, plan)).value.Some?
    ensures var ws := RunPlan(plan, Answered(image, plan)).value.value;
      ws != [] && ws[0] == Table(image, plan[0].bank)[plan[0].address]
  {
    hide Table;
  }

  /** Honest answers are as many words as were asked for. */
  lemma {:induction false} AnsweredLength(image: Image, plan: seq<Request>, es: seq<Exchange>)
    requires AllHonest(image, es) && forall i :: 0 <= i < |plan| ==> plan[i].Read?
    requires RunPlan(plan, es).Returns? && RunPlan(plan, es).value.Some?
    ensures |RunPlan(plan, es).value.value| == Counts(plan)
    decreases |plan|
  {
    hide Table;
    if plan != [] {
      assert Honest(image, es[0]);
      AnsweredLength(image, plan[1..], es[1..]);
    }
  }

  lemma {:induction false} SplitCounts(bank: Bank, start: uint16, remaining: uint16, max: uint16)
    requires max > 0
    ensures forall i :: 0 <= i < |SplitPlan(bank, start, remaining, max)| ==>
      SplitPlan(bank, start, remaining, max)[i].Read?
    ensures Counts(SplitPlan(bank, start, remaining, max)) == remaining
    decreases remaining
  {
    if remaining > 0 {
      var batch := if remaining > max then max else remaining;
      SplitCounts(bank, Wrap16(start + batch), remaining - batch, max);
    }
  }

  lemma MainCounts(g: BatchGroup)
    ensures MainPlan(g) != [] && forall i :: 0 <= i < |MainPlan(g)| ==> MainPlan(g)[i].Read?
    ensures MainPlan(g)[0].bank == BatchBank(g.registerType) && MainPlan(g)[0].address == g.startAddress
    ensures g.totalLength > 0 ==> MainPlan(g)[0].count > 0
    ensures Counts(MainPlan(g)) == g.totalLength
  {
    var bank := BatchBank(g.registerType);
    if Splits(g) {
      SplitCounts(bank, g.startAddress, g.totalLength, Limit(bank));
    } else {
      assert Counts(BulkPlan(g)[1..]) == 0;
    }
  }

  /** A group that can be answered, answered. */
  lemma MainAnswered(image: Image, g: BatchGroup) returns (es: seq<Exchange>)
    requires Answerable(g)
    ensures AllHonest(image, es) && ReadGroup(g, es).Returns? && ReadGroup(g, es).rest == [] &&
      ReadGroup(g, es).value.Some?
    ensures |ReadGroup(g, es).value.value| == g.totalLength
    ensures g.totalLength > 0 ==>
      ReadGroup(g, es).value.value[0] == Table(image, BatchBank(g.registerType))[g.startAddress]
  {
    hide MainPlan, InTable, Table, RunPlan, AllHonest;
    MainCounts(g);
    es := Answered(image, MainPlan(g));
    AnsweredRuns(image, MainPlan(g));
    AnsweredLength(image, MainPlan(g), es);
    if g.totalLength > 0 {
      FirstWord(image, MainPlan(g));
    }
  }

  // ---- Reaching past the end ---------------------------------------------------------------------

  ghost predicate SomeIndexesNothing(points: seq<Point>)
  {
    exists i :: 0 <= i < |points| && IndexesNothing(points[i])
  }

  /** Points are cut from an array exactly when it is long enough and no empty slice is indexed. */
  lemma {:induction false} CutsWhenLongEnough(settings: Settings, points: seq<Point>, regs: seq<uint16>)
    ensures GroupValues(settings, points, regs).Some? <==> SumLengths(points) <= |regs| && !SomeIndexesNothing(points)
    decreases |points|
  {
    hide Parsed, IndexesNothing;
    if points != [] {
      var rest := points[1..];
      if points[0].length <= |regs| {
        CutsWhenLongEnough(settings, rest, regs[points[0].length..]);
      }
      assert forall i :: 0 < i < |points| ==> points[i] == rest[i - 1];
      assert forall i :: 0 <= i < |rest| ==> rest[i] == points[i + 1];
    }
  }

  lemma {:induction false} OwnLength(image: Image, bank: Bank, points: seq<Point>, regs: seq<uint16>)
    requires GetsOwn(image, bank, points, regs)
    ensures SumLengths(points) <= |regs|
    decreases |points|
  {
    hide WrappedSlice;
    if points != [] {
      OwnLength(image, bank, points[1..], regs[points[0].length..]);
    }
  }

  /** Some route of the group can be answered. */
  predicate Readable(g: BatchGroup) { Answerable(g) || (!Splits(g) && RegisterBank(g.registerType).Some?) }

  /** The group is answered with fewer registers than its points have. */
  ghost predicate TooShort(g: BatchGroup) { Answerable(g) && g.totalLength < SumLengths(g.points) }

  ghost predicate MayPanic(g: BatchGroup) { TooShort(g) || (Readable(g) && SomeIndexesNothing(g.points)) }

  /** A group that panics over honest replies is such a group. */
  lemma PanicNeeds(settings: Settings, image: Image, g: BatchGroup, es: seq<Exchange>)
    requires AllHonest(image, es) && ReadGroup(g, es).Returns?
    requires ReportGroup(settings, g, ReadGroup(g, es).value) == None
    ensures MayPanic(g)
  {
    hide SumLengths, RunPlan, MainPlan, IndividualPlan, InTable, GetsOwn, GroupValues, SomeIndexesNothing;
    CutsWhenLongEnough(settings, g.points, ReadGroup(g, es).value.value);
    var main := RunPlan(MainPlan(g), es);
    if main.value.Some? {
      MainCounts(g);
      AnsweredInTable(MainPlan(g), es, image);
      AnsweredLength(image, MainPlan(g), es);
    } else {
      var k := PlanConsumes(MainPlan(g), es);
      HonestSuffix(image, es, k);
      IndividualGetsOwn(image, BatchBank(g.registerType), g.points, main.rest);
      OwnLength(image, BatchBank(g.registerType), g.points, ReadGroup(g, es).value.value);
    }
  }

  lemma FailsAtOnce(plan: seq<Request>, more: seq<Exchange>)
    requires plan != []
    ensures RunPlan(plan, [Exchange(plan[0], Failed)] + more) == Returns(None, more)
  {
    assert ([Exchange(plan[0], Failed)] + more)[1..] == more;
  }

  /** A group read whose first request fails, and which then goes as the fallback goes. */
  lemma FallsBack(g: BatchGroup, more: seq<Exchange>)
    ensures MainPlan(g) != []
    ensures ReadGroup(g, [Exchange(MainPlan(g)[0], Failed)] + more) ==
      if Splits(g) || RegisterBank(g.registerType).None? then Returns(None, more)
      else RunPlan(IndividualPlan(RegisterBank(g.registerType).value, g.points), more)
  {
    hide RunPlan, MainPlan, IndividualPlan;
    MainCounts(g);
    FailsAtOnce(MainPlan(g), more);
  }

  /** Failures that bring a group read to its end. */
  lemma FailedRead(g: BatchGroup) returns (es: seq<Exchange>)
    ensures ReadGroup(g, es).Returns? && ReadGroup(g, es).rest == []
    ensures forall i :: 0 <= i < |es| ==> es[i].reply.Failed?
  {
    hide RunPlan, MainPlan, IndividualPlan;
    FallsBack(g, []);
    var main := [Exchange(MainPlan(g)[0], Failed)];
    assert main + [] == main;
    es := main;
    if !Splits(g) && RegisterBank(g.registerType).Some? {
      var plan := IndividualPlan(RegisterBank(g.registerType).value, g.points);
      if plan == [] {
        NothingPlanned(plan);
      } else {
        var more := [Exchange(plan[0], Failed)];
        FailsAtOnce(plan, []);
        assert more + [] == more;
        FallsBack(g, more);
        es := main + more;
      }
    }
  }

  lemma NothingPlanned(plan: seq<Request>)
    requires plan == []
    ensures RunPlan(plan, []) == Returns(Some([]), [])
  {
  }

  lemma {:induction false} IndividualReads(bank: Bank, points: seq<Point>)
    ensures Reads(IndividualPlan(bank, points))
  {
    if points != [] {
      IndividualReads(bank, points[1..]);
    }
  }

  /** A readable group, read. */
  lemma Readably(image: Image, g: BatchGroup) returns (es: seq<Exchange>)
    requires Readable(g)
    ensures AllHonest(image, es) && ReadGroup(g, es).Returns? && ReadGroup(g, es).rest == [] &&
      ReadGroup(g, es).value.Some?
  {
    hide RunPlan, MainPlan, IndividualPlan, InTable, Answerable;
    if Answerable(g) {
      es := MainAnswered(image, g);
    } else {
      var bank := RegisterBank(g.registerType).value;
      IndividualReads(bank, g.points);
      var more := Answered(image, IndividualPlan(bank, g.points));
      AnsweredRuns(image, IndividualPlan(bank, g.points));
      FallsBack(g, more);
      es := [Exchange(MainPlan(g)[0], Failed)] + more;
    }
  }

  /** A group that may panic, panicking. */
  lemma Panicking(settings: Settings, image: Image, g: BatchGroup) returns (es: seq<Exchange>)
    requires MayPanic(g)
    ensures AllHonest(image, es) && ReadGroup(g, es).Returns? && ReadGroup(g, es).rest == []
    ensures ReportGroup(settings, g, ReadGroup(g, es).value) == None
  {
    hide ReadGroup, Answerable, Readable, SumLengths, GroupValues, SomeIndexesNothing;
    if TooShort(g) {
      es := MainAnswered(image, g);
    } else {
      es := Readably(image, g);
    }
    CutsWhenLongEnough(settings, g.points, ReadGroup(g, es).value.value);
  }

  ghost predicate Panics(settings: Settings, groups: seq<BatchGroup>, image: Image, es: seq<Exchange>)
  {
    AllHonest(image, es) && CollectGroups(settings, groups, es).Returns? &&
      CollectGroups(settings, groups, es).value.None?
  }

  lemma {:induction false} PanicFound(settings: Settings, groups: seq<BatchGroup>, image: Image, es: seq<Exchange>)
    returns (i: nat)
    requires Panics(settings, groups, image, es)
    ensures i < |groups| && MayPanic(groups[i])
    decreases |groups|
  {
    hide ReadGroup, ReportGroup, MayPanic, AllHonest;
    if ReportGroup(settings, groups[0], ReadGroup(groups[0], es).value) == None {
      PanicNeeds(settings, image, groups[0], es);
      i := 0;
    } else {
      var k := ReadConsumes(groups[0], es);
      HonestSuffix(image, es, k);
      i := PanicFound(settings, groups[1..], image, es[k..]);
      i := i + 1;
    }
  }

  lemma {:induction false} PanicMade(settings: Settings, groups: seq<BatchGroup>, image: Image, i: nat)
    returns (es: seq<Exchange>)
    requires i < |groups| && MayPanic(groups[i])
    ensures Panics(settings, groups, image, es)
    decreases i
  {
    hide ReadGroup, ReportGroup, MayPanic;
    if i == 0 {
      es := Panicking(settings, image, groups[0]);
    } else {
      var failed := FailedRead(groups[0]);
      if ReportGroup(settings, groups[0], ReadGroup(groups[0], failed).value) == None {
        es := failed;
      } else {
        var more := PanicMade(settings, groups[1..], image, i - 1);
        ReadGroupFrame(groups[0], failed, more);
        assert [] + more == more;
        es := failed + more;
      }
    }
  }

  ghost predicate CanPanic(settings: Settings, groups: seq<BatchGroup>)
  {
    exists image, es :: Panics(settings, groups, image, es)
  }

  /** Some honest device makes a collection reach past the end of an array exactly when some group's
      uint16 total is less than its lengths and its requests can be answered, or some readable group
      has a point of length 0 whose type needs one register. */
  lemma PanicsExactly(settings: Settings, base: Image, groups: seq<BatchGroup>)
    ensures CanPanic(settings, groups) <==> exists i :: 0 <= i < |groups| && MayPanic(groups[i])
  {
    hide Panics, MayPanic;
    if CanPanic(settings, groups) {
      var image, es :| Panics(settings, groups, image, es);
      var i := PanicFound(settings, groups, image, es);
    }
    if i :| 0 <= i < |groups| && MayPanic(groups[i]) {
      var es := PanicMade(settings, groups, base, i);
    }
  }

  // ---- Registers that are not the point's own ----------------------------------------------------

  /** A device that holds 1 at one address of one table and nothing anywhere else. */
  function OneAt(bank: Bank, at: uint16): (image: Image)
    ensures Table(image, bank)[at] == 1
    ensures forall a :: 0 <= a < ADDRESSES && a != at ==> Table(image, bank)[a] == 0
  {
    var bits: BitBank := seq(0x1_0000, i => i == at);
    var words: WordBank := seq(0x1_0000, i => if i == at then 1 else 0);
    Image(bits, bits, words, words)
  }

  ghost predicate AllPositive(points: seq<Point>)
  {
    forall i :: 0 <= i < |points| ==> points[i].length > 0
  }

  lemma {:induction false} SumSplit(ps: seq<Point>, k: nat)
    requires k <= |ps|
    ensures SumLengths(ps) == SumLengths(ps[..k]) + SumLengths(ps[k..])
    decreases |ps|
  {
    if k == 0 {
      assert ps[0..] == ps && ps[..0] == [];
    } else {
      SumSplit(ps[1..], k - 1);
      assert ps[..k][1..] == ps[1..][..k - 1] && ps[1..][k - 1..] == ps[k..];
    }
  }

  lemma SumWithout(ps: seq<Point>, i: nat)
    requires i < |ps|
    ensures SumLengths(ps) == ps[i].length + SumLengths(ps[..i] + ps[i + 1..])
  {
    var rest := ps[..i] + ps[i + 1..];
    SumSplit(ps, i);
    SumSplit(rest, i);
    assert rest[..i] == ps[..i] && rest[i..] == ps[i + 1..] && ps[i..][1..] == ps[i + 1..];
  }

  lemma {:induction false} SumPermuted(ps: seq<Point>, qs: seq<Point>)
    requires multiset(ps) == multiset(qs)
    ensures SumLengths(ps) == SumLengths(qs)
    decreases |ps|
  {
    if ps == [] {
      NoneLeft(ps, qs);
    } else {
      var i := Find(ps, qs);
      SumPermuted(ps[1..], qs[..i] + qs[i + 1..]);
      SumWithout(qs, i);
    }
  }

  /** Where a point of a run starts, in uint16 addresses. */
  lemma {:induction false} AddressAt(ps: seq<Point>, k: nat)
    requires WrapChain(ps) && k < |ps|
    ensures ps[k].address == Wrap16(ps[0].address + SumLengths(ps[..k]))
  {
    hide Wrap16, SumLengths;
    if k == 0 {
      StartsAt(ps);
    } else {
      AddressAt(ps, k - 1);
      assert ps[..k] == ps[..k - 1] + [ps[k - 1]];
      SumAppend(ps[..k - 1], ps[k - 1]);
      WrapAgain(ps[0].address + SumLengths(ps[..k - 1]), ps[k - 1].length);
    }
  }

  lemma StartsAt(ps: seq<Point>)
    requires ps != []
    ensures ps[0].address == Wrap16(ps[0].address + SumLengths(ps[..0]))
  {
  }

  /** A point of a run of less than a table that is not below its start has not wrapped. */
  lemma NotWrapped(ps: seq<Point>, k: nat)
    requires WrapChain(ps) && SumLengths(ps) <= 0xFFFF && k < |ps| && ps[0].address <= ps[k].address
    ensures ps[k].address == ps[0].address + SumLengths(ps[..k])
  {
    hide SumLengths;
    AddressAt(ps, k);
    SumSplit(ps, k);
  }

  lemma PrefixSums(ps: seq<Point>, i: nat, j: nat)
    requires i <= j <= |ps|
    ensures SumLengths(ps[..i]) <= SumLengths(ps[..j])
  {
    hide SumLengths;
    SumSplit(ps[..j], i);
    assert ps[..j][..i] == ps[..i];
  }

  /** A run of less than a table that never goes below its start is sorted. */
  lemma SortedUnlessBelow(ps: seq<Point>)
    requires ps != [] && WrapChain(ps) && SumLengths(ps) <= 0xFFFF
    requires forall k :: 0 <= k < |ps| ==> ps[0].address <= ps[k].address
    ensures Sorted(ps)
  {
    hide SumLengths, WrapChain;
    forall i, j | 0 <= i < j < |ps| ensures ps[i].address <= ps[j].address {
      NotWrapped(ps, i);
      NotWrapped(ps, j);
      PrefixSums(ps, i, j);
    }
  }

  /** A group as long as its points that the sort reorders has a point in front that is not its start. */
  lemma MovedFront(points: seq<Point>, i: nat)
    requires i < |Greedy(points)| && !Unbroken(Grouped(points)[i])
    requires Grouped(points)[i].totalLength >= SumLengths(Grouped(points)[i].points)
    ensures Grouped(points)[i].points != [] && Grouped(points)[i].points[0].address < Grouped(points)[i].startAddress
  {
    hide Greedy, SortedPoints, SumLengths, Sorted;
    var g, g' := Greedy(points)[i], Grouped(points)[i];
    GreedyShaped(points);
    ExchangeSorts(g.points);
    SumPermuted(g.points, g'.points);
    assert g.totalLength == SumLengths(g.points);
    assert WrapChain(g.points) && !Sorted(g.points);
    if forall k :: 0 <= k < |g.points| ==> g.points[0].address <= g.points[k].address {
      SortedUnlessBelow(g.points);
    }
    var k :| 0 <= k < |g.points| && g.points[k].address < g.points[0].address;
    ArrangedMembers(g);
    assert g.points[k] in g'.points;
    SortedFront(g'.points, g.points[k]);
  }

  lemma SortedFront(ps: seq<Point>, p: Point)
    requires Sorted(ps) && p in ps
    ensures ps != [] && ps[0].address <= p.address
  {
    var m :| 0 <= m < |ps| && ps[m] == p;
    assert 0 < m ==> ps[0].address <= ps[m].address;
  }

  lemma NotOwn(image: Image, g: BatchGroup, regs: seq<uint16>)
    requires g.points != [] && g.points[0].length > 0 && image == OneAt(BatchBank(g.registerType), g.startAddress)
    requires |regs| == g.totalLength
    requires g.totalLength > 0 ==> regs[0] == Table(image, BatchBank(g.registerType))[g.startAddress]
    requires g.points[0].address != g.startAddress
    ensures !GetsOwn(image, BatchBank(g.registerType), g.points, regs)
  {
    hide OneAt, Table;
    var p := g.points[0];
    if p.length <= |regs| {
      assert regs[..p.length][0] == 1;
      assert WrappedSlice(image, BatchBank(g.registerType), p.address, p.length)[0] == 0;
    }
  }

  ghost predicate Misread(g: BatchGroup, image: Image, es: seq<Exchange>)
  {
    && AllHonest(image, es) && ReadGroup(g, es).Returns? && ReadGroup(g, es).value.Some?
    && !GetsOwn(image, BatchBank(g.registerType), g.points, ReadGroup(g, es).value.value)
  }

  /** The honest answers that give a point registers of another, or none. */
  lemma MisreadMade(points: seq<Point>, i: nat) returns (image: Image, es: seq<Exchange>)
    requires AllPositive(points) && i < |Grouped(points)| && !ReadsOwn(Grouped(points)[i])
    ensures Misread(Grouped(points)[i], image, es)
  {
    hide Grouped, SumLengths, Answerable, Unbroken, ReadGroup, OneAt, GetsOwn, Table;
    var g := Grouped(points)[i];
    GroupedOneType(points, i);
    GroupedFrom(points, i, 0);
    image := OneAt(BatchBank(g.registerType), g.startAddress);
    es := MainAnswered(image, g);
    var regs := ReadGroup(g, es).value.value;
    if g.totalLength < SumLengths(g.points) {
      if GetsOwn(image, BatchBank(g.registerType), g.points, regs) {
        OwnLength(image, BatchBank(g.registerType), g.points, regs);
      }
    } else {
      MovedFront(points, i);
      NotOwn(image, g, regs);
    }
  }

  ghost predicate SomeMisread(points: seq<Point>)
  {
    exists i, image, es :: 0 <= i < |Grouped(points)| && Misread(Grouped(points)[i], image, es)
  }

  /** Every point is given its own registers on every honest device exactly when every group is a run in
      uint16 addresses with its true total, or cannot be answered as one. */
  lemma ReadsRightExactly(points: seq<Point>)
    requires AllPositive(points)
    ensures ReadsRight(points) <==> !SomeMisread(points)
  {
    hide Grouped, ReadsOwn, ReadGroup, GetsOwn, AllHonest;
    if ReadsRight(points) {
      forall i, image, es | 0 <= i < |Grouped(points)| && AllHonest(image, es) &&
                            ReadGroup(Grouped(points)[i], es).Returns? && ReadGroup(Grouped(points)[i], es).value.Some?
        ensures !Misread(Grouped(points)[i], image, es)
      {
        GroupGetsOwn(Grouped(points)[i], es, image);
      }
    } else {
      var i :| 0 <= i < |Grouped(points)| && !ReadsOwn(Grouped(points)[i]);
      var image, es := MisreadMade(points, i);
    }
  }

  lemma NoneIndexed(points: seq<Point>, i: nat)
    requires AllPositive(points) && i < |Grouped(points)|
    ensures MayPanic(Grouped(points)[i]) <==> TooShort(Grouped(points)[i])
  {
    hide Grouped, TooShort;
    forall k | 0 <= k < |Grouped(points)[i].points| ensures !IndexesNothing(Grouped(points)[i].points[k]) {
      GroupedFrom(points, i, k);
    }
  }

  /** Both conditions, for every configuration that validation accepts. */
  lemma ValidatedExactly(settings: Settings, base: Image, points: seq<Point>)
    requires Acceptable(points)
    ensures ReadsRight(points) <==> !SomeMisread(points)
    ensures CanPanic(settings, Grouped(points)) <==>
      exists i :: 0 <= i < |Grouped(points)| && TooShort(Grouped(points)[i])
  {
    hide Grouped, ReadsRight, SomeMisread, CanPanic, MayPanic, TooShort;
    assert AllPositive(points);
    ReadsRightExactly(points);
    PanicsExactly(settings, base, Grouped(points));
    forall i | 0 <= i < |Grouped(points)|
      ensures MayPanic(Grouped(points)[i]) <==> TooShort(Grouped(points)[i])
    {
      NoneIndexed(points, i);
    }
  }

  // ---- Collections that go wrong -----------------------------------------------------------------

  lemma SortTwo(p: Point, q: Point)
    ensures SortedPoints([p, q]) == if p.address > q.address then [q, p] else [p, q]
  {
    var once := Exchanged([p, q], 0, 1);
    assert ExchangeFrom([p, q], 0, 1) == ExchangeFrom(once, 0, 2) == ExchangeFrom(once, 1, 2) == once;
    assert [p, q][0 := q][1 := p] == [q, p];
  }

  /** Two points, the second taken for the successor of the first. */
  lemma GroupedPair(p: Point, q: Point)
    requires p.registerType == q.registerType && Wrap16(End(p)) == q.address && q.address < p.address
    ensures Grouped([p, q]) == [BatchGroup(p.registerType, p.address, [q, p], Wrap16(p.length + q.length))]
  {
    hide Greedy, SortedPoints;
    GreedyOfTwo(p, q);
    SortTwo(p, q);
    assert [p] + [q] == [p, q];
  }

  /** Validation accepts a configuration on which one answered request makes the collection reach past
      the end of the answer. */
  lemma UnsoundPanics(settings: Settings, image: Image, p: Point, q: Point) returns (es: seq<Exchange>)
    requires p.name != "" && q.name != "" && p.name != q.name && !ScaleIsZero(p.scale) && !ScaleIsZero(q.scale)
    requires p.registerType.HoldingRegister? && q.registerType.HoldingRegister?
    requires p.address == 0xFFFF && p.length == 0xFFFF && q.address == 0xFFFE && q.length == 2
    ensures Acceptable([p, q]) && |es| == 1 && es[0].reply.Answer? && Panics(settings, Grouped([p, q]), image, es)
  {
    hide Grouped, Parsed, Table;
    GroupedPair(p, q);
    var g := Grouped([p, q])[0];
    es := [Exchange(BulkPlan(g)[0], Answer(Slice(image, HoldingRegisters, 0xFFFF, 1)))];
    assert es[1..] == [] && BulkPlan(g)[1..] == [];
    assert RunPlan([], []) == Returns(Some([]), []);
  }

  /** And one, whose every register exists, on which a collection reports two GOOD values that belong to
      other registers: the group is read from 65413 over the end of the table and sorted, and the point
      at 0 is cut first. */
  lemma MixesUp(settings: Settings, image: Image, p: Point, q: Point) returns (es: seq<Exchange>)
    requires p.name != "" && q.name != "" && p.name != q.name
    requires p.registerType.HoldingRegister? && q.registerType.HoldingRegister?
    requires p.dataType.UInt16? && q.dataType.UInt16? && p.scale == SCALE_ONE && q.scale == SCALE_ONE
    requires p.address == 65413 && p.length == 123 && q.address == 0 && q.length == 1
    ensures Acceptable([p, q]) && AllSound([p, q]) && AllHonest(image, es)
    ensures CollectGroups(settings, Grouped([p, q]), es) ==
      Returns(Some([GoodValue(q, U16(image.holdings[65413])), GoodValue(p, U16(image.holdings[65414]))]), [])
  {
    hide Grouped, CollectGroups, DecodeAs;
    GroupedPair(p, q);
    var g := Grouped([p, q])[0];
    assert [p, q][0] == p && [p, q][1] == q;
    SplitAtTheEnd();
    var a, b := Slice(image, HoldingRegisters, 65413, 123), Slice(image, HoldingRegisters, 0, 1);
    es := [Exchange(Read(HoldingRegisters, 65413, 123), Answer(a)), Exchange(Read(HoldingRegisters, 0, 1), Answer(b))];
    TwoAnswers(MainPlan(g), es);
    CutMixed(settings, p, q, a + b);
    OneGroup(settings, g, es);
  }

  lemma SplitAtTheEnd()
    ensures SplitPlan(HoldingRegisters, 65413, 124, 123) ==
            [Read(HoldingRegisters, 65413, 123), Read(HoldingRegisters, 0, 1)]
  {
    assert SplitPlan(HoldingRegisters, 0, 1, 123) ==
           [Read(HoldingRegisters, 0, 1)] + SplitPlan(HoldingRegisters, 1, 0, 123);
  }

  lemma TwoAnswers(plan: seq<Request>, es: seq<Exchange>)
    requires |plan| == |es| == 2 && AllAnswered(es) && es[0].request == plan[0] && es[1].request == plan[1]
    ensures RunPlan(plan, es) == Returns(Some(es[0].reply.words + es[1].reply.words), [])
  {
    assert es[1..][1..] == [] && plan[1..][1..] == [];
    assert RunPlan(plan[1..], es[1..]) == Returns(Some(es[1].reply.words), []) by {
      assert RunPlan([], []) == Returns(Some([]), []);
      assert es[1].reply.words + [] == es[1].reply.words;
    }
  }

  lemma CutMixed(settings: Settings, p: Point, q: Point, regs: seq<uint16>)
    requires p.dataType.UInt16? && q.dataType.UInt16? && p.scale == SCALE_ONE && q.scale == SCALE_ONE
    requires p.length == 123 && q.length == 1 && |regs| == 124
    ensures GroupValues(settings, [q, p], regs) == Some([GoodValue(q, U16(regs[0])), GoodValue(p, U16(regs[1]))])
  {
    hide GroupValues, Parsed;
    FirstCut(settings, q, [p], regs);
    FirstCut(settings, p, [], regs[1..]);
    assert [q, p] == [q] + [p] && [p] == [p] + [];
    NothingCut(settings, regs[1..][123..]);
    var second := [GoodValue(p, U16(regs[1]))];
    assert second + [] == second;
    assert GroupValues(settings, [p], regs[1..]) == Some(second);
    assert [GoodValue(q, U16(regs[0]))] + second == [GoodValue(q, U16(regs[0])), GoodValue(p, U16(regs[1]))];
  }

  lemma NothingCut(settings: Settings, regs: seq<uint16>)
    ensures GroupValues(settings, [], regs) == Some([])
  {
  }

  lemma FirstCut(settings: Settings, p: Point, more: seq<Point>, regs: seq<uint16>)
    requires p.dataType.UInt16? && p.scale == SCALE_ONE && 0 < p.length <= |regs|
    ensures GroupValues(settings, [p] + more, regs) ==
      match GroupValues(settings, more, regs[p.length..]) {
        case None => None
        case Some(vs) => Some([GoodValue(p, U16(regs[0]))] + vs)
      }
  {
    assert ([p] + more)[1..] == more && regs[..p.length][0] == regs[0];
  }

  lemma OneGroup(settings: Settings, g: BatchGroup, es: seq<Exchange>)
    requires ReadGroup(g, es).Returns? && ReportGroup(settings, g, ReadGroup(g, es).value).Some?
    ensures CollectGroups(settings, [g], es) ==
            Returns(ReportGroup(settings, g, ReadGroup(g, es).value), ReadGroup(g, es).rest)
  {
    hide ReadGroup, ReportGroup;
    var vs := ReportGroup(settings, g, ReadGroup(g, es).value).value;
    assert [g][1..] == [] && vs + [] == vs;
  }
}
