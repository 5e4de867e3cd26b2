/** pkg/modbus/collector.go: the collector of one device. Its methods are proved against the functions
    of modules Reading and SinglePoints: what a method adds to the client's log is a run of them. */
module Collectors {
  import opened Words
  import opened ByteOrders
  import opened Points
  import opened Converter
  import opened Devices
  import opened Decoding
  import opened Grouping
  import opened Reading
  import opened SinglePoints
  import opened Clients
  import opened Connections

  class Collector {
    const client: Client
    const settings: Settings
    const maxRetries: nat
    var connected: bool
    var retryCount: nat
    ghost var markDowns: nat

    /** Every opened handle is closed, lost with a mark-down, or the one in use. */
    ghost predicate Valid()
      reads this, client
    {
      Opens(client.log) == Closes(client.log) + markDowns + (if connected then 1 else 0)
    }

    /** Not connected yet, and then one attempt to connect, which may fail. */
    constructor (client: Client, settings: Settings)
      requires client.log == []
      modifies client`log
      ensures this.client == client && this.settings == settings && maxRetries == 3
      ensures Valid() && ConnectTraffic(client.log, connected) && retryCount == (if connected then 0 else 1)
    {
      this.client := client;
      this.settings := settings;
      maxRetries := 3;
      connected := false;
      retryCount := 0;
      markDowns := 0;
      new;
      var _ := Connect();
      assert Since([], client.log) == client.log;
    }

    // ---- Connection ------------------------------------------------------------------------------

    method TestConnection() returns (ok: bool)
      modifies client`log
      ensures |client.log| == |old(client.log)| + 1
      ensures client.log ==
              old(client.log) + [Exchange(Read(HoldingRegisters, 0, 1), client.log[|old(client.log)|].reply)]
      ensures ok <==> client.log[|old(client.log)|].reply.Answer?
      ensures Honest(client.image, client.log[|old(client.log)|])
    {
      var r := client.ReadRegisters(HoldingRegisters, 0, 1);
      ok := r.Some?;
    }

    method Connect() returns (ok: bool)
      requires Valid()
      modifies `connected, `retryCount, client`log
      ensures Valid() && old(client.log) <= client.log
      ensures ConnectEffect(old(connected), old(retryCount), Since(old(client.log), client.log), ok, connected,
                            retryCount)
    {
      if connected {
        return true;
      }
      var established := client.Open();
      LogStep(old(client.log), client.log[|client.log| - 1]);
      if !established {
        retryCount := retryCount + 1;
        return false;
      }
      ghost var log := client.log;
      var alive := TestConnection();
      LogStep(log, client.log[|log|]);
      if !alive {
        log := client.log;
        var _ := client.Close();
        LogStep(log, client.log[|log|]);
        retryCount := retryCount + 1;
        return false;
      }
      connected := true;
      retryCount := 0;
      return true;
    }

    method Disconnect()
      requires Valid()
      modifies `connected, client`log
      ensures Valid() && old(client.log) <= client.log
      ensures DisconnectEffect(old(connected), Since(old(client.log), client.log), connected)
    {
      if !connected {
        return;
      }
      var _ := client.Close();
      LogStep(old(client.log), client.log[|old(client.log)|]);
      connected := false;
    }

    method Reconnect() returns (ok: bool)
      requires Valid()
      modifies `connected, `retryCount, client`log
      ensures Valid() && (ok <==> connected)
      ensures retryCount == if ok then 0 else old(retryCount) + 1
      ensures old(client.log) <= client.log
      ensures var es := Since(old(client.log), client.log);
        if old(connected) then es != [] && es[0].request.Close? && ConnectTraffic(es[1..], ok)
        else ConnectTraffic(es, ok)
    {
      hide Opens, Closes, ConnectTraffic;
      Disconnect();
      ghost var log := client.log;
      ok := Connect();
      assert old(connected) ==> Since(old(client.log), client.log)[1..] == Since(log, client.log);
    }

    /** At most maxRetries attempts; succeeds exactly when it leaves the collector connected, and a
        failure raises the retry count by exactly maxRetries. */
    method EnsureConnected() returns (ok: bool)
      requires Valid()
      modifies `connected, `retryCount, `markDowns, client`log
      ensures Valid() && old(client.log) <= client.log && markDowns >= old(markDowns)
      ensures EnsureEffect(maxRetries, old(connected), old(retryCount), Since(old(client.log), client.log),
                           ok, connected, retryCount, markDowns - old(markDowns))
      ensures OpenAttempts(client.log) <= OpenAttempts(old(client.log)) + maxRetries
      ensures !ok ==> OpenAttempts(client.log) == OpenAttempts(old(client.log)) + maxRetries
    {
      hide Opens, Closes, OpenAttempts, ConnectTraffic, Honest, FailedAttempts;
      if connected {
        var alive := TestConnection();
        LogStep(old(client.log), client.log[|old(client.log)|]);
        if alive {
          return true;
        }
        connected := false;
        markDowns := markDowns + 1;
      }
      ok := false;
      ghost var tested, downs := client.log, markDowns;
      ghost var test := Since(old(client.log), tested);
      ghost var es: seq<Exchange> := [];
      var i := 0;
      NoAttempts();
      while i < maxRetries
        invariant 0 <= i <= maxRetries && !ok
        invariant Valid() && !connected
        invariant client.log == tested + es && FailedAttempts(i, es) && markDowns == downs
        invariant retryCount == old(retryCount) + i
        invariant OpenAttempts(client.log) == OpenAttempts(old(client.log)) + i
      {
        ghost var log := client.log;
        ok := Connect();
        ghost var more := Since(log, client.log);
        AttemptsOfConnect(log, more, ok);
        assert client.log == log + more;
        NextAttempt(i, es, more, ok, maxRetries);
        es := es + more;
        if ok {
          assert Since(old(client.log), client.log) == test + es;
          assert (test + es)[|test|..] == es;
          return;
        }
        i := i + 1;
      }
      assert Since(old(client.log), client.log) == test + es;
      assert (test + es)[|test|..] == es;
    }

    lemma NoAttempts()
      ensures FailedAttempts(0, [])
    {
    }

    // ---- Reading a group -------------------------------------------------------------------------

    /** Since the old log, the client only read, honestly. */
    twostate predicate ReadOnlySince(es: seq<Exchange>)
      reads client
    {
      client.log == old(client.log) + es && HonestReads(client.image, es)
    }

    /** readCoilBatchSplit and readDiscreteInputBatchSplit, which differ in the request only. */
    method ReadBitBatchSplit(bank: Bank, group: BatchGroup, maxRead: uint16)
      returns (r: Option<seq<uint16>>, ghost es: seq<Exchange>)
      requires (bank.Coils? || bank.DiscreteInputs?) && maxRead > 0
      modifies client`log
      ensures ReadOnlySince(es)
      ensures RunPlan(SplitPlan(bank, group.startAddress, group.totalLength, maxRead), es) == Returns(r, [])
    {
      hide RunPlan, Answers, Honest, Underway, SplitPlan;
      ghost var plan := SplitPlan(bank, group.startAddress, group.totalLength, maxRead);
      var allRegs: seq<uint16> := [];
      var startAddress: uint16 := group.startAddress;
      var remainingLength: uint16 := group.totalLength;
      es := [];
      PlanBegins(plan);
      while remainingLength > 0
        invariant client.log == old(client.log) + es && HonestReads(client.image, es)
        invariant Underway(plan, es) && Answers(es) == allRegs
        invariant plan[|es|..] == SplitPlan(bank, startAddress, remainingLength, maxRead)
        decreases remainingLength
      {
        var batchLength: uint16 := remainingLength;
        if batchLength > maxRead {
          batchLength := maxRead;
        }
        var results := client.ReadBits(bank, startAddress, batchLength);
        ghost var e := client.log[|client.log| - 1];
        SplitStep(plan, es, bank, startAddress, remainingLength, maxRead, e);
        es := es + [e];
        if results.None? {
          return None, es;
        }
        var batchRegs := WordsOfBits(results.value);
        allRegs := allRegs + batchRegs;
        startAddress := Wrap16(startAddress as int + batchLength as int);
        remainingLength := remainingLength - batchLength;
      }
      SplitDone(plan, es, bank, startAddress, maxRead);
      r := Some(allRegs);
    }

    lemma PlanBegins(plan: seq<Request>)
      ensures Underway(plan, []) && Answers([]) == [] && plan[0..] == plan
    {
    }

    /** One round of a split loop. */
    lemma SplitStep(plan: seq<Request>, es: seq<Exchange>, bank: Bank, start: uint16, remaining: uint16, max: uint16,
                    e: Exchange)
      requires max > 0 && remaining > 0 && Underway(plan, es) && plan[|es|..] == SplitPlan(bank, start, remaining, max)
      requires e.request == Read(bank, start, if remaining > max then max else remaining)
      ensures e.reply.Failed? ==> RunPlan(plan, es + [e]) == Returns(None, [])
      ensures e.reply.Answer? ==>
        var batch := e.request.count;
        && Underway(plan, es + [e]) && Answers(es + [e]) == Answers(es) + e.reply.words
        && plan[|es + [e]|..] == SplitPlan(bank, Wrap16(start + batch), remaining - batch, max)
    {
      hide RunPlan, Answers, Underway;
      assert plan[|es|..][0] == plan[|es|] == e.request;
      UnderwayStep(plan, es, e);
      assert plan[|es|..][1..] == plan[|es + [e]|..];
    }

    lemma SplitDone(plan: seq<Request>, es: seq<Exchange>, bank: Bank, start: uint16, max: uint16)
      requires max > 0 && Underway(plan, es) && plan[|es|..] == SplitPlan(bank, start, 0, max)
      ensures RunPlan(plan, es) == Returns(Some(Answers(es)), [])
    {
      UnderwayDone(plan, es);
    }

    /** The conversion loop from bits to words. */
    method WordsOfBits(results: seq<bool>) returns (regs: seq<uint16>)
      ensures regs == AsWords(results)
    {
      regs := seq(|results|, _ => 0);
      var i := 0;
      while i < |results|
        invariant 0 <= i <= |results| == |regs|
        invariant forall k :: 0 <= k < i ==> regs[k] == BitWord(results[k])
      {
        regs := regs[i := if results[i] then 1 else 0];
        i := i + 1;
      }
    }

    /** readInputRegisterBatchSplit and readHoldingRegisterBatchSplit. */
    method ReadRegisterBatchSplit(bank: Bank, group: BatchGroup, maxRead: uint16)
      returns (r: Option<seq<uint16>>, ghost es: seq<Exchange>)
      requires maxRead > 0
      modifies client`log
      ensures ReadOnlySince(es)
      ensures RunPlan(SplitPlan(bank, group.startAddress, group.totalLength, maxRead), es) == Returns(r, [])
    {
      hide RunPlan, Answers, Honest, Underway, SplitPlan;
      ghost var plan := SplitPlan(bank, group.startAddress, group.totalLength, maxRead);
      var allRegs: seq<uint16> := [];
      var startAddress: uint16 := group.startAddress;
      var remainingLength: uint16 := group.totalLength;
      es := [];
      PlanBegins(plan);
      while remainingLength > 0
        invariant client.log == old(client.log) + es && HonestReads(client.image, es)
        invariant Underway(plan, es) && Answers(es) == allRegs
        invariant plan[|es|..] == SplitPlan(bank, startAddress, remainingLength, maxRead)
        decreases remainingLength
      {
        var batchLength: uint16 := remainingLength;
        if batchLength > maxRead {
          batchLength := maxRead;
        }
        var batchRegs := client.ReadRegisters(bank, startAddress, batchLength);
        ghost var e := client.log[|client.log| - 1];
        SplitStep(plan, es, bank, startAddress, remainingLength, maxRead, e);
        es := es + [e];
        if batchRegs.None? {
          return None, es;
        }
        allRegs := allRegs + batchRegs.value;
        startAddress := Wrap16(startAddress as int + batchLength as int);
        remainingLength := remainingLength - batchLength;
      }
      SplitDone(plan, es, bank, startAddress, maxRead);
      r := Some(allRegs);
    }

    /** One register of the fallback: i of point n's registers are read. */
    lemma SingleStep(plan: seq<Request>, es: seq<Exchange>, bank: Bank, points: seq<Point>, n: nat, i: nat, e: Exchange)
      requires n < |points| && i < points[n].length && Underway(plan, es)
      requires plan[|es|..] ==
               Singles(bank, points[n].address, points[n].length)[i..] + IndividualPlan(bank, points[n + 1..])
      requires e.request == Read(bank, Wrap16(points[n].address + i), 1)
      ensures e.reply.Failed? ==> RunPlan(plan, es + [e]) == Returns(None, [])
      ensures e.reply.Answer? ==>
        && Underway(plan, es + [e]) && Answers(es + [e]) == Answers(es) + e.reply.words
        && plan[|es + [e]|..] ==
           Singles(bank, points[n].address, points[n].length)[i + 1..] + IndividualPlan(bank, points[n + 1..])
    {
      hide RunPlan, Answers, Underway, IndividualPlan;
      var singles := Singles(bank, points[n].address, points[n].length);
      assert plan[|es|..][0] == singles[i];
      assert plan[|es|] == e.request;
      UnderwayStep(plan, es, e);
      assert plan[|es + [e]|..] == plan[|es|..][1..];
    }

    lemma NextPoint(bank: Bank, points: seq<Point>, n: nat)
      requires n < |points|
      ensures var p := points[n];
        IndividualPlan(bank, points[n..]) ==
        Singles(bank, p.address, p.length)[0..] + IndividualPlan(bank, points[n + 1..])
      ensures Singles(bank, points[n].address, points[n].length)[points[n].length..] == []
    {
      assert points[n..][1..] == points[n + 1..];
    }

    method ReadBatchIndividual(group: BatchGroup) returns (r: Option<seq<uint16>>, ghost es: seq<Exchange>)
      modifies client`log
      ensures ReadOnlySince(es)
      ensures Returns(r, []) == match RegisterBank(group.registerType)
                                case None => Returns(None, es)
                                case Some(bank) => RunPlan(IndividualPlan(bank, group.points), es)
    {
      hide RunPlan, Answers, Honest, Underway, IndividualPlan, Singles;
      es := [];
      var regType := RegisterBank(group.registerType);
      if regType.None? {
        return None, es;
      }
      var bank := regType.value;
      ghost var plan := IndividualPlan(bank, group.points);
      var regs: seq<uint16> := [];
      var n := 0;
      PlanBegins(plan);
      assert group.points[0..] == group.points;
      while n < |group.points|
        invariant 0 <= n <= |group.points|
        invariant client.log == old(client.log) + es && HonestReads(client.image, es)
        invariant Underway(plan, es) && Answers(es) == regs
        invariant plan[|es|..] == IndividualPlan(bank, group.points[n..])
      {
        var point := group.points[n];
        NextPoint(bank, group.points, n);
        var i: uint16 := 0;
        while i < point.length
          invariant 0 <= i <= point.length
          invariant client.log == old(client.log) + es && HonestReads(client.image, es)
          invariant Underway(plan, es) && Answers(es) == regs
          invariant plan[|es|..] ==
                    Singles(bank, point.address, point.length)[i..] + IndividualPlan(bank, group.points[n + 1..])
        {
          var value := client.ReadRegisters(bank, Wrap16(point.address as int + i as int), 1);
          ghost var e := client.log[|client.log| - 1];
          SingleStep(plan, es, bank, group.points, n, i, e);
          es := es + [e];
          if value.None? {
            return None, es;
          }
          regs := regs + value.value;
          i := i + 1;
        }
        n := n + 1;
      }
      IndividualDone(plan, es, bank, group.points[n..]);
      r := Some(regs);
    }

    lemma IndividualDone(plan: seq<Request>, es: seq<Exchange>, bank: Bank, rest: seq<Point>)
      requires Underway(plan, es) && rest == [] && plan[|es|..] == IndividualPlan(bank, rest)
      ensures RunPlan(plan, es) == Returns(Some(Answers(es)), [])
    {
      UnderwayDone(plan, es);
    }

    lemma BulkRun(g: BatchGroup, e: Exchange, more: seq<Exchange>)
      requires e.request == BulkPlan(g)[0]
      ensures e.reply.Answer? ==> RunPlan(BulkPlan(g), [e]) == Returns(Some(e.reply.words), [])
      ensures e.reply.Failed? ==> RunPlan(BulkPlan(g), [e] + more) == Returns(None, more)
    {
      assert ([e] + more)[1..] == more && [e][1..] == [] && BulkPlan(g)[1..] == [];
      if e.reply.Answer? {
        assert RunPlan([], [][..]) == Returns(Some([]), []);
        assert e.reply.words + [] == e.reply.words;
      }
    }

    /** readBatch and the four readers it dispatches to. */
    method ReadBatch(group: BatchGroup) returns (r: Option<seq<uint16>>, ghost es: seq<Exchange>)
      modifies client`log
      ensures ReadOnlySince(es)
      ensures ReadGroup(group, es) == Returns(r, [])
    {
      hide RunPlan, SplitPlan, IndividualPlan, Honest;
      var bank := BatchBank(group.registerType);
      if group.totalLength > Limit(bank) {
        if bank.Coils? || bank.DiscreteInputs? {
          r, es := ReadBitBatchSplit(bank, group, Limit(bank));
        } else {
          r, es := ReadRegisterBatchSplit(bank, group, Limit(bank));
        }
        return;
      }
      if bank.Coils? || bank.DiscreteInputs? {
        var results := client.ReadBits(bank, group.startAddress, group.totalLength);
        if results.Some? {
          var words := WordsOfBits(results.value);
          r := Some(words);
        } else {
          r := None;
        }
      } else {
        r := client.ReadRegisters(bank, group.startAddress, group.totalLength);
      }
      ghost var e := client.log[|client.log| - 1];
      es := [e];
      BulkRun(group, e, []);
      if r.None? {
        ghost var more;
        r, more := ReadBatchIndividual(group);
        BulkRun(group, e, more);
        es := es + more;
      }
    }

    // ---- Collecting ------------------------------------------------------------------------------

    /** The scaling switch of collectBatchGroup. */
    method Scaled(value: Value, scale: uint64) returns (scaled: Value)
      ensures scaled == ApplyScale(settings, value, scale)
    {
      scaled := value;
      if scale != SCALE_ONE {
        match value
        case B(_) =>
        case S(_) =>
        case _ => scaled := settings.scaler(value, scale);
      }
    }

    /** collectBatchGroup's parse of one point; None is the panic of an index. */
    method ReportPoint(point: Point, registers: seq<uint16>) returns (value: Option<PointValue>)
      requires |registers| == point.length
      ensures value == if IndexesNothing(point) then None else Some(Parsed(settings, point, registers))
    {
      var parsed := ParseRegistersForPoint(settings, point, registers);
      match parsed
      case IndexPanic => value := None;
      case ParseError => value := Some(BadValue(point));
      case Parses(v) =>
        var scaled := Scaled(v, point.scale);
        value := Some(GoodValue(point, scaled));
    }

    lemma ParseStep(points: seq<Point>, registers: seq<uint16>, n: nat, offset: nat)
      requires n < |points| && offset <= |registers| && !IndexesNothing(points[n])
      requires |registers| - offset >= points[n].length
      ensures offset + points[n].length <= |registers|
      ensures GroupValues(settings, points[n..], registers[offset..]) ==
        match GroupValues(settings, points[n + 1..], registers[offset + points[n].length..]) {
          case None => None
          case Some(vs) => Some([Parsed(settings, points[n], registers[offset..offset + points[n].length])] + vs)
        }
    {
      hide Parsed;
      assert points[n..][1..] == points[n + 1..];
      assert registers[offset..][points[n].length..] == registers[offset + points[n].length..];
      assert registers[offset..][..points[n].length] == registers[offset..offset + points[n].length];
    }

    /** All points of a group marked BAD, in order. */
    method AllBad(points: seq<Point>) returns (values: seq<PointValue>)
      ensures values == BadValues(points)
    {
      values := [];
      var n := 0;
      assert points[0..] == points;
      while n < |points|
        invariant 0 <= n <= |points|
        invariant BadValues(points) == values + BadValues(points[n..])
      {
        assert points[n..][1..] == points[n + 1..];
        values := values + [BadValue(points[n])];
        n := n + 1;
      }
    }

    lemma ParseStops(points: seq<Point>, registers: seq<uint16>, n: nat, offset: nat)
      requires n < |points| && offset <= |registers|
      requires |registers| - offset < points[n].length || IndexesNothing(points[n])
      ensures GroupValues(settings, points[n..], registers[offset..]) == None
    {
    }

    /** Slices the registers back into points; None is a slice or an index past the end. */
    method ParseGroup(group: BatchGroup, registers: seq<uint16>) returns (values: Option<seq<PointValue>>)
      ensures values == GroupValues(settings, group.points, registers)
    {
      hide GroupValues, Parsed;
      var done := [];
      var regOffset := 0;
      var n := 0;
      ghost var points := group.points;
      assert points[0..] == points && registers[0..] == registers;
      RejoinNothing(GroupValues(settings, points, registers));
      while n < |group.points|
        invariant 0 <= n <= |points| && 0 <= regOffset <= |registers|
        invariant Rejoined(GroupValues(settings, points[n..], registers[regOffset..]), done) ==
                  GroupValues(settings, points, registers)
      {
        var point := group.points[n];
        if regOffset + point.length as int > |registers| {
          ParseStops(points, registers, n, regOffset);
          return None;
        }
        var value := ReportPoint(point, registers[regOffset..regOffset + point.length as int]);
        if value.None? {
          ParseStops(points, registers, n, regOffset);
          return None;
        }
        ParseStep(points, registers, n, regOffset);
        ghost var rest := GroupValues(settings, points[n + 1..], registers[regOffset + point.length as int..]);
        assert rest.Some? ==> done + ([value.value] + rest.value) == (done + [value.value]) + rest.value;
        done := done + [value.value];
        regOffset := regOffset + point.length as int;
        n := n + 1;
      }
      ParsedAll(points[n..], registers[regOffset..]);
      assert done + [] == done;
      values := Some(done);
    }

    ghost function Rejoined(rest: Option<seq<PointValue>>, values: seq<PointValue>): Option<seq<PointValue>>
    {
      match rest
      case None => None
      case Some(vs) => Some(values + vs)
    }

    lemma RejoinNothing(vs: Option<seq<PointValue>>)
      ensures Rejoined(vs, []) == vs
    {
      if vs.Some? {
        assert [] + vs.value == vs.value;
      }
    }

    lemma ParsedAll(points: seq<Point>, registers: seq<uint16>)
      requires points == []
      ensures GroupValues(settings, points, registers) == Some([])
    {
    }

    method CollectBatchGroup(group: BatchGroup) returns (values: Option<seq<PointValue>>, ghost es: seq<Exchange>)
      modifies client`log
      ensures ReadOnlySince(es)
      ensures ReadGroup(group, es).Returns? && ReadGroup(group, es).rest == []
      ensures values == ReportGroup(settings, group, ReadGroup(group, es).value)
    {
      hide ReadGroup, GroupValues;
      var registers;
      registers, es := ReadBatch(group);
      if registers.None? {
        var bad := AllBad(group.points);
        values := Some(bad);
      } else {
        values := ParseGroup(group, registers.value);
      }
    }

    lemma CollectAppend(groups: seq<BatchGroup>, n: nat, es: seq<Exchange>, more: seq<Exchange>,
                        values: seq<PointValue>, vs: seq<PointValue>)
      requires n < |groups|
      requires CollectGroups(settings, groups[..n], es) == Returns(Some(values), [])
      requires ReadGroup(groups[n], more).Returns? && ReadGroup(groups[n], more).rest == []
      requires ReportGroup(settings, groups[n], ReadGroup(groups[n], more).value) == Some(vs)
      ensures CollectGroups(settings, groups[..n + 1], es + more) == Returns(Some(values + vs), [])
    {
      hide ReadGroup, ReportGroup;
      CollectThen(groups[..n], groups[n], es, more, values, vs);
      assert groups[..n] + [groups[n]] == groups[..n + 1];
    }

    lemma {:induction false} CollectThen(groups: seq<BatchGroup>, g: BatchGroup, es: seq<Exchange>,
                                         more: seq<Exchange>, values: seq<PointValue>, vs: seq<PointValue>)
      requires CollectGroups(settings, groups, es) == Returns(Some(values), [])
      requires ReadGroup(g, more).Returns? && ReadGroup(g, more).rest == []
      requires ReportGroup(settings, g, ReadGroup(g, more).value) == Some(vs)
      ensures CollectGroups(settings, groups + [g], es + more) == Returns(Some(values + vs), [])
      decreases |groups|
    {
      hide ReadGroup, ReportGroup;
      if groups == [] {
        assert es == [] && values == [];
        assert groups + [g] == [g] && es + more == more && values + vs == vs + [];
        assert CollectGroups(settings, [g][1..], []) == Returns(Some([]), []);
      } else {
        ReadGroupFrame(groups[0], es, more);
        assert (groups + [g])[1..] == groups[1..] + [g];
        var first := ReportGroup(settings, groups[0], ReadGroup(groups[0], es).value).value;
        var rest := ReadGroup(groups[0], es).rest;
        var tail := CollectGroups(settings, groups[1..], rest).value.value;
        CollectThen(groups[1..], g, rest, more, tail, vs);
        assert first + (tail + vs) == values + vs;
      }
    }

    lemma CollectPanics(groups: seq<BatchGroup>, n: nat, es: seq<Exchange>, more: seq<Exchange>,
                        values: seq<PointValue>)
      requires n < |groups|
      requires CollectGroups(settings, groups[..n], es) == Returns(Some(values), [])
      requires ReadGroup(groups[n], more).Returns? && ReadGroup(groups[n], more).rest == []
      requires ReportGroup(settings, groups[n], ReadGroup(groups[n], more).value) == None
      ensures CollectGroups(settings, groups, es + more) == Returns(None, [])
    {
      hide ReadGroup, ReportGroup, CollectGroups;
      PanicAfter(groups[..n], groups[n..], es, more, values);
      assert groups[..n] + groups[n..] == groups;
    }

    lemma {:induction false} PanicAfter(groups: seq<BatchGroup>, rest: seq<BatchGroup>, es: seq<Exchange>,
                                        more: seq<Exchange>, values: seq<PointValue>)
      requires CollectGroups(settings, groups, es) == Returns(Some(values), []) && rest != []
      requires ReadGroup(rest[0], more).Returns? && ReadGroup(rest[0], more).rest == []
      requires ReportGroup(settings, rest[0], ReadGroup(rest[0], more).value) == None
      ensures CollectGroups(settings, groups + rest, es + more) == Returns(None, [])
      decreases |groups|
    {
      hide ReadGroup, ReportGroup;
      if groups == [] {
        assert groups + rest == rest && es + more == more;
      } else {
        ReadGroupFrame(groups[0], es, more);
        assert (groups + rest)[1..] == groups[1..] + rest;
        var left := ReadGroup(groups[0], es).rest;
        PanicAfter(groups[1..], rest, left, more, CollectGroups(settings, groups[1..], left).value.value);
      }
    }

    /** The locked part of CollectPoints; None is a panic. */
    method CollectAll(points: seq<Point>) returns (values: Option<seq<PointValue>>, ghost es: seq<Exchange>)
      modifies client`log
      ensures ReadOnlySince(es)
      ensures CollectGroups(settings, Grouped(points), es) == Returns(values, [])
    {
      hide CollectGroups, Grouped, Greedy, ReadGroup, ReportGroup, Honest;
      var collected := [];
      es := [];
      var batchGroups := GroupPointsByRegisterType(points);
      var n := 0;
      CollectNone(batchGroups[..0]);
      while n < |batchGroups|
        invariant 0 <= n <= |batchGroups|
        invariant client.log == old(client.log) + es && HonestReads(client.image, es)
        invariant CollectGroups(settings, batchGroups[..n], es) == Returns(Some(collected), [])
      {
        var groupValues;
        ghost var more;
        groupValues, more := CollectBatchGroup(batchGroups[n]);
        if groupValues.None? {
          CollectPanics(batchGroups, n, es, more, collected);
          return None, es + more;
        }
        CollectAppend(batchGroups, n, es, more, collected, groupValues.value);
        collected, es := collected + groupValues.value, es + more;
        n := n + 1;
      }
      assert batchGroups[..n] == batchGroups;
      values := Some(collected);
    }

    lemma CollectNone(groups: seq<BatchGroup>)
      requires groups == []
      ensures CollectGroups(settings, groups, []) == Returns(Some([]), [])
    {
    }

    /** Without a connection every point is BAD; with one, the log shows a complete run of the
        collection, None being a panic. There is one value per point. For every group that reads its own
        registers the log shows whether it was served, and its points report their meaning in the device
        image or are all BAD. If all groups do, there is no panic. */
    method CollectPoints(points: seq<Point>)
      returns (values: Option<seq<PointValue>>, ghost reached: bool, ghost es: seq<Exchange>)
      requires Valid()
      modifies `connected, `retryCount, `markDowns, client`log
      ensures Valid() && (reached <==> connected)
      ensures !reached ==> values == Some(BadValues(points))
      ensures values.Some? ==>
        |values.value| == |points| && multiset(ValueNames(values.value)) == multiset(PointNames(points))
      ensures reached ==> exists from :: old(client.log) <= from && client.log == from + es
      ensures reached ==> HonestReads(client.image, es)
      ensures reached ==> CollectGroups(settings, Grouped(points), es) == Returns(values, [])
      ensures reached && values.Some? ==> Reports(settings, client.image, Grouped(points), es, values.value)
      ensures reached && ReadsRight(points) ==> values.Some?
    {
      hide Grouped, Reports, CollectGroups, Honest, Opens, Closes, ReadsRight, PointNames, ValueNames;
      es := [];
      var ok := EnsureConnected();
      reached := ok;
      if !ok {
        var bad := AllBad(points);
        values := Some(bad);
        BadNames(points);
        return;
      }
      ghost var from := client.log;
      values, es := CollectAll(points);
      DataKeepsHandles(from, es);
      if values.Some? {
        CollectNames(settings, Grouped(points), es);
        GroupedPartitions(points);
        SameNames(points, AllPoints(Grouped(points)), values.value);
        CollectReports(settings, Grouped(points), es, client.image);
      }
      if ReadsRight(points) {
        ReadsRightReturns(settings, points, es, client.image);
      }
    }

    lemma SameNames(points: seq<Point>, regrouped: seq<Point>, values: seq<PointValue>)
      requires multiset(regrouped) == multiset(points) && ValueNames(values) == PointNames(regrouped)
      ensures |values| == |points| && multiset(ValueNames(values)) == multiset(PointNames(points))
    {
      NamesPermuted(regrouped, points);
      assert |values| == |ValueNames(values)| == |regrouped|;
      assert |points| == |multiset(points)| == |multiset(regrouped)| == |regrouped|;
    }

    // ---- Single points ---------------------------------------------------------------------------

    /** readString's loop: one request per register. */
    method ReadSingles(bank: Bank, address: uint16, length: uint16)
      returns (r: Option<seq<uint16>>, ghost es: seq<Exchange>)
      modifies client`log
      ensures ReadOnlySince(es)
      ensures RunPlan(Singles(bank, address, length), es) == Returns(r, [])
    {
      hide RunPlan, Answers, Honest, Underway;
      ghost var plan := Singles(bank, address, length);
      var regs: seq<uint16> := [];
      var i: uint16 := 0;
      es := [];
      PlanBegins(plan);
      while i < length
        invariant 0 <= i <= length && |es| == i
        invariant client.log == old(client.log) + es && HonestReads(client.image, es)
        invariant Underway(plan, es) && Answers(es) == regs
      {
        var reg := client.ReadRegisters(bank, Wrap16(address as int + i as int), 1);
        ghost var e := client.log[|client.log| - 1];
        UnderwayStep(plan, es, e);
        es := es + [e];
        if reg.None? {
          return None, es;
        }
        regs := regs + reg.value;
        i := i + 1;
      }
      UnderwayDone(plan, es);
      r := Some(regs);
    }

    /** One request of a fixed size: readInt16 to readFloat64. */
    method ReadSome(bank: Bank, address: uint16, count: uint16)
      returns (r: Option<seq<uint16>>, ghost es: seq<Exchange>)
      modifies client`log
      ensures ReadOnlySince(es) && (r.Some? ==> |r.value| == count)
      ensures RunPlan([Read(bank, address, count)], es) == Returns(r, [])
    {
      hide Answers, Slice;
      r := client.ReadRegisters(bank, address, count);
      ghost var e := client.log[|client.log| - 1];
      es := [e];
      OneRequest(Read(bank, address, count), e);
    }

    lemma OneRequest(request: Request, e: Exchange)
      requires e.request == request
      ensures RunPlan([request], [e]) == Returns(if e.reply.Answer? then Some(e.reply.words) else None, [])
    {
      assert [request][1..] == [] && [e][1..] == [];
      if e.reply.Answer? {
        assert e.reply.words + [] == e.reply.words;
      }
    }

    /** collectSinglePoint: the device's byte order as configured, no scaling. */
    method CollectSinglePoint(point: Point) returns (r: Option<Value>, ghost es: seq<Exchange>)
      modifies client`log
      ensures ReadOnlySince(es)
      ensures ReadOne(settings, point, es) == Returns(r, [])
    {
      hide RunPlan, Singles, Decode, Wire;
      es := [];
      var bank := RegisterBank(point.registerType);
      if bank.None? || point.dataType.OtherType? {
        return None, es;
      }
      var regs: Option<seq<uint16>>;
      match point.dataType {
        case Int16 =>
          regs, es := ReadSome(bank.value, point.address, 1);
          if regs.None? { return None, es; }
          r := Some(I16(Signed16(regs.value[0])));
        case UInt16 =>
          regs, es := ReadSome(bank.value, point.address, 1);
          if regs.None? { return None, es; }
          r := Some(U16(regs.value[0]));
        case Bool =>
          regs, es := ReadSome(bank.value, point.address, 1);
          if regs.None? { return None, es; }
          r := Some(B(regs.value[0] != 0));
        case Int32 =>
          regs, es := ReadSome(bank.value, point.address, 2);
          if regs.None? { return None, es; }
          var bits := Word32FromRegisters(regs.value, settings.order);
          r := Some(I32(Signed32(bits)));
        case UInt32 =>
          regs, es := ReadSome(bank.value, point.address, 2);
          if regs.None? { return None, es; }
          var bits := Word32FromRegisters(regs.value, settings.order);
          r := Some(U32(bits));
        case Float32 =>
          regs, es := ReadSome(bank.value, point.address, 2);
          if regs.None? { return None, es; }
          var bits := Word32FromRegisters(regs.value, settings.order);
          r := Some(F32(bits));
        case Float64 =>
          regs, es := ReadSome(bank.value, point.address, 4);
          if regs.None? { return None, es; }
          var bits := Float64FromRegisters(regs.value, settings.order);
          r := Some(F64(bits));
        case Text =>
          regs, es := ReadSingles(bank.value, point.address, point.length);
          if regs.None? { return None, es; }
          var bytes := RegisterBytes(regs.value);
          var text := TrimAtZero(bytes);
          r := Some(S(text));
        case OtherType(_) => return None, es;
      }
    }

    /** None is the error result. A returned value is the point's meaning to the single-point readers,
        in the image of the device. */
    method ReadSinglePoint(point: Point) returns (r: Option<PointValue>, ghost reached: bool, ghost es: seq<Exchange>)
      requires Valid()
      modifies `connected, `retryCount, `markDowns, client`log
      ensures Valid() && (reached <==> connected) && (!reached ==> r.None?)
      ensures reached ==> exists from :: old(client.log) <= from && client.log == from + es
      ensures reached ==> ReadOne(settings, point, es) == Returns(if r.Some? then r.value.value else None, [])
      ensures r.Some? ==> r.value.value.Some? && r.value == GoodValue(point, r.value.value.value)
      ensures reached ==>
        (r == if SinglePlan(point).Some? && AllAnswered(es) && SingleMeaning(settings, client.image, point).Some?
              then Some(GoodValue(point, SingleMeaning(settings, client.image, point).value))
              else None)
    {
      hide ReadOne, SingleMeaning, Opens, Closes, SinglePlan;
      es := [];
      var ok := EnsureConnected();
      reached := ok;
      if !ok {
        return None, reached, es;
      }
      ghost var from := client.log;
      var value;
      value, es := CollectSinglePoint(point);
      DataKeepsHandles(from, es);
      ghost var k := ReadOneReads(settings, point, es, client.image);
      assert k == |es| && es[..k] == es;
      if value.None? {
        return None, reached, es;
      }
      r := Some(GoodValue(point, value.value));
    }

    /** writeCoil's type switch: true and every number other than zero switch the coil on. */
    method CoilValue(value: GoValue) returns (on: Option<bool>)
      ensures on == CoilState(settings, value)
      ensures value.Boolean? ==> on == Some(value.b)
      ensures value.Integer? ==> on == Some(value.n != 0)
      ensures value.Double? ==> on == Some(value.bits64 % 0x8000_0000_0000_0000 != 0)
      ensures on.None? <==> value.Unsupported?
    {
      CoilStateMeans(settings, value);
      match value
      case Boolean(b) => on := Some(b);
      case Integer(kind, _) =>
        if Unsigned(kind) {
          on := Some(ToUint64(value, settings.floats) != 0);
        } else {
          on := Some(ToInt64(value, settings.floats) != 0);
        }
      case Single(_) => on := Some(!DoubleIsZero(ToFloat64(value, settings.floats)));
      case Double(_) => on := Some(!DoubleIsZero(ToFloat64(value, settings.floats)));
      case Unsupported => on := None;
    }

    /** writeHoldingRegister's conversion. */
    method EncodeValue(point: Point, value: GoValue) returns (registers: Option<seq<uint16>>)
      ensures registers == RegisterWords(settings, point.dataType, value)
    {
      var regs;
      match point.dataType {
        case Int16 => regs := Uint16ToRegisters(ToInt16(value, settings.floats), settings.order);
        case UInt16 => regs := Uint16ToRegisters(ToUint16(value, settings.floats), settings.order);
        case Int32 => regs := Word32ToRegisters(ToInt32(value, settings.floats), settings.order);
        case UInt32 => regs := Word32ToRegisters(ToUint32(value, settings.floats), settings.order);
        case Float32 => regs := Word32ToRegisters(ToFloat32(value, settings.floats), settings.order);
        case Float64 => regs := Float64ToRegisters(ToFloat64(value, settings.floats), settings.order);
        case _ => return None;
      }
      registers := Some(regs);
    }

    /** With a connection the log shows a complete run of the write; a success changes the image by
        exactly the request that encodes the value, and a failure changes nothing or exactly that. */
    method WritePoint(point: Point, value: GoValue) returns (ok: bool, ghost reached: bool, ghost es: seq<Exchange>)
      requires Valid()
      modifies this, client
      ensures Valid() && (reached <==> connected)
      ensures reached ==> WriteOne(settings, point, value, es) == Returns(ok, [])
      ensures reached ==> exists from :: old(client.log) <= from && client.log == from + es
      ensures !reached ==> !ok && client.image == old(client.image)
      ensures ok ==>
        && WriteRequest(settings, point, value).Some?
        && InTable(WriteRequest(settings, point, value).value)
        && client.image == Apply(old(client.image), WriteRequest(settings, point, value).value)
      ensures !ok && client.image != old(client.image) ==>
        && WriteRequest(settings, point, value).Some?
        && client.image == Apply(old(client.image), WriteRequest(settings, point, value).value)
    {
      hide Opens, Closes, OpenAttempts, Apply, WriteRequest, RunPlan;
      es := [];
      ok := false;
      var up := EnsureConnected();
      reached := up;
      assert client.log == client.log + [];
      if !up {
        return;
      }
      var request := RequestFor(point, value);
      if request.None? {
        return;
      }
      IntendedIsWrite(settings, point, value);
      ghost var from := client.log;
      ok := client.Write(request.value);
      es := [client.log[|client.log| - 1]];
      OneRequest(request.value, es[0]);
      DataKeepsHandles(from, es);
    }

    /** The dispatch of WritePoint, writeCoil and writeHoldingRegister up to the client call. */
    method RequestFor(point: Point, value: GoValue) returns (request: Option<Request>)
      ensures request == WriteRequest(settings, point, value)
    {
      match point.registerType
      case Coil =>
        var on := CoilValue(value);
        if on.None? { return None; }
        request := Some(Request.WriteCoil(point.address, on.value));
      case HoldingRegister =>
        var registers := EncodeValue(point, value);
        if registers.None? { return None; }
        request := Some(Request.WriteRegisters(point.address, registers.value));
      case _ => return None;
    }
  }

  /** NewCollector: None is the error of modbus.NewClient. That the first Connect fails is no error. */
  method NewCollector(client: Option<Client>, settings: Settings) returns (collector: Option<Collector>)
    requires client.Some? ==> client.value.log == []
    modifies if client.Some? then {client.value} else {}
    ensures collector.None? <==> client.None?
    ensures collector.Some? ==>
      var c := collector.value;
      && fresh(c) && c.client == client.value && c.settings == settings && c.maxRetries == 3
      && c.Valid() && ConnectTraffic(c.client.log, c.connected) && c.retryCount == (if c.connected then 0 else 1)
      && c.client.image == old(client.value.image)
  {
    if client.None? {
      return None;
    }
    var c := new Collector(client.value, settings);
    collector := Some(c);
  }
}
