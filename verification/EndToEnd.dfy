/** The codec, the grouping, the reading routes and the locking protocol together: what a collection
    reports for a point that some thread wrote. */
module EndToEnd {
  import opened Words
  import opened Points
  import opened Converter
  import opened Devices
  import opened Decoding
  import opened Grouping
  import opened Reading
  import opened SinglePoints
  import opened Protocol
  import opened Linearizability

  /** A section that wrote nothing to the registers of p. */
  ghost predicate LeavesAlone(entry: Entry, p: Point)
  {
    entry.job.WriteJob? && entry.landed != [] ==>
      || entry.job.point.registerType.Coil?
      || (entry.job.point.registerType.HoldingRegister? && Disjoint(entry.job.point, p))
  }

  lemma CoilWriteElsewhere(settings: Settings, image: Image, q: Point, v: GoValue, p: Point)
    requires q.registerType.Coil? && WriteRequest(settings, q, v).Some?
    requires BatchBank(p.registerType) == HoldingRegisters
    ensures Meaning(settings, Apply(image, WriteRequest(settings, q, v).value), p) == Meaning(settings, image, p)
  {
    hide Parsed, CoilState;
    var image' := Apply(image, WriteRequest(settings, q, v).value);
    assert WrappedSlice(image', HoldingRegisters, p.address, p.length) ==
           WrappedSlice(image, HoldingRegisters, p.address, p.length);
  }

  lemma OneLanded(base: Image, request: Request)
    ensures ApplyAll(base, [request]) == Apply(base, request)
  {
    assert [request][..0] == [] && ApplyAll(base, []) == base;
  }

  lemma SectionKeepsMeaning(settings: Settings, entry: Entry, base: Image, p: Point)
    requires Linear(settings, entry, base) && LeavesAlone(entry, p)
    requires BatchBank(p.registerType) == HoldingRegisters
    ensures Meaning(settings, ApplyAll(base, entry.landed), p) == Meaning(settings, base, p)
  {
    hide Meaning, WriteRequest, Apply, ApplyAll, Reports, Grouped, SingleMeaning, Disjoint;
    NothingLanded(base);
    if entry.landed != [] {
      var q, v := entry.job.point, entry.job.value;
      OneLanded(base, WriteRequest(settings, q, v).value);
      if q.registerType.Coil? {
        CoilWriteElsewhere(settings, base, q, v, p);
      } else {
        WriteElsewhere(settings, base, q, v, p);
      }
    }
  }

  /** A point keeps its meaning over all sections that leave it alone. */
  lemma {:induction false} MeaningSurvives(settings: Settings, initial: Image, history: seq<Entry>, k: nat, m: nat,
                                           p: Point)
    requires k <= m <= |history|
    requires forall n :: k <= n < m ==>
      Linear(settings, history[n], Replay(initial, history[..n])) && LeavesAlone(history[n], p)
    requires BatchBank(p.registerType) == HoldingRegisters
    ensures Meaning(settings, Replay(initial, history[..m]), p) == Meaning(settings, Replay(initial, history[..k]), p)
    decreases m
  {
    hide Meaning, Linear, LeavesAlone, ApplyAll;
    if k < m {
      MeaningSurvives(settings, initial, history, k, m - 1, p);
      SectionKeepsMeaning(settings, history[m - 1], Replay(initial, history[..m - 1]), p);
      ReplayStep(initial, history, m - 1);
    }
  }

  lemma ReplayStep(initial: Image, history: seq<Entry>, n: nat)
    requires n < |history|
    ensures Replay(initial, history[..n + 1]) == ApplyAll(Replay(initial, history[..n]), history[n].landed)
  {
    hide ApplyAll;
    assert history[..n + 1][..n] == history[..n];
  }

  /** After an acknowledged write of a point, the image decodes to the value read back. */
  lemma AcknowledgedWrite(settings: Settings, entry: Entry, base: Image)
    requires Linear(settings, entry, base) && entry.job.WriteJob? && entry.result == Wrote(true)
    requires WritablePoint(entry.job.point)
    ensures Meaning(settings, ApplyAll(base, entry.landed), entry.job.point) ==
            GoodValue(entry.job.point, ReadBack(settings, entry.job.point.dataType, entry.job.value))
  {
    hide Meaning, WriteRequest, Apply, ApplyAll, ReadBack;
    OneLanded(base, WriteRequest(settings, entry.job.point, entry.job.value).value);
    WriteThenMeaning(settings, base, entry.job.point, entry.job.value);
  }

  /** Wherever p is in a group that reads its own registers, this is reported for it: v if the group was
      read, by the exchanges es of the collection, and BAD if it was not. */
  ghost predicate Shows(groups: seq<BatchGroup>, es: seq<Exchange>, values: seq<PointValue>, p: Point, v: PointValue)
  {
    forall j, n | 0 <= j < |groups| && 0 <= n < |groups[j].points| ::
      groups[j].points[n] == p && ReadsOwn(groups[j]) ==>
        ShownAt(groups, es, values, j, n, if WasServed(groups, es, j) then v else BadValue(p))
  }

  ghost predicate ShownAt(groups: seq<BatchGroup>, es: seq<Exchange>, values: seq<PointValue>, j: nat, n: nat,
                          v: PointValue)
    requires j < |groups|
  {
    && Offset(groups, j) + n < |values| && values[Offset(groups, j) + n] == v
    && CompleteRead(groups[j], Segment(groups, es, j))
  }

  lemma ReportsShow(settings: Settings, image: Image, groups: seq<BatchGroup>, es: seq<Exchange>,
                    values: seq<PointValue>, p: Point)
    requires Reports(settings, image, groups, es, values)
    ensures Shows(groups, es, values, p, Meaning(settings, image, p))
  {
    hide ReadsOwn, Meaning, WasServed, CompleteRead, AllPoints;
    forall j, n | 0 <= j < |groups| && 0 <= n < |groups[j].points| && groups[j].points[n] == p && ReadsOwn(groups[j])
      ensures ShownAt(groups, es, values, j, n,
                      if WasServed(groups, es, j) then Meaning(settings, image, p) else BadValue(p))
    {
      assert ReportedAt(settings, image, groups, es, values, j, n);
    }
  }

  /** In every run: once the write of a point has been acknowledged, every later collection that returns
      shows the value read back, as long as no section in between wrote to the point's registers. When
      that is the written value is RoundTripExactly. */
  lemma CollectionShowsLastWrite(config: Config, run: seq<System>, i: nat, k: nat, m: nat)
    requires IsRun(config, run) && i < |run| && k < m < |run[i].shared.history|
    requires var w := run[i].shared.history[k];
      w.job.WriteJob? && w.result == Wrote(true) && WritablePoint(w.job.point)
    requires forall n :: k < n < m ==> LeavesAlone(run[i].shared.history[n], run[i].shared.history[k].job.point)
    requires run[i].shared.history[m].job.CollectJob? && run[i].shared.history[m].result.Values?
    ensures var w, c := run[i].shared.history[k], run[i].shared.history[m];
      Shows(Grouped(c.job.points), c.seen, c.result.values, w.job.point,
            GoodValue(w.job.point, ReadBack(config.settings, w.job.point.dataType, w.job.value)))
  {
    hide IsRun, Replay, ApplyAll, Meaning, ReadBack, Reports, Grouped, Shows, LeavesAlone, CollectGroups;
    var history, initial, settings := run[i].shared.history, run[0].shared.image, config.settings;
    var w, c, p := history[k], history[m], history[k].job.point;
    forall n | 0 <= n < |history| ensures Linear(settings, history[n], Replay(initial, history[..n])) {
      EverySectionIsLinear(config, run, i, n);
    }
    AcknowledgedWrite(settings, w, Replay(initial, history[..k]));
    ReplayStep(initial, history, k);
    MeaningSurvives(settings, initial, history, k + 1, m, p);
    var base := Replay(initial, history[..m]);
    assert Linear(settings, c, base);
    ReportsShow(settings, base, Grouped(c.job.points), c.seen, c.result.values, p);
  }

  /** The call of thread t has returned, and this came back. */
  predicate Returned(s: System, t: Tid, job: Job, result: Result)
  {
    t in s.threads && s.threads[t].job == Some(job) && s.threads[t].pc.Finished? && s.threads[t].pc.result == result
  }

  /** Section n came after the one of thread a and before the one of thread b. */
  predicate Between(s: System, a: Tid, n: nat, s': System, b: Tid)
  {
    && a in s.threads && s.threads[a].pc.Finished? && s.threads[a].pc.at.Some? && s.threads[a].pc.at.value < n
    && b in s'.threads && s'.threads[b].pc.Finished? && s'.threads[b].pc.at.Some? && n < s'.threads[b].pc.at.value
  }

  /** The collection of thread b had no connection and reports every point BAD; or it panicked, which
      takes a group that does not read its own registers; or it shows v for p, by the exchanges it made,
      and reports v if all of them were answered. */
  ghost predicate Sees(settings: Settings, s: System, b: Tid, points: seq<Point>, result: Result, p: Point,
                       v: PointValue)
    requires b in s.threads && s.threads[b].pc.Finished?
  {
    match s.threads[b].pc.at
    case None => result == Values(BadValues(points))
    case Some(m) =>
      && m < |s.shared.history|
      && var seen := s.shared.history[m].seen;
         if result.Values? then
           && CollectGroups(settings, Grouped(points), seen) == Returns(Some(result.values), [])
           && Shows(Grouped(points), seen, result.values, p, v)
           && (AllAnswered(seen) && p in points && ReadsPoint(points, p) ==> v in result.values)
         else result.Panicked? && !ReadsRight(points)
  }

  /** For the callers: what a collection called after a write returned without error sees of it, as long
      as no section between the two wrote to the point's registers. */
  lemma CollectSeesWrite(config: Config, run: seq<System>, i: nat, j: nat, a: Tid, b: Tid,
                         p: Point, v: GoValue, points: seq<Point>, result: Result)
    requires IsRun(config, run) && i <= j < |run|
    requires Returned(run[i], a, WriteJob(p, v), Wrote(true)) && WritablePoint(p)
    requires b !in run[i].threads && Returned(run[j], b, CollectJob(points), result)
    requires forall n :: 0 <= n < |run[j].shared.history| && Between(run[i], a, n, run[j], b) ==>
      LeavesAlone(run[j].shared.history[n], p)
    ensures Sees(config.settings, run[j], b, points, result, p, GoodValue(p, ReadBack(config.settings, p.dataType, v)))
  {
    hide IsRun, ReadsRight, ReadsPoint, LeavesAlone, Shows, ReadBack, BadValues, Grouped, CollectGroups,
         Reports, Replay, AllAnswered;
    ReturnsItsEntry(config, run, i, a);
    ReturnsItsEntry(config, run, j, b);
    if run[j].threads[b].pc.at.Some? {
      var k, m := run[i].threads[a].pc.at.value, run[j].threads[b].pc.at.value;
      RealTimeOrder(config, run, i, j, a, b);
      LaterCallsFollow(config, run, i, j, b);
      assert run[j].shared.history[k] == run[i].shared.history[k];
      EverySectionIsLinear(config, run, j, m);
      if result.Values? {
        CollectionShowsLastWrite(config, run, j, k, m);
        var seen := run[j].shared.history[m].seen;
        if AllAnswered(seen) && p in points && ReadsPoint(points, p) {
          AnsweredShows(config.settings, points, seen, result.values, p,
                        GoodValue(p, ReadBack(config.settings, p.dataType, v)));
        }
      }
    }
  }

  /** Where every request was answered, what is shown is reported. */
  lemma AnsweredShows(settings: Settings, points: seq<Point>, es: seq<Exchange>, values: seq<PointValue>, p: Point,
                      v: PointValue)
    requires CollectGroups(settings, Grouped(points), es) == Returns(Some(values), []) && AllAnswered(es)
    requires p in points && ReadsPoint(points, p) && Shows(Grouped(points), es, values, p, v)
    ensures v in values
  {
    hide CollectGroups, Grouped, ReadsOwn, WasServed, CompleteRead;
    var j, n := PlaceOf(points, p);
    AnsweredServes(settings, Grouped(points), es, j);
    assert ShownAt(Grouped(points), es, values, j, n, v);
  }
}
