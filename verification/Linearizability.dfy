/** Reads and writes linearize in the order of opMutex: in every interleaving, each completed locked
    section did its work on the image left by the sections completed before it. */
module Linearizability {
  import opened Words
  import opened Devices
  import opened Decoding
  import opened Grouping
  import opened Reading
  import opened SinglePoints
  import opened Protocol
  import opened Locks

  // ---- One job under way -------------------------------------------------------------------------

  function ApplyAll(image: Image, requests: seq<Request>): Image
  {
    if requests == [] then image else Apply(ApplyAll(image, requests[..|requests| - 1]), requests[|requests| - 1])
  }

  /** A write lands as a whole and only its own request lands; an acknowledged one did land. */
  ghost predicate Landing(intended: Option<Request>, seen: seq<Exchange>, landed: seq<Request>)
  {
    && |seen| <= 1
    && (seen == [] || intended.None? ==> landed == [])
    && (landed != [] ==> intended.Some? && landed == [intended.value] && InTable(intended.value))
    && (seen != [] && seen[0].reply.Answer? ==> landed != [])
  }

  /** What the exchanges of a job have to do with the image it started from. */
  ghost predicate Faithful(settings: Settings, job: Job, seen: seq<Exchange>, landed: seq<Request>, base: Image)
  {
    match job
    case WriteJob(p, v) => Landing(WriteRequest(settings, p, v), seen, landed)
    case _ => landed == [] && AllHonest(base, seen)
  }

  ghost predicate OnTrack(settings: Settings, job: Job, seen: seq<Exchange>)
  {
    var progress := RunJob(settings, job, seen);
    !progress.Strays? && (progress.Returns? ==> progress.rest == [])
  }

  lemma JobStarts(settings: Settings, job: Job, base: Image)
    ensures OnTrack(settings, job, []) && Faithful(settings, job, [], [], base)
  {
    hide CollectGroups, WriteRequest, SinglePlan, RunPlan;
    match job
    case CollectJob(points) => CollectStarts(settings, Grouped(points));
    case ReadJob(p) =>
      if SinglePlan(p).Some? {
        PlanStarts(SinglePlan(p).value);
      }
    case WriteJob(p, v) =>
      if WriteRequest(settings, p, v).Some? {
        PlanStarts([WriteRequest(settings, p, v).value]);
      }
  }

  /** One more request: the job stays on track, and reads move nothing. */
  lemma JobGoesOn(settings: Settings, job: Job, seen: seq<Exchange>, reply: Reply)
    requires RunJob(settings, job, seen).Asks?
    ensures var e := Exchange(RunJob(settings, job, seen).request, reply);
      OnTrack(settings, job, seen + [e])
    ensures !job.WriteJob? ==> RunJob(settings, job, seen).request.Read?
    ensures job.WriteJob? ==>
      seen == [] && WriteRequest(settings, job.point, job.value) == Some(RunJob(settings, job, seen).request)
  {
    hide CollectGroups, ReadOne, WriteOne, WriteRequest;
    match job
    case CollectJob(points) => CollectGoesOn(settings, Grouped(points), seen, reply);
    case ReadJob(p) => ReadOneGoesOn(settings, p, seen, reply);
    case WriteJob(p, v) => WriteOneGoesOn(settings, p, v, seen, reply);
  }

  lemma ApplyAllStep(base: Image, landed: seq<Request>, request: Request)
    ensures ApplyAll(base, landed + [request]) == Apply(ApplyAll(base, landed), request)
    ensures ApplyAll(base, landed + []) == ApplyAll(base, landed)
  {
    assert (landed + [request])[..|landed|] == landed;
    assert landed + [] == landed;
  }

  lemma HonestAppend(image: Image, es: seq<Exchange>, e: Exchange)
    requires AllHonest(image, es) && Honest(image, e)
    ensures AllHonest(image, es + [e])
  {
  }

  lemma JobAdvances(settings: Settings, job: Job, seen: seq<Exchange>, landed: seq<Request>, base: Image,
                    image: Image, choice: Choice, image': Image)
    requires RunJob(settings, job, seen).Asks? && Faithful(settings, job, seen, landed, base)
    requires image == ApplyAll(base, landed)
    requires DeviceStep(image, Exchange(RunJob(settings, job, seen).request, choice.reply), choice.landed, image')
    ensures var request := RunJob(settings, job, seen).request;
      var landed' := landed + (if choice.landed then [request] else []);
      && OnTrack(settings, job, seen + [Exchange(request, choice.reply)])
      && Faithful(settings, job, seen + [Exchange(request, choice.reply)], landed', base)
      && image' == ApplyAll(base, landed')
  {
    hide RunJob, ApplyAll, Honest, Apply, WriteRequest, AllHonest;
    JobGoesOn(settings, job, seen, choice.reply);
    var request := RunJob(settings, job, seen).request;
    ApplyAllStep(base, landed, request);
    NothingLanded(base);
    if job.WriteJob? {
      IntendedIsWrite(settings, job.point, job.value);
      assert [] + [request] == [request];
      assert [Exchange(request, choice.reply)] == seen + [Exchange(request, choice.reply)];
    } else {
      assert !choice.landed && landed == [] && landed + [] == [];
      HonestAppend(base, seen, Exchange(request, choice.reply));
    }
  }

  lemma NothingLanded(base: Image)
    ensures ApplyAll(base, []) == base
  {
  }

  // ---- The history -------------------------------------------------------------------------------

  /** The image after the sections of a history. */
  function Replay(initial: Image, history: seq<Entry>): Image
  {
    if history == [] then initial
    else ApplyAll(Replay(initial, history[..|history| - 1]), history[|history| - 1].landed)
  }

  /** A completed section, explained by the image it found. */
  ghost predicate Explained(settings: Settings, entry: Entry, base: Image)
  {
    && RunJob(settings, entry.job, entry.seen) == Returns(entry.result, [])
    && Faithful(settings, entry.job, entry.seen, entry.landed, base)
  }

  ghost predicate HistoryOk(settings: Settings, initial: Image, history: seq<Entry>)
  {
    forall i :: 0 <= i < |history| ==>
      Explained(settings, history[i], Replay(initial, history[..i])) && history[i].since <= i
  }

  /** The thread that holds opMutex has done its work so far on the image of the history. */
  ghost predicate SectionOk(settings: Settings, initial: Image, sh: Shared, th: Thread)
  {
    th.pc.Running? ==>
      var base := Replay(initial, sh.history);
      && th.job.Some?
      && OnTrack(settings, th.job.value, th.pc.seen)
      && Faithful(settings, th.job.value, th.pc.seen, th.pc.landed, base)
      && sh.image == ApplyAll(base, th.pc.landed)
  }

  /** A result that came out of a locked section is the one recorded in the history. */
  ghost predicate ResultOk(t: Tid, sh: Shared, th: Thread)
  {
    && th.since <= |sh.history|
    && ((th.pc.Finished? || th.pc.MuReleasing?) && th.pc.at.None? && th.job.Some? ==>
          th.pc.result == Unreached(th.job.value))
    && ((th.pc.Finished? || th.pc.MuReleasing?) && th.pc.at.Some? ==>
            && th.since <= th.pc.at.value < |sh.history|
            && th.job.Some?
            && var entry := sh.history[th.pc.at.value];
               && entry.thread == t && entry.job == th.job.value
               && entry.result == th.pc.result && entry.since == th.since)
  }

  ghost predicate MemoryOk(config: Config, initial: Image, s: System)
  {
    && HistoryOk(config.settings, initial, s.shared.history)
    && (s.shared.op.None? ==> s.shared.image == Replay(initial, s.shared.history))
    && (forall t :: t in s.threads ==>
          SectionOk(config.settings, initial, s.shared, s.threads[t]) && ResultOk(t, s.shared, s.threads[t]))
  }

  lemma HistoryAppend(settings: Settings, initial: Image, history: seq<Entry>, entry: Entry)
    requires HistoryOk(settings, initial, history)
    requires Explained(settings, entry, Replay(initial, history)) && entry.since <= |history|
    ensures HistoryOk(settings, initial, history + [entry])
    ensures Replay(initial, history + [entry]) == ApplyAll(Replay(initial, history), entry.landed)
  {
    hide Explained, ApplyAll;
    var longer := history + [entry];
    assert longer[..|history|] == history;
    forall i | 0 <= i < |longer|
      ensures Explained(settings, longer[i], Replay(initial, longer[..i])) && longer[i].since <= i
    {
      if i < |history| {
        assert longer[..i] == history[..i];
      }
    }
  }

  /** What a step does to the memory and the history, seen from the thread that takes it. */
  ghost predicate MemoryStep(settings: Settings, initial: Image, t: Tid, sh: Shared, th: Thread, sh': Shared,
                             th': Thread)
  {
    && HistoryOk(settings, initial, sh'.history)
    && SectionOk(settings, initial, sh', th') && ResultOk(t, sh', th') && th'.since == th.since
    && sh.history <= sh'.history
    && (sh'.op.None? ==> sh'.image == Replay(initial, sh'.history))
    && (!th.pc.Running? ==> sh'.image == sh.image && sh'.history == sh.history)
  }

  lemma OpMemory(config: Config, initial: Image, t: Tid, sh: Shared, th: Thread, choice: Choice)
    requires th.pc.Running? && sh.op == Some(t) && ThreadOk(th)
    requires HistoryOk(config.settings, initial, sh.history)
    requires SectionOk(config.settings, initial, sh, th) && ResultOk(t, sh, th)
    requires OpStep(config, t, sh, th, choice).Some?
    ensures var m := OpStep(config, t, sh, th, choice).value;
      MemoryStep(config.settings, initial, t, sh, th, m.shared, m.thread)
  {
    hide RunJob, Replay, ApplyAll, Apply, DeviceStep, HistoryOk, AllHonest, WriteRequest, Landing;
    var base := Replay(initial, sh.history);
    match RunJob(config.settings, th.job.value, th.pc.seen)
    case Asks(request) =>
      var image := if choice.landed then Apply(sh.image, request) else sh.image;
      JobAdvances(config.settings, th.job.value, th.pc.seen, th.pc.landed, base, sh.image, choice, image);
    case Returns(result, _) =>
      var entry := Entry(t, th.job.value, result, th.pc.seen, th.pc.landed, th.since);
      HistoryAppend(config.settings, initial, sh.history, entry);
    case Strays =>
  }

  /** A step outside the locked section touches neither image nor history, and a result it produces
      is that of a failed ensureConnected. */
  ghost predicate Quiet(th: Thread, sh: Shared, sh': Shared, th': Thread)
  {
    && sh'.image == sh.image && sh'.history == sh.history && sh'.op == sh.op
    && th'.since == th.since
    && !th'.pc.Running?
    && ((th'.pc.Finished? || th'.pc.MuReleasing?) ==>
          (if th.pc.MuReleasing? then th'.pc.at == th.pc.at && th'.pc.result == th.pc.result && th'.job == th.job
           else th'.pc.at.None? && (th'.job.Some? ==> th'.pc.result == Unreached(th'.job.value))))
  }

  lemma ManagerQuiet(t: Tid, sh: Shared, th: Thread)
    requires ThreadOk(th) && (th.pc.MuRouting? || th.pc.MuWriting? || th.pc.MuReleasing?)
    ensures ManagerStep(t, sh, th).Some?
    ensures var m := ManagerStep(t, sh, th).value; Quiet(th, sh, m.shared, m.thread)
  {
    hide Unreached;
  }

  lemma EnsureQuiet(config: Config, t: Tid, sh: Shared, th: Thread, choice: Choice)
    requires th.pc.Checking? || th.pc.Testing? || th.pc.Marking?
    ensures EnsureStep(config, t, sh, th, choice).Some?
    ensures var m := EnsureStep(config, t, sh, th, choice).value; Quiet(th, sh, m.shared, m.thread)
  {
    hide Unreached;
  }

  lemma ConnectionQuiet(config: Config, t: Tid, sh: Shared, th: Thread, choice: Choice)
    requires th.pc.Opening? || th.pc.TestingOpen? || th.pc.Closing? || th.pc.Disconnecting? || th.pc.Unmarking?
    requires JobPlace(th)
    ensures ConnectionStep(config, t, sh, th, choice).Some?
    ensures var m := ConnectionStep(config, t, sh, th, choice).value; Quiet(th, sh, m.shared, m.thread)
  {
    hide Unreached;
  }

  lemma QuietMemory(config: Config, initial: Image, t: Tid, sh: Shared, th: Thread, sh': Shared, th': Thread)
    requires Quiet(th, sh, sh', th') && !th.pc.Running? && HistoryOk(config.settings, initial, sh.history)
    requires ResultOk(t, sh, th) && (sh.op.None? ==> sh.image == Replay(initial, sh.history))
    ensures MemoryStep(config.settings, initial, t, sh, th, sh', th')
  {
    hide Replay, HistoryOk, Unreached;
  }

  lemma NextMemory(config: Config, initial: Image, t: Tid, sh: Shared, th: Thread, choice: Choice)
    requires LocalInv(t, sh, th) && HistoryOk(config.settings, initial, sh.history)
    requires SectionOk(config.settings, initial, sh, th) && ResultOk(t, sh, th)
    requires sh.op.None? ==> sh.image == Replay(initial, sh.history)
    requires Next(config, t, sh, th, choice).Some?
    ensures var m := Next(config, t, sh, th, choice).value;
      MemoryStep(config.settings, initial, t, sh, th, m.shared, m.thread)
  {
    hide OpStep, ManagerStep, EnsureStep, ConnectionStep, Replay, ApplyAll, RunJob, HistoryOk, Unreached, Exclusive;
    var m := Next(config, t, sh, th, choice).value;
    match th.pc
    case Running(_, _) => OpMemory(config, initial, t, sh, th, choice);
    case OpWait =>
      JobStarts(config.settings, th.job.value, Replay(initial, sh.history));
      NothingLanded(Replay(initial, sh.history));
    case MuRouting | MuWriting | MuReleasing(_, _) =>
      ManagerQuiet(t, sh, th);
      QuietMemory(config, initial, t, sh, th, m.shared, m.thread);
    case Checking | Testing | Marking =>
      EnsureQuiet(config, t, sh, th, choice);
      QuietMemory(config, initial, t, sh, th, m.shared, m.thread);
    case Opening(_) | TestingOpen(_) | Closing(_) | Disconnecting | Unmarking =>
      ConnectionQuiet(config, t, sh, th, choice);
      QuietMemory(config, initial, t, sh, th, m.shared, m.thread);
    case _ =>
  }

  lemma MovesKeepMemory(config: Config, initial: Image, s: System, s': System, t: Tid, choice: Choice)
    requires LocksAgree(s) && LocksAgree(s') && MemoryOk(config, initial, s) && Moves(config, s, s', t, choice)
    ensures MemoryOk(config, initial, s')
  {
    hide Next, HistoryOk, Replay, ApplyAll, Faithful, OnTrack, ThreadOk, Exclusive;
    assert Agrees(t, s.shared, s.threads[t].pc, HoldsMu(s.threads[t]));
    NextMemory(config, initial, t, s.shared, s.threads[t], choice);
    forall u | u in s.threads && u != t
      ensures SectionOk(config.settings, initial, s'.shared, s.threads[u]) && ResultOk(u, s'.shared, s.threads[u])
    {
      assert Agrees(u, s.shared, s.threads[u].pc, HoldsMu(s.threads[u]));
      assert SectionOk(config.settings, initial, s.shared, s.threads[u]) && ResultOk(u, s.shared, s.threads[u]);
    }
  }

  lemma SpawnKeepsMemory(config: Config, initial: Image, s: System, s': System, t: Tid, call: Call)
    requires MemoryOk(config, initial, s) && Spawn(s, s', t, call)
    ensures MemoryOk(config, initial, s')
  {
    hide HistoryOk, Replay, ApplyAll, Faithful, OnTrack;
  }

  lemma StepKeepsMemory(config: Config, initial: Image, s: System, s': System)
    requires LocksAgree(s) && LocksAgree(s') && MemoryOk(config, initial, s) && Step(config, s, s')
    ensures MemoryOk(config, initial, s')
  {
    hide LocksAgree, MemoryOk, Moves, Spawn;
    if t, call :| Spawn(s, s', t, call) {
      SpawnKeepsMemory(config, initial, s, s', t, call);
    } else {
      var t, choice :| Moves(config, s, s', t, choice);
      MovesKeepMemory(config, initial, s, s', t, choice);
    }
  }

  lemma InitialMemory(config: Config, s: System)
    requires Initial(s)
    ensures MemoryOk(config, s.shared.image, s)
  {
  }

  /** In every reachable state the image is the replay of the history, up to what the current holder
      of opMutex has written, and every entry is explained by the entries before it. */
  lemma {:induction false} MemoryAlwaysOk(config: Config, run: seq<System>, i: nat)
    requires IsRun(config, run) && i < |run|
    ensures MemoryOk(config, run[0].shared.image, run[i])
  {
    hide LocksAgree, MemoryOk, Step;
    if i == 0 {
      InitialMemory(config, run[0]);
    } else {
      MemoryAlwaysOk(config, run, i - 1);
      LocksAlwaysAgree(config, run, i - 1);
      LocksAlwaysAgree(config, run, i);
      StepKeepsMemory(config, run[0].shared.image, run[i - 1], run[i]);
    }
  }

  // ---- What the callers see ----------------------------------------------------------------------

  /** The result of a completed section as a function of the image left by the sections before it. */
  ghost predicate Linear(settings: Settings, entry: Entry, base: Image)
  {
    match entry.job
    case CollectJob(points) =>
      && entry.landed == [] && AllHonest(base, entry.seen)
      && CollectGroups(settings, Grouped(points), entry.seen) ==
         Returns(if entry.result.Values? then Some(entry.result.values) else None, [])
      && (entry.result.Values? || entry.result.Panicked?)
      && (entry.result.Values? ==> Reports(settings, base, Grouped(points), entry.seen, entry.result.values))
      && (ReadsRight(points) ==> entry.result.Values?)
    case ReadJob(p) =>
      && entry.result.ReadResult? && entry.landed == []
      && entry.result.value ==
         if SinglePlan(p).Some? && AllAnswered(entry.seen) then SingleMeaning(settings, base, p) else None
    case WriteJob(p, v) =>
      && entry.result.Wrote?
      && (entry.landed == [] ||
            (WriteRequest(settings, p, v).Some? && InTable(WriteRequest(settings, p, v).value) &&
             entry.landed == [WriteRequest(settings, p, v).value]))
      && (entry.result.ok ==> entry.landed != [])
  }

  lemma CollectIsLinear(settings: Settings, entry: Entry, base: Image)
    requires entry.job.CollectJob? && Explained(settings, entry, base)
    ensures Linear(settings, entry, base)
  {
    hide Grouped, Reports, ReadsRight, CollectGroups, AllHonest;
    var points := entry.job.points;
    if entry.result.Values? {
      CollectReports(settings, Grouped(points), entry.seen, base);
    }
    if ReadsRight(points) {
      ReadsRightReturns(settings, points, entry.seen, base);
    }
  }

  lemma ReadIsLinear(settings: Settings, entry: Entry, base: Image)
    requires entry.job.ReadJob? && Explained(settings, entry, base)
    ensures Linear(settings, entry, base)
  {
    hide ReadOne, SinglePlan, AllHonest, SingleMeaning;
    var p := entry.job.point;
    var k := ReadOneReads(settings, p, entry.seen, base);
    assert entry.seen[..k] == entry.seen;
  }

  lemma WriteIsLinear(settings: Settings, entry: Entry, base: Image)
    requires entry.job.WriteJob? && Explained(settings, entry, base)
    ensures Linear(settings, entry, base)
  {
    hide WriteRequest;
    if WriteRequest(settings, entry.job.point, entry.job.value).Some? && entry.result == Wrote(true) {
      var k := PlanConsumes([WriteRequest(settings, entry.job.point, entry.job.value).value], entry.seen);
      assert entry.seen[..k] == entry.seen;
    }
  }

  /** Linearizability: in every reachable state of every run, every completed collection, read and
      write has the result of running alone on the image left by the sections completed before it. */
  lemma EverySectionIsLinear(config: Config, run: seq<System>, i: nat, k: nat)
    requires IsRun(config, run) && i < |run| && k < |run[i].shared.history|
    ensures var history := run[i].shared.history;
      Linear(config.settings, history[k], Replay(run[0].shared.image, history[..k]))
  {
    hide IsRun, RunJob, Replay, Linear, Faithful;
    MemoryAlwaysOk(config, run, i);
    var entry := run[i].shared.history[k];
    var base := Replay(run[0].shared.image, run[i].shared.history[..k]);
    assert Explained(config.settings, entry, base);
    match entry.job
    case CollectJob(_) => CollectIsLinear(config.settings, entry, base);
    case ReadJob(_) => ReadIsLinear(config.settings, entry, base);
    case WriteJob(_, _) => WriteIsLinear(config.settings, entry, base);
  }

  /** While nobody holds opMutex, the device image is exactly what the history wrote. */
  lemma ImageIsReplay(config: Config, run: seq<System>, i: nat)
    requires IsRun(config, run) && i < |run| && run[i].shared.op.None?
    ensures run[i].shared.image == Replay(run[0].shared.image, run[i].shared.history)
  {
    hide IsRun, Replay;
    MemoryAlwaysOk(config, run, i);
  }

  /** What a call returns is what its entry in the history says; a call without an entry found no
      connection, and its result says so. */
  lemma ReturnsItsEntry(config: Config, run: seq<System>, i: nat, t: Tid)
    requires IsRun(config, run) && i < |run| && t in run[i].threads
    requires run[i].threads[t].pc.Finished? && run[i].threads[t].job.Some?
    ensures var th, history := run[i].threads[t], run[i].shared.history;
      match th.pc.at {
        case None => th.pc.result == Unreached(th.job.value)
        case Some(k) =>
          && th.since <= k < |history| && history[k].thread == t
          && history[k].job == th.job.value && history[k].result == th.pc.result
      }
    ensures JobOf(run[i].threads[t].call).Some? ==> run[i].threads[t].job == JobOf(run[i].threads[t].call)
  {
    hide IsRun, HistoryOk, Replay, SectionOk, Unreached, Agrees;
    MemoryAlwaysOk(config, run, i);
    LocksAlwaysAgree(config, run, i);
    assert ResultOk(t, run[i].shared, run[i].threads[t]) && ThreadOk(run[i].threads[t]);
  }

  lemma StepOrder(config: Config, s: System, s': System, u: Tid)
    requires Step(config, s, s') && u in s'.threads
    ensures s.shared.history <= s'.shared.history
    ensures if u in s.threads then s'.threads[u].since == s.threads[u].since
            else s'.threads[u].since == |s.shared.history|
  {
    hide Moves, Spawn;
    if t, call :| Spawn(s, s', t, call) {
      SpawnOrder(s, s', t, call);
    } else {
      var t, choice :| Moves(config, s, s', t, choice);
      MoveOrder(config, s, s', t, choice);
    }
  }

  lemma SpawnOrder(s: System, s': System, t: Tid, call: Call)
    requires Spawn(s, s', t, call)
    ensures s.shared.history <= s'.shared.history
    ensures s'.threads.Keys == s.threads.Keys + {t} && s'.threads[t].since == |s.shared.history|
    ensures forall u :: u in s.threads ==> s'.threads[u].since == s.threads[u].since
  {
  }

  lemma MoveOrder(config: Config, s: System, s': System, t: Tid, choice: Choice)
    requires Moves(config, s, s', t, choice)
    ensures s.shared.history <= s'.shared.history
    ensures s'.threads.Keys == s.threads.Keys
    ensures forall u :: u in s.threads ==> s'.threads[u].since == s.threads[u].since
  {
    hide RunJob, DeviceStep, Apply, Unreached, TryAgain, AfterConnect, AfterDisconnect, Ending;
  }

  /** The history only grows, and a call made later knows at least the history of now. */
  lemma {:induction false} LaterCallsFollow(config: Config, run: seq<System>, i: nat, j: nat, t: Tid)
    requires IsRun(config, run) && i <= j < |run|
    ensures run[i].shared.history <= run[j].shared.history
    ensures t !in run[i].threads && t in run[j].threads ==> |run[i].shared.history| <= run[j].threads[t].since
    decreases j
  {
    hide Step;
    if i < j {
      LaterCallsFollow(config, run, i, j - 1, t);
      if t in run[j].threads {
        StepOrder(config, run[j - 1], run[j], t);
      } else {
        HistoryGrows(config, run[j - 1], run[j]);
      }
    }
  }

  lemma HistoryGrows(config: Config, s: System, s': System)
    requires Step(config, s, s')
    ensures s.shared.history <= s'.shared.history
  {
    hide Moves, Spawn;
    if t, call :| Spawn(s, s', t, call) {
      SpawnOrder(s, s', t, call);
    } else {
      var t, choice :| Moves(config, s, s', t, choice);
      MoveOrder(config, s, s', t, choice);
    }
  }

  /** The order of the history respects real time: a call that had returned before another was made
      comes before it. */
  lemma RealTimeOrder(config: Config, run: seq<System>, i: nat, j: nat, a: Tid, b: Tid)
    requires IsRun(config, run) && i <= j < |run|
    requires a in run[i].threads && run[i].threads[a].pc.Finished? && run[i].threads[a].pc.at.Some?
    requires b !in run[i].threads && b in run[j].threads && run[j].threads[b].pc.Finished? &&
      run[j].threads[b].pc.at.Some?
    ensures run[i].threads[a].pc.at.value < run[j].threads[b].pc.at.value
  {
    hide IsRun, HistoryOk, Replay, SectionOk, Unreached;
    MemoryAlwaysOk(config, run, i);
    MemoryAlwaysOk(config, run, j);
    assert ResultOk(a, run[i].shared, run[i].threads[a]) && ResultOk(b, run[j].shared, run[j].threads[b]);
    LaterCallsFollow(config, run, i, j, b);
  }
}
