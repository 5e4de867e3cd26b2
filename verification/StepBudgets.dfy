/** Each step a thread takes spends some of a budget that is fixed when the call is made. A call may be
    overtaken as often as new calls are made; once none are, all calls return. */
module StepBudgets {
  import opened Words
  import opened Points
  import opened Converter
  import opened Devices
  import opened Decoding
  import opened Grouping
  import opened Reading
  import opened SinglePoints
  import opened Protocol
  import opened Locks
  import opened Deadlocks

  // ---- How many requests a job can make ----------------------------------------------------------

  /** The longest route of a group: its split requests, or one request and one per register. */
  function GroupRequests(g: BatchGroup): nat
  {
    var bank := BatchBank(g.registerType);
    if Splits(g) then |SplitPlan(bank, g.startAddress, g.totalLength, Limit(bank))|
    else match RegisterBank(g.registerType) {
      case None => 1
      case Some(b) => 1 + |IndividualPlan(b, g.points)|
    }
  }

  function CollectRequests(groups: seq<BatchGroup>): nat
  {
    if groups == [] then 0 else GroupRequests(groups[0]) + CollectRequests(groups[1..])
  }

  function JobRequests(job: Job): nat
  {
    match job
    case CollectJob(points) => CollectRequests(Grouped(points))
    case ReadJob(p) => (match SinglePlan(p) case None => 0 case Some(plan) => |plan|)
    case WriteJob(_, _) => 1
  }

  lemma GroupAsksWithin(g: BatchGroup, es: seq<Exchange>)
    ensures ReadGroup(g, es).Asks? ==> |es| < GroupRequests(g)
    ensures ReadGroup(g, es).Returns? ==> |es| <= GroupRequests(g) + |ReadGroup(g, es).rest|
  {
    hide RunPlan, SplitPlan, IndividualPlan;
    var bank := BatchBank(g.registerType);
    if Splits(g) {
      PlanWithin(SplitPlan(bank, g.startAddress, g.totalLength, Limit(bank)), es);
    } else {
      PlanWithin(BulkPlan(g), es);
      if RunPlan(BulkPlan(g), es).Returns? && RunPlan(BulkPlan(g), es).value.None? &&
        RegisterBank(g.registerType).Some? {
        PlanWithin(IndividualPlan(RegisterBank(g.registerType).value, g.points), RunPlan(BulkPlan(g), es).rest);
      }
    }
  }

  lemma PlanWithin(plan: seq<Request>, es: seq<Exchange>)
    ensures RunPlan(plan, es).Asks? ==> |es| < |plan|
    ensures RunPlan(plan, es).Returns? ==> |es| <= |plan| + |RunPlan(plan, es).rest|
  {
    if RunPlan(plan, es).Asks? {
      PlanGoesOn(plan, es, Failed);
    } else if RunPlan(plan, es).Returns? {
      var k := PlanConsumes(plan, es);
    }
  }

  lemma {:induction false} CollectAsksWithin(settings: Settings, groups: seq<BatchGroup>, es: seq<Exchange>)
    requires CollectGroups(settings, groups, es).Asks?
    ensures |es| < CollectRequests(groups)
    decreases |groups|
  {
    hide ReadGroup, GroupRequests, ReportGroup;
    GroupAsksWithin(groups[0], es);
    if ReadGroup(groups[0], es).Returns? {
      CollectAsksWithin(settings, groups[1..], ReadGroup(groups[0], es).rest);
    }
  }

  /** A locked section makes at most JobRequests requests. */
  lemma JobAsksWithin(settings: Settings, job: Job, seen: seq<Exchange>)
    requires RunJob(settings, job, seen).Asks?
    ensures |seen| < JobRequests(job)
  {
    hide CollectGroups, RunPlan, SinglePlan, WriteRequest, CollectRequests;
    match job
    case CollectJob(points) => CollectAsksWithin(settings, Grouped(points), seen);
    case ReadJob(p) => PlanWithin(SinglePlan(p).value, seen);
    case WriteJob(p, v) => PlanWithin([WriteRequest(settings, p, v).value], seen);
  }

  lemma ReadRequestsBound(p: Point)
    ensures JobRequests(ReadJob(p)) <= 0xFFFF
  {
  }

  // ---- The budget --------------------------------------------------------------------------------

  function Minus(m: nat, n: nat): nat { if n <= m then m - n else 0 }

  function Requests(job: Option<Job>): nat { if job.Some? then JobRequests(job.value) else 0 }

  /** The steps a thread has left at most. Each of the maxRetries attempts takes six: the sleep, the
      lock, the open, the test, the close and the release. */
  function Budget(config: Config, th: Thread): nat
  {
    var retries := 6 * config.maxRetries;
    var op := 3 + Requests(th.job);
    match th.pc
    case Finished(_, _) => 0
    case MuReleasing(_, _) => 1
    case MuWriting => 1
    case MuWriteWait => 2
    case Running(seen, _) => 2 + Minus(Requests(th.job), |seen|)
    case OpWait => op
    case Sleeping(i) => op + 6 * Minus(config.maxRetries, i) + 5
    case ConnectWait(origin) => ConnectBudget(config, op, origin) + 4
    case Opening(origin) => ConnectBudget(config, op, origin) + 3
    case TestingOpen(origin) => ConnectBudget(config, op, origin) + 2
    case Closing(origin) => ConnectBudget(config, op, origin) + 1
    case Unmarking => 6
    case Disconnecting => 7
    case DisconnectWait => 8
    case Marking => op + retries + 5
    case MarkWait => op + retries + 6
    case Testing => op + retries + 7
    case Checking => op + retries + 8
    case StateReadWait => op + retries + 9
    case MuRouting => 0x1_0002 + retries + 10
    case MuReadWait => 0x1_0002 + retries + 11
  }

  function ConnectBudget(config: Config, op: nat, origin: Origin): nat
  {
    match origin
    case Alone => 1
    case Attempt(i) => op + 6 * Minus(config.maxRetries, i)
  }

  lemma ManagerSpends(config: Config, t: Tid, sh: Shared, th: Thread)
    requires ThreadOk(th) && (th.pc.MuRouting? || th.pc.MuWriting? || th.pc.MuReleasing?)
    ensures Budget(config, ManagerStep(t, sh, th).value.thread) < Budget(config, th)
  {
    hide JobRequests;
    if th.call.GetValue? && th.call.name in sh.table {
      ReadRequestsBound(sh.table[th.call.name]);
    }
    WriteRequestsBound();
  }

  lemma WriteRequestsBound()
    ensures forall p: Point, v: GoValue :: JobRequests(WriteJob(p, v)) == 1
  {
  }

  lemma EnsureSpends(config: Config, t: Tid, sh: Shared, th: Thread, choice: Choice)
    requires th.pc.Checking? || th.pc.Testing? || th.pc.Marking?
    ensures Budget(config, EnsureStep(config, t, sh, th, choice).value.thread) < Budget(config, th)
  {
    hide JobRequests, Unreached;
  }

  lemma AfterConnectBudget(config: Config, th: Thread, origin: Origin, ok: bool)
    ensures Budget(config, th.(pc := AfterConnect(config, th, origin, ok))) <=
            ConnectBudget(config, 3 + Requests(th.job), origin)
  {
    hide Requests, Unreached;
  }

  lemma AfterDisconnectBudget(config: Config, th: Thread)
    ensures Budget(config, th.(pc := AfterDisconnect(th))) <= 5
  {
    hide Requests, Unreached;
  }

  lemma ConnectionSpends(config: Config, t: Tid, sh: Shared, th: Thread, choice: Choice)
    requires th.pc.Opening? || th.pc.TestingOpen? || th.pc.Closing? || th.pc.Disconnecting? || th.pc.Unmarking?
    ensures Budget(config, ConnectionStep(config, t, sh, th, choice).value.thread) < Budget(config, th)
  {
    hide Requests, AfterConnect, AfterDisconnect, ConnectBudget;
    AfterDisconnectBudget(config, th);
    if th.pc.Opening? || th.pc.TestingOpen? || th.pc.Closing? {
      AfterConnectBudget(config, th, th.pc.origin, true);
      AfterConnectBudget(config, th, th.pc.origin, false);
    }
  }

  lemma OpSpends(config: Config, t: Tid, sh: Shared, th: Thread, choice: Choice)
    requires th.pc.Running? && OpStep(config, t, sh, th, choice).Some?
    ensures Budget(config, OpStep(config, t, sh, th, choice).value.thread) < Budget(config, th)
  {
    hide RunJob, JobRequests, DeviceStep, Apply;
    if th.job.Some? && RunJob(config.settings, th.job.value, th.pc.seen).Asks? {
      JobAsksWithin(config.settings, th.job.value, th.pc.seen);
    }
  }

  predicate Waits(pc: Pc) { WaitsForLock(pc) || pc.Sleeping? }

  lemma WaitSpends(config: Config, t: Tid, sh: Shared, th: Thread, choice: Choice)
    requires ThreadOk(th) && Waits(th.pc) && Next(config, t, sh, th, choice).Some?
    ensures Budget(config, Next(config, t, sh, th, choice).value.thread) < Budget(config, th)
  {
    hide ManagerStep, EnsureStep, ConnectionStep, OpStep, Requests;
  }

  /** Every step spends budget, whatever the other threads and the device do. */
  lemma EveryStepSpends(config: Config, s: System, s': System, t: Tid, choice: Choice)
    requires LocksAgree(s) && Moves(config, s, s', t, choice)
    ensures Budget(config, s'.threads[t]) < Budget(config, s.threads[t])
    ensures forall u :: u in s.threads && u != t ==> s'.threads[u] == s.threads[u]
  {
    hide ManagerStep, EnsureStep, ConnectionStep, OpStep, Budget, ThreadOk, Agrees, Exclusive;
    var sh, th := s.shared, s.threads[t];
    assert ThreadOk(th);
    match th.pc
    case MuRouting | MuWriting | MuReleasing(_, _) => ManagerSpends(config, t, sh, th);
    case Checking | Testing | Marking => EnsureSpends(config, t, sh, th, choice);
    case Opening(_) | TestingOpen(_) | Closing(_) | Disconnecting | Unmarking =>
      ConnectionSpends(config, t, sh, th, choice);
    case Running(_, _) => OpSpends(config, t, sh, th, choice);
    case Finished(_, _) =>
    case _ => WaitSpends(config, t, sh, th, choice);
  }

  /** How often thread t moved between states i and j of a run. */
  ghost function StepsOf(run: seq<System>, t: Tid, i: nat, j: nat): nat
    requires i <= j < |run|
    requires forall k :: i <= k <= j ==> t in run[k].threads
    decreases j
  {
    if i == j then 0 else StepsOf(run, t, i, j - 1) + (if run[j].threads[t] == run[j - 1].threads[t] then 0 else 1)
  }

  lemma StepSpends(config: Config, s: System, s': System, t: Tid)
    requires LocksAgree(s) && Step(config, s, s') && t in s.threads
    ensures t in s'.threads
    ensures s'.threads[t] == s.threads[t] || Budget(config, s'.threads[t]) < Budget(config, s.threads[t])
  {
    hide LocksAgree, Next, Budget;
    if u, call :| Spawn(s, s', u, call) {
    } else {
      var u, choice :| Moves(config, s, s', u, choice);
      EveryStepSpends(config, s, s', u, choice);
    }
  }

  lemma {:induction false} ThreadsStay(config: Config, run: seq<System>, t: Tid, i: nat, k: nat)
    requires IsRun(config, run) && i <= k < |run| && t in run[i].threads
    ensures t in run[k].threads
    decreases k
  {
    hide Step, Budget;
    if i < k {
      ThreadsStay(config, run, t, i, k - 1);
      LocksAlwaysAgree(config, run, k - 1);
      StepSpends(config, run[k - 1], run[k], t);
    }
  }

  /** In every run, a call takes no more steps than the budget it started with. */
  lemma {:induction false} CallTakesBoundedSteps(config: Config, run: seq<System>, t: Tid, i: nat, j: nat)
    requires IsRun(config, run) && i <= j < |run| && t in run[i].threads
    ensures forall k :: i <= k <= j ==> t in run[k].threads
    ensures StepsOf(run, t, i, j) + Budget(config, run[j].threads[t]) <= Budget(config, run[i].threads[t])
    decreases j
  {
    hide Step, Budget, LocksAgree;
    forall k | i <= k <= j ensures t in run[k].threads {
      ThreadsStay(config, run, t, i, k);
    }
    if i < j {
      CallTakesBoundedSteps(config, run, t, i, j - 1);
      LocksAlwaysAgree(config, run, j - 1);
      StepSpends(config, run[j - 1], run[j], t);
    }
  }

  // ---- All calls together ------------------------------------------------------------------------

  /** The steps that all threads together have left at most. */
  ghost function Total(config: Config, threads: map<Tid, Thread>): nat
  {
    if threads == map[] then 0
    else
      var t :| t in threads;
      Budget(config, threads[t]) + Total(config, threads - {t})
  }

  lemma {:induction false} TotalSplits(config: Config, threads: map<Tid, Thread>, t: Tid)
    requires t in threads
    ensures Total(config, threads) == Budget(config, threads[t]) + Total(config, threads - {t})
    decreases |threads|
  {
    hide Budget;
    var u :| u in threads && Total(config, threads) == Budget(config, threads[u]) + Total(config, threads - {u});
    if u != t {
      TotalSplits(config, threads - {u}, t);
      TotalSplits(config, threads - {t}, u);
      assert threads - {u} - {t} == threads - {t} - {u};
    }
  }

  /** Every step of every thread lowers the total. */
  lemma MovesSpendTotal(config: Config, s: System, s': System, t: Tid, choice: Choice)
    requires LocksAgree(s) && Moves(config, s, s', t, choice)
    ensures Total(config, s'.threads) < Total(config, s.threads)
  {
    hide Budget, Next, LocksAgree;
    EveryStepSpends(config, s, s', t, choice);
    TotalSplits(config, s.threads, t);
    TotalSplits(config, s'.threads, t);
    assert s'.threads - {t} == s.threads - {t};
  }

  ghost predicate Moved(config: Config, s: System, s': System)
  {
    exists t, choice :: Moves(config, s, s', t, choice)
  }

  /** No call is made between states i and j. */
  ghost predicate NoNewCalls(config: Config, run: seq<System>, i: nat, j: nat)
    requires i <= j < |run|
  {
    forall k :: i < k <= j ==> Moved(config, run[k - 1], run[k])
  }

  /** From any point on, a run in which no new call is made has at most as many steps as the calls
      under way have budget. */
  lemma {:induction false} RunEnds(config: Config, run: seq<System>, i: nat, j: nat)
    requires IsRun(config, run) && i <= j < |run| && NoNewCalls(config, run, i, j)
    ensures (j - i) + Total(config, run[j].threads) <= Total(config, run[i].threads)
    decreases j
  {
    hide Step, LocksAgree, Moves, Total;
    if i < j {
      RunEnds(config, run, i, j - 1);
      LocksAlwaysAgree(config, run, j - 1);
      assert Moved(config, run[j - 1], run[j]);
      var t, choice :| Moves(config, run[j - 1], run[j], t, choice);
      MovesSpendTotal(config, run[j - 1], run[j], t, choice);
    }
  }

  /** A reachable state in which no thread can step is one in which every call has returned. */
  lemma StillMeansFinished(config: Config, run: seq<System>, i: nat, t: Tid)
    requires IsRun(config, run) && i < |run| && t in run[i].threads
    requires forall u :: !CanStep(config, run[i], u)
    ensures run[i].threads[t].pc.Finished?
  {
    hide IsRun, CanStep;
    if !run[i].threads[t].pc.Finished? {
      DeadlockFree(config, run, i, t);
    }
  }

  ghost predicate AllFinished(s: System)
  {
    forall t :: t in s.threads ==> s.threads[t].pc.Finished?
  }

  lemma Extended(config: Config, run: seq<System>, s: System)
    requires IsRun(config, run) && Moved(config, run[|run| - 1], s)
    ensures IsRun(config, run + [s])
  {
    hide Moves, Initial;
    var next := run + [s];
    forall k | 0 < k < |next| ensures Step(config, next[k - 1], next[k]) {
      if k < |run| {
        assert next[k - 1] == run[k - 1] && next[k] == run[k];
      }
    }
  }

  lemma QuietStepFirst(config: Config, run: seq<System>, s: System, longer: seq<System>)
    requires run != [] && Moved(config, run[|run| - 1], s) && run + [s] <= longer
    requires NoNewCalls(config, longer, |run|, |longer| - 1)
    ensures NoNewCalls(config, longer, |run| - 1, |longer| - 1)
  {
    hide Moved;
    assert longer[|run| - 1] == (run + [s])[|run| - 1] && longer[|run|] == (run + [s])[|run|];
  }

  /** Every reachable state can be continued, without new calls, to one where all calls have returned. */
  lemma {:induction false} CallsCanReturn(config: Config, run: seq<System>) returns (longer: seq<System>)
    requires IsRun(config, run)
    ensures IsRun(config, longer) && run <= longer && NoNewCalls(config, longer, |run| - 1, |longer| - 1)
    ensures AllFinished(longer[|longer| - 1])
    decreases Total(config, run[|run| - 1].threads)
  {
    hide LocksAgree, Moves, Total, Step, Initial, CanStep, Budget;
    var s := run[|run| - 1];
    if AllFinished(s) {
      longer := run;
    } else {
      var t :| t in s.threads && !s.threads[t].pc.Finished?;
      DeadlockFree(config, run, |run| - 1, t);
      var u :| CanStep(config, s, u);
      var s', choice := StepOf(config, s, u);
      LocksAlwaysAgree(config, run, |run| - 1);
      MovesSpendTotal(config, s, s', u, choice);
      Extended(config, run, s');
      longer := CallsCanReturn(config, run + [s']);
      QuietStepFirst(config, run, s', longer);
    }
  }

  lemma StepOf(config: Config, s: System, u: Tid) returns (s': System, choice: Choice)
    requires CanStep(config, s, u)
    ensures Moves(config, s, s', u, choice)
  {
    hide Next;
    choice :| Next(config, u, s.shared, s.threads[u], choice).Some?;
    var m := Next(config, u, s.shared, s.threads[u], choice).value;
    s' := System(m.shared, s.threads[u := m.thread]);
  }
}
