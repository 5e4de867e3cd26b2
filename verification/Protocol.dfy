/** The locking protocol of pkg/modbus/collector.go and collector_manager.go: any number of threads,
    each executing one call on one collector, one step at a time. A step takes a lock, makes one
    client call, or reads and writes fields; a field update and the release of the lock that guards
    it are one step, since nobody can look in between. */
module Protocol {
  import opened Words
  import opened Points
  import opened Converter
  import opened Devices
  import opened Decoding
  import opened Grouping
  import opened Reading
  import opened SinglePoints

  type Tid = nat

  datatype Config = Config(settings: Settings, maxRetries: nat)

  datatype Call =
    | Connect
    | Disconnect
    | Reconnect
    | Status                                   // IsConnected and GetConnectionStats
    | Collect(points: seq<Point>)
    | ReadSingle(point: Point)
    | Write(point: Point, value: GoValue)
    | GetValue(name: string)                   // CollectorManager.GetPointValue
    | WriteVia(name: string, value: GoValue)   // CollectorManager.WritePoint
    | Register(point: Point)                   // CollectorManager.RegisterPoint

  /** What a call does between the acquisition and the release of opMutex. */
  datatype Job = CollectJob(points: seq<Point>) | ReadJob(point: Point) | WriteJob(point: Point, value: GoValue)

  datatype Result =
    | Values(values: seq<PointValue>)
    | ReadResult(value: Option<Value>)
    | Wrote(ok: bool)
    | Connected(ok: bool)
    | Done
    | Panicked

  /** The job as a function of the replies so far. */
  function RunJob(settings: Settings, job: Job, seen: seq<Exchange>): Progress<Result>
  {
    match job
    case CollectJob(points) =>
      (match CollectGroups(settings, Grouped(points), seen)
       case Asks(request) => Asks(request)
       case Strays => Strays
       case Returns(values, rest) => Returns(if values.Some? then Values(values.value) else Panicked, rest))
    case ReadJob(p) =>
      (match ReadOne(settings, p, seen)
       case Asks(request) => Asks(request)
       case Strays => Strays
       case Returns(value, rest) => Returns(ReadResult(value), rest))
    case WriteJob(p, v) =>
      (match WriteOne(settings, p, v, seen)
       case Asks(request) => Asks(request)
       case Strays => Strays
       case Returns(ok, rest) => Returns(Wrote(ok), rest))
  }

  // A Connect called for itself, or the i-th attempt of ensureConnected.
  datatype Origin = Alone | Attempt(i: nat)

  datatype Pc =
    | MuReadWait | MuRouting                     // waiting for mu.RLock; holding it
    | MuWriteWait | MuWriting                    // waiting for mu.Lock; holding it
    | StateReadWait | Checking                   // waiting for stateMutex.RLock; holding it
    | Testing                                    // ensureConnected's testConnection, no lock held
    | MarkWait | Marking                         // waiting for stateMutex.Lock; about to mark down
    | ConnectWait(origin: Origin)                // waiting for stateMutex.Lock
    | Opening(origin: Origin) | TestingOpen(origin: Origin) | Closing(origin: Origin)
    | DisconnectWait | Disconnecting | Unmarking // waiting for stateMutex.Lock; closing; clearing connected
    | Sleeping(next: nat)
    | OpWait                                     // waiting for opMutex
    | Running(seen: seq<Exchange>, landed: seq<Request>)
    | MuReleasing(result: Result, at: Option<nat>)
    | Finished(result: Result, at: Option<nat>)  // at: the call's place in the history

  /** since is the length of the history when the call was made. */
  datatype Thread = Thread(call: Call, job: Option<Job>, pc: Pc, since: nat)

  /** One completed locked section, in the order of opMutex. */
  datatype Entry = Entry(thread: Tid, job: Job, result: Result, seen: seq<Exchange>, landed: seq<Request>, since: nat)

  datatype Shared = Shared(
    connected: bool,
    retryCount: nat,
    stateWriter: Option<Tid>,
    stateReaders: set<Tid>,
    op: Option<Tid>,
    muWriter: Option<Tid>,
    muReaders: set<Tid>,
    table: map<string, Point>,
    image: Image,
    // what happened so far
    history: seq<Entry>,
    opens: nat,
    closes: nat,
    markDowns: nat,
    attempts: seq<bool>)

  datatype System = System(shared: Shared, threads: map<Tid, Thread>)

  /** What the environment decides in a step: the outcome of a client call and whether a write landed. */
  datatype Choice = Choice(reply: Reply, landed: bool)

  datatype Move = Move(shared: Shared, thread: Thread)

  // ---- Where a call goes -------------------------------------------------------------------------

  function JobOf(call: Call): Option<Job>
  {
    match call
    case Collect(points) => Some(CollectJob(points))
    case ReadSingle(p) => Some(ReadJob(p))
    case Write(p, v) => Some(WriteJob(p, v))
    case _ => None
  }

  function Start(call: Call): Pc
  {
    match call
    case Connect => ConnectWait(Alone)
    case Disconnect | Reconnect => DisconnectWait
    case GetValue(_) | WriteVia(_, _) => MuReadWait
    case Register(_) => MuWriteWait
    case _ => StateReadWait
  }

  /** GetPointValue keeps mu read-locked for the whole call. */
  function Ending(th: Thread, result: Result, at: Option<nat>): Pc
  {
    if th.call.GetValue? then MuReleasing(result, at) else Finished(result, at)
  }

  /** What a call returns when ensureConnected failed. */
  function Unreached(job: Job): Result
  {
    match job
    case CollectJob(points) => Values(BadValues(points))
    case ReadJob(_) => ReadResult(None)
    case WriteJob(_, _) => Wrote(false)
  }

  function GiveUp(th: Thread): Pc
  {
    Ending(th, if th.job.Some? then Unreached(th.job.value) else Done, None)
  }

  function TryAgain(config: Config, th: Thread, i: nat): Pc
  {
    if i < config.maxRetries then (if i == 0 then ConnectWait(Attempt(0)) else Sleeping(i)) else GiveUp(th)
  }

  function AfterConnect(config: Config, th: Thread, origin: Origin, ok: bool): Pc
  {
    match origin
    case Alone => Ending(th, Connected(ok), None)
    case Attempt(i) => if ok then OpWait else TryAgain(config, th, i + 1)
  }

  // ---- Steps -------------------------------------------------------------------------------------

  predicate StateFree(sh: Shared) { sh.stateWriter.None? && sh.stateReaders == {} }

  predicate MuFree(sh: Shared) { sh.muWriter.None? && sh.muReaders == {} }

  function Goto(sh: Shared, th: Thread, pc: Pc): Option<Move> { Some(Move(sh, th.(pc := pc))) }

  /** The next step of thread t, if it can take one with this choice. */
  function Next(config: Config, t: Tid, sh: Shared, th: Thread, choice: Choice): Option<Move>
  {
    match th.pc
    case MuReadWait =>
      if sh.muWriter.None? then Goto(sh.(muReaders := sh.muReaders + {t}), th, MuRouting) else None
    case MuWriteWait =>
      if MuFree(sh) then Goto(sh.(muWriter := Some(t)), th, MuWriting) else None
    case StateReadWait =>
      if sh.stateWriter.None? then Goto(sh.(stateReaders := sh.stateReaders + {t}), th, Checking) else None
    case MarkWait => if StateFree(sh) then Goto(sh.(stateWriter := Some(t)), th, Marking) else None
    case ConnectWait(origin) => if StateFree(sh) then Goto(sh.(stateWriter := Some(t)), th, Opening(origin)) else None
    case DisconnectWait => if StateFree(sh) then Goto(sh.(stateWriter := Some(t)), th, Disconnecting) else None
    case OpWait => if sh.op.None? then Goto(sh.(op := Some(t)), th, Running([], [])) else None
    case Sleeping(i) => Goto(sh, th, ConnectWait(Attempt(i)))
    case Finished(_, _) => None
    case MuRouting | MuWriting | MuReleasing(_, _) => ManagerStep(t, sh, th)
    case Checking | Testing | Marking => EnsureStep(config, t, sh, th, choice)
    case Opening(_) | TestingOpen(_) | Closing(_) | Disconnecting | Unmarking =>
      ConnectionStep(config, t, sh, th, choice)
    case Running(seen, landed) => OpStep(config, t, sh, th, choice)
  }

  function ManagerStep(t: Tid, sh: Shared, th: Thread): Option<Move>
    requires th.pc.MuRouting? || th.pc.MuWriting? || th.pc.MuReleasing?
  {
    var released := sh.(muReaders := sh.muReaders - {t});
    match th.pc
    case MuRouting =>
      (match th.call
       case GetValue(name) =>
         // The lock stays held.
         if name in sh.table
         then Some(Move(sh, th.(job := Some(ReadJob(sh.table[name])), pc := StateReadWait)))
         else Goto(sh, th, MuReleasing(ReadResult(None), None))
       case WriteVia(name, value) =>
         if name in sh.table
         then Some(Move(released, th.(job := Some(WriteJob(sh.table[name], value)), pc := StateReadWait)))
         else Goto(released, th, Finished(Wrote(false), None))
       case _ => Goto(released, th, Finished(Done, None)))
    case MuWriting =>
      var table := if th.call.Register? then sh.table[th.call.point.name := th.call.point] else sh.table;
      Goto(sh.(table := table, muWriter := None), th, Finished(Done, None))
    case MuReleasing(result, at) => Goto(released, th, Finished(result, at))
  }

  function EnsureStep(config: Config, t: Tid, sh: Shared, th: Thread, choice: Choice): Option<Move>
    requires th.pc.Checking? || th.pc.Testing? || th.pc.Marking?
  {
    match th.pc
    case Checking =>
      var released := sh.(stateReaders := sh.stateReaders - {t});
      if th.job.None? then Goto(released, th, Ending(th, Connected(sh.connected), None))
      else if sh.connected then Goto(released, th, Testing)
      else Goto(released, th, TryAgain(config, th, 0))
    case Testing => Goto(sh, th, if choice.reply.Answer? then OpWait else MarkWait)
    case Marking =>
      Goto(sh.(connected := false, stateWriter := None, markDowns := sh.markDowns + if sh.connected then 1 else 0),
           th, TryAgain(config, th, 0))
  }

  function ConnectionStep(config: Config, t: Tid, sh: Shared, th: Thread, choice: Choice): Option<Move>
    requires th.pc.Opening? || th.pc.TestingOpen? || th.pc.Closing? || th.pc.Disconnecting? || th.pc.Unmarking?
  {
    match th.pc
    case Opening(origin) =>
      if sh.connected then Goto(sh.(stateWriter := None), th, AfterConnect(config, th, origin, true))
      else if choice.reply.Answer? then Goto(sh.(opens := sh.opens + 1), th, TestingOpen(origin))
      else Goto(FailedAttempt(sh), th, AfterConnect(config, th, origin, false))
    case TestingOpen(origin) =>
      if choice.reply.Answer?
      then Goto(sh.(connected := true, retryCount := 0, stateWriter := None, attempts := sh.attempts + [true]),
                th, AfterConnect(config, th, origin, true))
      else Goto(sh, th, Closing(origin))
    case Closing(origin) =>
      Goto(FailedAttempt(sh.(closes := sh.closes + 1)), th, AfterConnect(config, th, origin, false))
    case Disconnecting =>
      if sh.connected then Goto(sh.(closes := sh.closes + 1), th, Unmarking)
      else Goto(sh.(stateWriter := None), th, AfterDisconnect(th))
    case Unmarking => Goto(sh.(connected := false, stateWriter := None), th, AfterDisconnect(th))
  }

  function FailedAttempt(sh: Shared): Shared
  {
    sh.(retryCount := sh.retryCount + 1, stateWriter := None, attempts := sh.attempts + [false])
  }

  function AfterDisconnect(th: Thread): Pc
  {
    if th.call.Reconnect? then ConnectWait(Alone) else Ending(th, Done, None)
  }

  /** One request of the job, or its end: release opMutex and enter the history. */
  function OpStep(config: Config, t: Tid, sh: Shared, th: Thread, choice: Choice): Option<Move>
    requires th.pc.Running?
  {
    if th.job.None? then Goto(sh.(op := None), th, Ending(th, Done, None))
    else match RunJob(config.settings, th.job.value, th.pc.seen) {
      case Asks(request) =>
        var e := Exchange(request, choice.reply);
        var image := if choice.landed then Apply(sh.image, request) else sh.image;
        if DeviceStep(sh.image, e, choice.landed, image)
        then Goto(sh.(image := image), th,
                  Running(th.pc.seen + [e], th.pc.landed + (if choice.landed then [request] else [])))
        else None
      case Returns(result, _) =>
        var entry := Entry(t, th.job.value, result, th.pc.seen, th.pc.landed, th.since);
        Goto(sh.(op := None, history := sh.history + [entry]), th, Ending(th, result, Some(|sh.history|)))
      case Strays => None
    }
  }

  // ---- Runs --------------------------------------------------------------------------------------

  ghost predicate Initial(s: System)
  {
    && s.threads == map[]
    && !s.shared.connected && s.shared.retryCount == 0
    && StateFree(s.shared) && s.shared.op.None? && MuFree(s.shared)
    && s.shared.history == [] && s.shared.attempts == []
    && s.shared.opens == s.shared.closes == s.shared.markDowns == 0
  }

  ghost predicate Spawn(s: System, s': System, t: Tid, call: Call)
  {
    && t !in s.threads
    && s' == System(s.shared, s.threads[t := Thread(call, JobOf(call), Start(call), |s.shared.history|)])
  }

  ghost predicate Moves(config: Config, s: System, s': System, t: Tid, choice: Choice)
  {
    && t in s.threads
    && Next(config, t, s.shared, s.threads[t], choice).Some?
    && var m := Next(config, t, s.shared, s.threads[t], choice).value;
       s' == System(m.shared, s.threads[t := m.thread])
  }

  ghost predicate Step(config: Config, s: System, s': System)
  {
    (exists t, call :: Spawn(s, s', t, call)) || (exists t, choice :: Moves(config, s, s', t, choice))
  }

  ghost predicate IsRun(config: Config, run: seq<System>)
  {
    run != [] && Initial(run[0]) && forall i :: 0 < i < |run| ==> Step(config, run[i - 1], run[i])
  }
}
