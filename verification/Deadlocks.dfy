/** No reachable state is stuck: whenever some call is unfinished, some thread can take a step, even
    under Go's rule that a waiting writer keeps new readers out. */
module Deadlocks {
  import opened Words
  import opened Devices
  import opened Protocol
  import opened Locks
  import opened Linearizability

  /** A writer waits for stateMutex, so that sync.RWMutex admits no new reader. */
  ghost predicate StateWriterWaits(s: System)
  {
    exists u :: u in s.threads &&
      (s.threads[u].pc.MarkWait? || s.threads[u].pc.ConnectWait? || s.threads[u].pc.DisconnectWait?)
  }

  ghost predicate MuWriterWaits(s: System)
  {
    exists u :: u in s.threads && s.threads[u].pc.MuWriteWait?
  }

  /** Thread t can take its next step, whatever the device does: client calls and sleeps return. */
  ghost predicate CanStep(config: Config, s: System, t: Tid)
  {
    && t in s.threads
    && (s.threads[t].pc.StateReadWait? ==> !StateWriterWaits(s))
    && (s.threads[t].pc.MuReadWait? ==> !MuWriterWaits(s))
    && exists choice :: Next(config, t, s.shared, s.threads[t], choice).Some?
  }

  predicate WaitsForLock(pc: Pc)
  {
    || pc.MuReadWait? || pc.MuWriteWait? || pc.StateReadWait? || pc.MarkWait? || pc.ConnectWait?
    || pc.DisconnectWait? || pc.OpWait?
  }

  const TIMEOUT := Choice(Failed, false)

  /** A thread that does not wait for a lock can always go on. */
  lemma BusyCanStep(config: Config, initial: Image, s: System, t: Tid)
    requires LocksAgree(s) && MemoryOk(config, initial, s)
    requires t in s.threads && !s.threads[t].pc.Finished? && !WaitsForLock(s.threads[t].pc)
    ensures CanStep(config, s, t)
  {
    hide StateWriterWaits, MuWriterWaits, Agrees, HistoryOk, Replay, ApplyAll, RunJob, ManagerStep, EnsureStep,
      ConnectionStep;
    var th := s.threads[t];
    assert ThreadOk(th) && SectionOk(config.settings, initial, s.shared, th);
    match th.pc {
      case MuRouting | MuWriting | MuReleasing(_, _) => ManagerQuiet(t, s.shared, th);
      case Checking | Testing | Marking => EnsureQuiet(config, t, s.shared, th, TIMEOUT);
      case Opening(_) | TestingOpen(_) | Closing(_) | Disconnecting | Unmarking =>
        ConnectionQuiet(config, t, s.shared, th, TIMEOUT);
      case _ =>
    }
    assert Next(config, t, s.shared, th, TIMEOUT).Some?;
  }

  /** A lock other than mu read-locked. */
  predicate Holds(sh: Shared, t: Tid)
  {
    sh.stateWriter == Some(t) || t in sh.stateReaders || sh.op == Some(t) || sh.muWriter == Some(t)
  }

  /** Nobody holds stateMutex and opMutex, or waits for another lock inside either. */
  lemma OneLockAtATime(s: System, t: Tid)
    requires LocksAgree(s) && t in s.threads
    ensures !((s.shared.stateWriter == Some(t) || t in s.shared.stateReaders) && s.shared.op == Some(t))
    ensures Holds(s.shared, t) ==> !WaitsForLock(s.threads[t].pc) && !s.threads[t].pc.Finished?
  {
    assert Agrees(t, s.shared, s.threads[t].pc, HoldsMu(s.threads[t]));
  }

  /** The manager's lock is only ever taken first: who waits for mu holds nothing. */
  lemma MuIsTakenFirst(s: System, t: Tid)
    requires LocksAgree(s) && t in s.threads && (s.threads[t].pc.MuReadWait? || s.threads[t].pc.MuWriteWait?)
    ensures Absent(t, s.shared)
  {
    assert Agrees(t, s.shared, s.threads[t].pc, HoldsMu(s.threads[t]));
    assert ThreadOk(s.threads[t]);
  }

  /** The order of the locks in every reachable state: nobody holds stateMutex and opMutex at once or
      waits inside either, and mu is taken by those who hold nothing. */
  lemma LockOrder(config: Config, run: seq<System>, i: nat, t: Tid)
    requires IsRun(config, run) && i < |run| && t in run[i].threads
    ensures var sh, pc := run[i].shared, run[i].threads[t].pc;
      && !((sh.stateWriter == Some(t) || t in sh.stateReaders) && sh.op == Some(t))
      && (WaitsForLock(pc) || pc.Finished? ==> !Holds(sh, t))
      && (pc.MuReadWait? || pc.MuWriteWait? ==> Absent(t, sh))
  {
    hide IsRun, LocksAgree, Holds, Absent;
    LocksAlwaysAgree(config, run, i);
    OneLockAtATime(run[i], t);
    if run[i].threads[t].pc.MuReadWait? || run[i].threads[t].pc.MuWriteWait? {
      MuIsTakenFirst(run[i], t);
    }
  }

  lemma HolderIsThread(s: System, t: Tid)
    requires LocksAgree(s)
    ensures Holds(s.shared, t) || t in s.shared.muReaders ==> t in s.threads
  {
    hide ThreadOk, Agrees, Exclusive;
    if t !in s.threads {
      assert Absent(t, s.shared);
    }
  }

  /** If stateMutex is held, its holder can step. */
  lemma StateHolderSteps(config: Config, initial: Image, s: System)
    requires LocksAgree(s) && MemoryOk(config, initial, s) && !StateFree(s.shared)
    ensures exists u :: CanStep(config, s, u)
  {
    hide LocksAgree, MemoryOk, CanStep;
    var u: Tid;
    if s.shared.stateWriter.Some? {
      u := s.shared.stateWriter.value;
    } else {
      u :| u in s.shared.stateReaders;
    }
    HolderIsThread(s, u);
    OneLockAtATime(s, u);
    BusyCanStep(config, initial, s, u);
  }

  /** Everything except the manager's lock: a thread that has it or does not need it leads to a step. */
  lemma BeyondMuSteps(config: Config, initial: Image, s: System, t: Tid)
    requires LocksAgree(s) && MemoryOk(config, initial, s)
    requires t in s.threads && !s.threads[t].pc.Finished? && !s.threads[t].pc.MuReadWait? &&
      !s.threads[t].pc.MuWriteWait?
    ensures exists u :: CanStep(config, s, u)
  {
    hide LocksAgree, MemoryOk, ManagerStep, EnsureStep, ConnectionStep, OpStep;
    var pc := s.threads[t].pc;
    if !WaitsForLock(pc) {
      BusyCanStep(config, initial, s, t);
    } else if pc.OpWait? {
      if s.shared.op.Some? {
        HolderIsThread(s, s.shared.op.value);
        OneLockAtATime(s, s.shared.op.value);
        BusyCanStep(config, initial, s, s.shared.op.value);
      } else {
        assert Next(config, t, s.shared, s.threads[t], TIMEOUT).Some?;
        assert CanStep(config, s, t);
      }
    } else if !StateFree(s.shared) {
      StateHolderSteps(config, initial, s);
    } else if StateWriterWaits(s) {
      var w :| w in s.threads &&
        (s.threads[w].pc.MarkWait? || s.threads[w].pc.ConnectWait? || s.threads[w].pc.DisconnectWait?);
      assert Next(config, w, s.shared, s.threads[w], TIMEOUT).Some?;
      assert CanStep(config, s, w);
    } else {
      assert Next(config, t, s.shared, s.threads[t], TIMEOUT).Some?;
      assert CanStep(config, s, t);
    }
  }

  lemma MuHolderSteps(config: Config, initial: Image, s: System)
    requires LocksAgree(s) && MemoryOk(config, initial, s) && !MuFree(s.shared)
    ensures exists u :: CanStep(config, s, u)
  {
    hide MemoryOk, CanStep, Exclusive;
    var u: Tid;
    if s.shared.muWriter.Some? {
      u := s.shared.muWriter.value;
    } else {
      u :| u in s.shared.muReaders;
    }
    HolderIsThread(s, u);
    assert Agrees(u, s.shared, s.threads[u].pc, HoldsMu(s.threads[u])) && ThreadOk(s.threads[u]);
    BeyondMuSteps(config, initial, s, u);
  }

  lemma SomeoneSteps(config: Config, initial: Image, s: System, t: Tid)
    requires LocksAgree(s) && MemoryOk(config, initial, s)
    requires t in s.threads && !s.threads[t].pc.Finished?
    ensures exists u :: CanStep(config, s, u)
  {
    hide LocksAgree, MemoryOk, ManagerStep, EnsureStep, ConnectionStep, OpStep;
    if !s.threads[t].pc.MuReadWait? && !s.threads[t].pc.MuWriteWait? {
      BeyondMuSteps(config, initial, s, t);
    } else if !MuFree(s.shared) {
      MuHolderSteps(config, initial, s);
    } else if MuWriterWaits(s) {
      var w :| w in s.threads && s.threads[w].pc.MuWriteWait?;
      assert Next(config, w, s.shared, s.threads[w], TIMEOUT).Some?;
      assert CanStep(config, s, w);
    } else {
      assert Next(config, t, s.shared, s.threads[t], TIMEOUT).Some?;
      assert CanStep(config, s, t);
    }
  }

  /** Deadlock freedom, in every reachable state of every run. */
  lemma DeadlockFree(config: Config, run: seq<System>, i: nat, t: Tid)
    requires IsRun(config, run) && i < |run| && t in run[i].threads && !run[i].threads[t].pc.Finished?
    ensures exists u :: CanStep(config, run[i], u)
  {
    hide IsRun, CanStep, LocksAgree, MemoryOk;
    LocksAlwaysAgree(config, run, i);
    MemoryAlwaysOk(config, run, i);
    SomeoneSteps(config, run[0].shared.image, run[i], t);
  }
}
