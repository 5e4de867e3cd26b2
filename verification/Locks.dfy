/** Who holds which lock: what every step of the protocol keeps, and so every reachable state has. */
module Locks {
  import opened Words
  import opened Devices
  import opened Reading
  import opened Protocol

  // ---- Who holds what ----------------------------------------------------------------------------

  /** Inside a critical section of stateMutex.Lock. */
  predicate WritesState(pc: Pc)
  {
    pc.Marking? || pc.Opening? || pc.TestingOpen? || pc.Closing? || pc.Disconnecting? || pc.Unmarking?
  }

  predicate HoldsMu(th: Thread)
  {
    th.pc.MuRouting? || th.pc.MuReleasing? || (th.call.GetValue? && !th.pc.MuReadWait? && !th.pc.Finished?)
  }

  /** The lock fields tell the truth about thread t. */
  ghost predicate Agrees(t: Tid, sh: Shared, pc: Pc, holdsMu: bool)
  {
    && (sh.stateWriter == Some(t) <==> WritesState(pc))
    && (t in sh.stateReaders <==> pc.Checking?)
    && (sh.op == Some(t) <==> pc.Running?)
    && (sh.muWriter == Some(t) <==> pc.MuWriting?)
    && (t in sh.muReaders <==> holdsMu)
  }

  ghost predicate Absent(t: Tid, sh: Shared)
  {
    && sh.stateWriter != Some(t) && t !in sh.stateReaders && sh.op != Some(t)
    && sh.muWriter != Some(t) && t !in sh.muReaders
  }

  /** A read-write lock has a writer or readers, never both. */
  ghost predicate Exclusive(sh: Shared)
  {
    (sh.stateWriter.Some? ==> sh.stateReaders == {}) && (sh.muWriter.Some? ==> sh.muReaders == {})
  }

  predicate InEnsure(pc: Pc)
  {
    || pc.Testing? || pc.MarkWait? || pc.Marking? || pc.Sleeping? || pc.OpWait? || pc.Running?
    || (pc.ConnectWait? && pc.origin.Attempt?) || (pc.Opening? && pc.origin.Attempt?)
    || (pc.TestingOpen? && pc.origin.Attempt?) || (pc.Closing? && pc.origin.Attempt?)
  }

  /** Outside ensureConnected and the locked section, only a call that will run a job has one. */
  ghost predicate JobPlace(th: Thread)
  {
    th.job.Some? ==>
      InEnsure(th.pc) || th.pc.StateReadWait? || th.pc.Checking? || th.pc.MuReleasing? || th.pc.Finished?
  }

  /** A thread is at a place of its own call. */
  ghost predicate ThreadOk(th: Thread)
  {
    && (th.pc.MuReadWait? || th.pc.MuRouting? ==> th.call.GetValue? || th.call.WriteVia?)
    && (th.pc.MuReleasing? ==> th.call.GetValue?)
    && (th.pc.MuWriteWait? || th.pc.MuWriting? ==> th.call.Register?)
    && (InEnsure(th.pc) ==> th.job.Some?)
    && (JobOf(th.call).Some? ==> th.job == JobOf(th.call))
    && JobPlace(th)
  }

  ghost predicate LocksAgree(s: System)
  {
    && Exclusive(s.shared)
    && (forall t :: t in s.threads ==>
          ThreadOk(s.threads[t]) && Agrees(t, s.shared, s.threads[t].pc, HoldsMu(s.threads[t])))
    && (forall t :: t !in s.threads ==> Absent(t, s.shared))
  }

  /** A step leaves every other thread's locks alone. */
  ghost predicate OthersKeep(t: Tid, sh: Shared, sh': Shared)
  {
    && (sh'.stateWriter == sh.stateWriter || (sh.stateWriter in {None, Some(t)} && sh'.stateWriter in {None, Some(t)}))
    && (sh'.op == sh.op || (sh.op in {None, Some(t)} && sh'.op in {None, Some(t)}))
    && (sh'.muWriter == sh.muWriter || (sh.muWriter in {None, Some(t)} && sh'.muWriter in {None, Some(t)}))
    && sh'.stateReaders - {t} == sh.stateReaders - {t}
    && sh'.muReaders - {t} == sh.muReaders - {t}
  }

  ghost predicate LocalInv(t: Tid, sh: Shared, th: Thread)
  {
    Exclusive(sh) && ThreadOk(th) && Agrees(t, sh, th.pc, HoldsMu(th))
  }

  lemma ManagerThreadOk(t: Tid, sh: Shared, th: Thread)
    requires ThreadOk(th) && (th.pc.MuRouting? || th.pc.MuWriting? || th.pc.MuReleasing?)
    requires ManagerStep(t, sh, th).Some?
    ensures ThreadOk(ManagerStep(t, sh, th).value.thread)
  {
  }

  lemma ManagerLocks(t: Tid, sh: Shared, th: Thread)
    requires LocalInv(t, sh, th) && (th.pc.MuRouting? || th.pc.MuWriting? || th.pc.MuReleasing?)
    requires ManagerStep(t, sh, th).Some?
    ensures var m := ManagerStep(t, sh, th).value; LocalInv(t, m.shared, m.thread) && OthersKeep(t, sh, m.shared)
  {
    hide JobPlace, InEnsure;
    ManagerThreadOk(t, sh, th);
  }

  lemma EnsureLocks(config: Config, t: Tid, sh: Shared, th: Thread, choice: Choice)
    requires LocalInv(t, sh, th) && (th.pc.Checking? || th.pc.Testing? || th.pc.Marking?)
    requires EnsureStep(config, t, sh, th, choice).Some?
    ensures var m := EnsureStep(config, t, sh, th, choice).value;
      LocalInv(t, m.shared, m.thread) && OthersKeep(t, sh, m.shared)
  {
    hide BadValues;
  }

  lemma ConnectionThreadOk(config: Config, t: Tid, sh: Shared, th: Thread, choice: Choice)
    requires ThreadOk(th)
    requires th.pc.Opening? || th.pc.TestingOpen? || th.pc.Closing? || th.pc.Disconnecting? || th.pc.Unmarking?
    requires ConnectionStep(config, t, sh, th, choice).Some?
    ensures ThreadOk(ConnectionStep(config, t, sh, th, choice).value.thread)
  {
    hide Unreached, FailedAttempt;
  }

  lemma ConnectionLocks(config: Config, t: Tid, sh: Shared, th: Thread, choice: Choice)
    requires LocalInv(t, sh, th)
    requires th.pc.Opening? || th.pc.TestingOpen? || th.pc.Closing? || th.pc.Disconnecting? || th.pc.Unmarking?
    requires ConnectionStep(config, t, sh, th, choice).Some?
    ensures var m := ConnectionStep(config, t, sh, th, choice).value;
      LocalInv(t, m.shared, m.thread) && OthersKeep(t, sh, m.shared)
  {
    hide Unreached, JobPlace, InEnsure;
    ConnectionThreadOk(config, t, sh, th, choice);
  }

  lemma OpLocks(config: Config, t: Tid, sh: Shared, th: Thread, choice: Choice)
    requires LocalInv(t, sh, th) && th.pc.Running?
    requires OpStep(config, t, sh, th, choice).Some?
    ensures var m := OpStep(config, t, sh, th, choice).value;
      LocalInv(t, m.shared, m.thread) && OthersKeep(t, sh, m.shared)
  {
    hide RunJob, DeviceStep, Apply;
  }

  lemma NextLocks(config: Config, t: Tid, sh: Shared, th: Thread, choice: Choice)
    requires LocalInv(t, sh, th) && Next(config, t, sh, th, choice).Some?
    ensures var m := Next(config, t, sh, th, choice).value;
      LocalInv(t, m.shared, m.thread) && OthersKeep(t, sh, m.shared)
  {
    hide ManagerStep, EnsureStep, ConnectionStep, OpStep;
    match th.pc
    case MuRouting | MuWriting | MuReleasing(_, _) => ManagerLocks(t, sh, th);
    case Checking | Testing | Marking => EnsureLocks(config, t, sh, th, choice);
    case Opening(_) | TestingOpen(_) | Closing(_) | Disconnecting | Unmarking =>
      ConnectionLocks(config, t, sh, th, choice);
    case Running(_, _) => OpLocks(config, t, sh, th, choice);
    case _ =>
  }

  lemma OthersAgree(t: Tid, sh: Shared, sh': Shared, u: Tid, pc: Pc, holdsMu: bool)
    requires OthersKeep(t, sh, sh') && u != t
    ensures Agrees(u, sh, pc, holdsMu) ==> Agrees(u, sh', pc, holdsMu)
    ensures Absent(u, sh) ==> Absent(u, sh')
  {
    assert u in sh.stateReaders <==> u in sh.stateReaders - {t};
    assert u in sh'.stateReaders <==> u in sh'.stateReaders - {t};
    assert u in sh.muReaders <==> u in sh.muReaders - {t};
    assert u in sh'.muReaders <==> u in sh'.muReaders - {t};
  }

  lemma MovesKeepLocks(config: Config, s: System, s': System, t: Tid, choice: Choice)
    requires LocksAgree(s) && Moves(config, s, s', t, choice)
    ensures LocksAgree(s')
  {
    hide Next, Agrees, Absent, ThreadOk, OthersKeep, Exclusive;
    NextLocks(config, t, s.shared, s.threads[t], choice);
    forall u | u != t
      ensures u in s'.threads ==>
        ThreadOk(s'.threads[u]) && Agrees(u, s'.shared, s'.threads[u].pc, HoldsMu(s'.threads[u]))
      ensures u !in s'.threads ==> Absent(u, s'.shared)
    {
      if u in s.threads {
        OthersAgree(t, s.shared, s'.shared, u, s.threads[u].pc, HoldsMu(s.threads[u]));
      } else {
        OthersAgree(t, s.shared, s'.shared, u, MuReadWait, false);
      }
    }
  }

  lemma SpawnKeepsLocks(s: System, s': System, t: Tid, call: Call)
    requires LocksAgree(s) && Spawn(s, s', t, call)
    ensures LocksAgree(s')
  {
    assert Absent(t, s.shared);
  }

  lemma StepKeepsLocks(config: Config, s: System, s': System)
    requires LocksAgree(s) && Step(config, s, s')
    ensures LocksAgree(s')
  {
    hide LocksAgree, Moves, Spawn;
    if t, call :| Spawn(s, s', t, call) {
      SpawnKeepsLocks(s, s', t, call);
    } else {
      var t, choice :| Moves(config, s, s', t, choice);
      MovesKeepLocks(config, s, s', t, choice);
    }
  }

  /** In every reachable state the lock fields are exactly the threads' critical sections. */
  lemma {:induction false} LocksAlwaysAgree(config: Config, run: seq<System>, i: nat)
    requires IsRun(config, run) && i < |run|
    ensures LocksAgree(run[i])
  {
    hide Step;
    if i > 0 {
      LocksAlwaysAgree(config, run, i - 1);
      StepKeepsLocks(config, run[i - 1], run[i]);
    }
  }
}
