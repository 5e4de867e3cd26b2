/** Handle conservation and the retry count, over every run. */
module Handles {
  import opened Devices
  import opened Reading
  import opened Protocol
  import opened Locks

  /** Handles opened or closed inside an unfinished critical section, before connected is updated. */
  function Pending(pc: Pc): int
  {
    match pc
    case TestingOpen(_) | Closing(_) => 1
    case Unmarking => -1
    case _ => 0
  }

  function HolderPending(s: System): int
  {
    if s.shared.stateWriter.Some? && s.shared.stateWriter.value in s.threads
    then Pending(s.threads[s.shared.stateWriter.value].pc) else 0
  }

  function InUse(sh: Shared): int { if sh.connected then 1 else 0 }

  /** Successful Open calls, minus Close calls, mark-downs and the handle in use. */
  function Balance(sh: Shared): int { sh.opens - sh.closes - sh.markDowns - InUse(sh) }

  /** connected is still false while a new handle is tested, still true while the old one is closed. */
  ghost predicate PendingFits(sh: Shared, pc: Pc)
  {
    (Pending(pc) == 1 ==> !sh.connected) && (Pending(pc) == -1 ==> sh.connected)
  }

  /** The number of failures since the last success. */
  function TrailingFailures(attempts: seq<bool>): nat
  {
    if attempts == [] || attempts[|attempts| - 1] then 0 else 1 + TrailingFailures(attempts[..|attempts| - 1])
  }

  ghost predicate HandlesOk(s: System)
  {
    && Balance(s.shared) == HolderPending(s)
    && (s.shared.stateWriter.Some? && s.shared.stateWriter.value in s.threads ==>
          PendingFits(s.shared, s.threads[s.shared.stateWriter.value].pc))
    && s.shared.retryCount == TrailingFailures(s.shared.attempts)
  }

  lemma AttemptAppended(attempts: seq<bool>, ok: bool)
    ensures TrailingFailures(attempts + [ok]) == if ok then 0 else TrailingFailures(attempts) + 1
  {
    assert (attempts + [ok])[..|attempts|] == attempts;
  }

  /** One step, seen from the thread that takes it. */
  ghost predicate StepBalanced(sh: Shared, pc: Pc, sh': Shared, pc': Pc)
  {
    && Balance(sh') - Balance(sh) == Pending(pc') - Pending(pc)
    && PendingFits(sh', pc')
    && (sh.retryCount == TrailingFailures(sh.attempts) ==> sh'.retryCount == TrailingFailures(sh'.attempts))
    && (!WritesState(pc) ==> sh'.connected == sh.connected)
  }

  lemma ConnectionBalanced(config: Config, t: Tid, sh: Shared, th: Thread, choice: Choice)
    requires PendingFits(sh, th.pc)
    requires th.pc.Opening? || th.pc.TestingOpen? || th.pc.Closing? || th.pc.Disconnecting? || th.pc.Unmarking?
    ensures ConnectionStep(config, t, sh, th, choice).Some?
    ensures var m := ConnectionStep(config, t, sh, th, choice).value; StepBalanced(sh, th.pc, m.shared, m.thread.pc)
  {
    hide TrailingFailures, BadValues;
    AttemptAppended(sh.attempts, true);
    AttemptAppended(sh.attempts, false);
  }

  lemma NextBalanced(config: Config, t: Tid, sh: Shared, th: Thread, choice: Choice)
    requires LocalInv(t, sh, th) && PendingFits(sh, th.pc) && Next(config, t, sh, th, choice).Some?
    ensures var m := Next(config, t, sh, th, choice).value; StepBalanced(sh, th.pc, m.shared, m.thread.pc)
  {
    hide ConnectionStep, TrailingFailures, RunJob, DeviceStep, BadValues, Apply, Exclusive, ThreadOk, Agrees;
    match th.pc
    case Opening(_) | TestingOpen(_) | Closing(_) | Disconnecting | Unmarking =>
      ConnectionBalanced(config, t, sh, th, choice);
    case _ =>
  }

  lemma MovesKeepHandles(config: Config, s: System, s': System, t: Tid, choice: Choice)
    requires LocksAgree(s) && LocksAgree(s') && HandlesOk(s) && Moves(config, s, s', t, choice)
    ensures HandlesOk(s')
  {
    hide Next, TrailingFailures, Exclusive, ThreadOk;
    var th, th' := s.threads[t], s'.threads[t];
    assert Agrees(t, s.shared, th.pc, HoldsMu(th));
    assert Agrees(t, s'.shared, th'.pc, HoldsMu(th'));
    NextBalanced(config, t, s.shared, th, choice);
    NextLocks(config, t, s.shared, th, choice);
  }

  lemma SpawnKeepsHandles(s: System, s': System, t: Tid, call: Call)
    requires LocksAgree(s) && HandlesOk(s) && Spawn(s, s', t, call)
    ensures HandlesOk(s')
  {
    hide Exclusive, ThreadOk, TrailingFailures;
    assert Absent(t, s.shared);
  }

  lemma StepKeepsHandles(config: Config, s: System, s': System)
    requires LocksAgree(s) && LocksAgree(s') && HandlesOk(s) && Step(config, s, s')
    ensures HandlesOk(s')
  {
    hide LocksAgree, HandlesOk, Moves, Spawn;
    if t, call :| Spawn(s, s', t, call) {
      SpawnKeepsHandles(s, s', t, call);
    } else {
      var t, choice :| Moves(config, s, s', t, choice);
      MovesKeepHandles(config, s, s', t, choice);
    }
  }

  lemma {:induction false} HandlesAlwaysOk(config: Config, run: seq<System>, i: nat)
    requires IsRun(config, run) && i < |run|
    ensures HandlesOk(run[i])
  {
    hide LocksAgree, HandlesOk, Step;
    if i == 0 {
      InitiallyBalanced(run[0]);
    } else {
      HandlesAlwaysOk(config, run, i - 1);
      LocksAlwaysAgree(config, run, i - 1);
      LocksAlwaysAgree(config, run, i);
      StepKeepsHandles(config, run[i - 1], run[i]);
    }
  }

  lemma InitiallyBalanced(s: System)
    requires Initial(s)
    ensures HandlesOk(s)
  {
  }

  /** Handle conservation: in every reachable state in which nobody is inside stateMutex.Lock,
      successful opens are the closes, the mark-downs and the connection in use. */
  lemma HandleConservation(config: Config, run: seq<System>, i: nat)
    requires IsRun(config, run) && i < |run| && run[i].shared.stateWriter.None?
    ensures var sh := run[i].shared; sh.opens == sh.closes + sh.markDowns + (if sh.connected then 1 else 0)
  {
    hide IsRun;
    HandlesAlwaysOk(config, run, i);
  }

  /** In every reachable state retryCount is the number of failed attempts since the last success. */
  lemma RetryCountIsTrailingFailures(config: Config, run: seq<System>, i: nat)
    requires IsRun(config, run) && i < |run|
    ensures run[i].shared.retryCount == TrailingFailures(run[i].shared.attempts)
  {
    hide IsRun;
    HandlesAlwaysOk(config, run, i);
  }
}
