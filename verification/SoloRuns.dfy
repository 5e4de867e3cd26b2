/** A thread that runs alone: what each call of module Protocol does and returns. Connecting and
    disconnecting make the same exchanges, and leave the same state, as the methods of class Collector. */
module SoloRuns {
  import opened Words
  import opened Points
  import opened Devices
  import opened Reading
  import opened Protocol
  import opened Linearizability
  import opened StepBudgets
  import opened Connections

  /** The client call that a connecting thread makes in its next step. */
  function Calls(sh: Shared, pc: Pc): Option<Request>
  {
    match pc
    case Opening(_) => if sh.connected then None else Some(Request.Open)
    case TestingOpen(_) | Testing => Some(TEST)
    case Closing(_) => Some(Request.Close)
    case Disconnecting => if sh.connected then Some(Request.Close) else None
    case _ => None
  }

  function Made(sh: Shared, pc: Pc, reply: Reply): seq<Exchange>
  {
    match Calls(sh, pc)
    case None => []
    case Some(request) => [Exchange(request, reply)]
  }

  datatype Solo = Solo(shared: Shared, thread: Thread, es: seq<Exchange>)

  /** One step of thread t, with the exchange it makes. */
  function Advance(config: Config, t: Tid, s: Solo, choice: Choice): Option<Solo>
  {
    match Next(config, t, s.shared, s.thread, choice)
    case None => None
    case Some(m) => Some(Solo(m.shared, m.thread, s.es + Made(s.shared, s.thread.pc, choice.reply)))
  }

  /** The first n steps of thread t alone. */
  function After(config: Config, t: Tid, s: Solo, choices: seq<Choice>, n: nat): Option<Solo>
    requires n <= |choices|
  {
    if n == 0 then Some(s)
    else match After(config, t, s, choices, n - 1) {
      case None => None
      case Some(mid) => Advance(config, t, mid, choices[n - 1])
    }
  }

  lemma LockAdvance(config: Config, t: Tid, s: Solo, choice: Choice)
    requires s.thread.pc.ConnectWait? && StateFree(s.shared)
    ensures Advance(config, t, s, choice) ==
      Some(Solo(s.shared.(stateWriter := Some(t)), s.thread.(pc := Opening(s.thread.pc.origin)), s.es))
  {
    assert s.es + [] == s.es;
  }

  lemma OpenAdvance(config: Config, t: Tid, s: Solo, choice: Choice)
    requires s.thread.pc.Opening?
    ensures Advance(config, t, s, choice) == Some(
      var done := s.thread.(pc := AfterConnect(config, s.thread, s.thread.pc.origin, s.shared.connected));
      if s.shared.connected then Solo(s.shared.(stateWriter := None), done, s.es)
      else if choice.reply.Answer? then
        Solo(s.shared.(opens := s.shared.opens + 1), s.thread.(pc := TestingOpen(s.thread.pc.origin)),
             s.es + [Exchange(Request.Open, choice.reply)])
      else Solo(FailedAttempt(s.shared), done, s.es + [Exchange(Request.Open, choice.reply)]))
  {
    hide AfterConnect, FailedAttempt;
    assert s.es + [] == s.es;
  }

  lemma TestAdvance(config: Config, t: Tid, s: Solo, choice: Choice)
    requires s.thread.pc.TestingOpen?
    ensures Advance(config, t, s, choice) == Some(
      var es := s.es + [Exchange(TEST, choice.reply)];
      if choice.reply.Answer? then
        Solo(s.shared.(connected := true, retryCount := 0, stateWriter := None, attempts := s.shared.attempts + [true]),
             s.thread.(pc := AfterConnect(config, s.thread, s.thread.pc.origin, true)), es)
      else Solo(s.shared, s.thread.(pc := Closing(s.thread.pc.origin)), es))
  {
    hide AfterConnect;
  }

  lemma CloseAdvance(config: Config, t: Tid, s: Solo, choice: Choice)
    requires s.thread.pc.Closing?
    ensures Advance(config, t, s, choice) ==
      Some(Solo(FailedAttempt(s.shared.(closes := s.shared.closes + 1)),
                s.thread.(pc := AfterConnect(config, s.thread, s.thread.pc.origin, false)),
                s.es + [Exchange(Request.Close, choice.reply)]))
  {
    hide AfterConnect, FailedAttempt;
  }

  /** What a Connect leaves behind, from its wait for the lock to the lock's release. */
  ghost predicate ConnectDone(config: Config, s: Solo, end: Solo, es: seq<Exchange>, ok: bool)
    requires s.thread.pc.ConnectWait?
  {
    && end.es == s.es + es
    && end.thread == s.thread.(pc := AfterConnect(config, s.thread, s.thread.pc.origin, ok))
    && ConnectEffect(s.shared.connected, s.shared.retryCount, es, ok, end.shared.connected, end.shared.retryCount)
    && SameHandles(s, end, es)
    && end.shared.markDowns == s.shared.markDowns
    && StateFree(end.shared)
  }

  /** The thread of an attempt does not depend on where in it the attempt is. */
  lemma AfterConnectOf(config: Config, th: Thread, pc: Pc, origin: Origin, ok: bool)
    ensures AfterConnect(config, th.(pc := pc), origin, ok) == AfterConnect(config, th, origin, ok)
  {
    hide Unreached;
  }

  /** Connect, run alone, has the effect of Collector.Connect. */
  lemma ConnectAlone(config: Config, t: Tid, start: Solo, choices: seq<Choice>, k: nat)
    returns (n: nat, es: seq<Exchange>, ok: bool)
    requires k + 4 <= |choices| && After(config, t, start, choices, k).Some?
    requires var s := After(config, t, start, choices, k).value; s.thread.pc.ConnectWait? && StateFree(s.shared)
    ensures n <= 4 && After(config, t, start, choices, k + n).Some?
    ensures ConnectDone(config, After(config, t, start, choices, k).value,
                        After(config, t, start, choices, k + n).value, es, ok)
  {
    hide Advance, After, AfterConnect, Opens, Closes;
    var s := After(config, t, start, choices, k).value;
    var th, origin := s.thread, s.thread.pc.origin;
    LockAdvance(config, t, s, choices[k]);
    StepAfter(config, t, start, choices, k);
    var s1 := Advance(config, t, s, choices[k]).value;
    OpenAdvance(config, t, s1, choices[k + 1]);
    StepAfter(config, t, start, choices, k + 1);
    AfterConnectOf(config, th, Opening(origin), origin, s.shared.connected);
    var s2 := Advance(config, t, s1, choices[k + 1]).value;
    if s.shared.connected {
      n, es, ok := 2, [], true;
      assert Opens([]) == Closes([]) == 0 by { NoHandles(); }
      assert s.es + [] == s.es;
    } else if choices[k + 1].reply.Failed? {
      n, es, ok := 2, [Exchange(Request.Open, choices[k + 1].reply)], false;
      ConnectHandles(es, ok);
    } else {
      TestAdvance(config, t, s2, choices[k + 2]);
      StepAfter(config, t, start, choices, k + 2);
      AfterConnectOf(config, th, TestingOpen(origin), origin, true);
      var s3 := Advance(config, t, s2, choices[k + 2]).value;
      var tested := [Exchange(Request.Open, choices[k + 1].reply), Exchange(TEST, choices[k + 2].reply)];
      assert s3.es == s.es + tested;
      if choices[k + 2].reply.Answer? {
        n, es, ok := 3, tested, true;
        ConnectHandles(es, ok);
      } else {
        CloseAdvance(config, t, s3, choices[k + 3]);
        StepAfter(config, t, start, choices, k + 3);
        AfterConnectOf(config, th, Closing(origin), origin, false);
        n, es, ok := 4, tested + [Exchange(Request.Close, choices[k + 3].reply)], false;
        assert s.es + es == s.es + tested + [Exchange(Request.Close, choices[k + 3].reply)];
        ConnectHandles(es, ok);
      }
    }
  }

  lemma NoHandles()
    ensures Opens([]) == Closes([]) == 0
  {
  }

  lemma TestOnly(e: Exchange)
    requires e.request == TEST
    ensures Opens([e]) == Closes([e]) == 0
  {
    LogStep([], e);
    assert [] + [e] == [e];
  }

  lemma {:induction false} HandlesAdd(es: seq<Exchange>, more: seq<Exchange>)
    ensures Opens(es + more) == Opens(es) + Opens(more) && Closes(es + more) == Closes(es) + Closes(more)
  {
    if more == [] {
      assert es + more == es;
    } else {
      var front, last := more[..|more| - 1], more[|more| - 1];
      HandlesAdd(es, front);
      LogStep(es + front, last);
      assert es + more == es + front + [last];
    }
  }

  // ---- ensureConnected ---------------------------------------------------------------------------

  /** Where the attempts end: at opMutex, or giving up. */
  ghost predicate AttemptsDone(config: Config, s: Solo, retries: nat, before: seq<Exchange>, end: Solo,
                               es: seq<Exchange>, ok: bool)
  {
    && end.es == s.es + es
    && end.thread == s.thread.(pc := if ok then OpWait else GiveUp(s.thread))
    && AttemptsEffect(config.maxRetries, retries, before + es, ok, end.shared.retryCount)
    && (ok <==> end.shared.connected) && end.shared.markDowns == s.shared.markDowns
    && SameHandles(s, end, es)
    && StateFree(end.shared)
  }

  /** The counters of the machine moved by the handles that the exchanges opened and closed. */
  predicate SameHandles(s: Solo, end: Solo, es: seq<Exchange>)
  {
    end.shared.opens == s.shared.opens + Opens(es) && end.shared.closes == s.shared.closes + Closes(es)
  }

  lemma SleepAdvance(config: Config, t: Tid, s: Solo, choice: Choice)
    requires s.thread.pc.Sleeping?
    ensures Advance(config, t, s, choice) == Some(s.(thread := s.thread.(pc := ConnectWait(Attempt(s.thread.pc.next)))))
  {
    assert s.es + [] == s.es;
  }

  lemma GiveUpOf(th: Thread, pc: Pc)
    ensures GiveUp(th.(pc := pc)) == GiveUp(th)
  {
    hide Unreached;
  }

  /** The retry loop from attempt i on, with i failed attempts before it. */
  lemma {:induction false} AttemptsAlone(config: Config, t: Tid, start: Solo, choices: seq<Choice>, k: nat, i: nat,
                                         retries: nat, before: seq<Exchange>)
    returns (n: nat, es: seq<Exchange>, ok: bool)
    requires i < config.maxRetries && k + 5 * (config.maxRetries - i) <= |choices|
    requires After(config, t, start, choices, k).Some? && FailedAttempts(i, before)
    requires var s := After(config, t, start, choices, k).value;
      s.thread.pc == ConnectWait(Attempt(i)) && StateFree(s.shared) && !s.shared.connected &&
        s.shared.retryCount == retries + i
    ensures k + n <= |choices| && After(config, t, start, choices, k + n).Some?
    ensures AttemptsDone(config, After(config, t, start, choices, k).value, retries, before,
                         After(config, t, start, choices, k + n).value, es, ok)
    decreases config.maxRetries - i
  {
    hide Advance, After, Opens, Closes, ConnectTraffic, FailedAttempts, GiveUp;
    var s := After(config, t, start, choices, k).value;
    n, es, ok := ConnectAlone(config, t, start, choices, k);
    var mid := After(config, t, start, choices, k + n).value;
    NextAttempt(i, before, es, ok, config.maxRetries);
    if !ok && i + 1 < config.maxRetries {
      SleepAdvance(config, t, mid, choices[k + n]);
      StepAfter(config, t, start, choices, k + n);
      var next := After(config, t, start, choices, k + n + 1).value;
      var n', es', ok' := AttemptsAlone(config, t, start, choices, k + n + 1, i + 1, retries, before + es);
      GiveUpOf(s.thread, next.thread.pc);
      assert before + (es + es') == (before + es) + es' && s.es + (es + es') == (s.es + es) + es';
      HandlesAdd(es, es');
      n, es, ok := n + 1 + n', es + es', ok';
    }
  }

  lemma StepAfter(config: Config, t: Tid, s: Solo, choices: seq<Choice>, n: nat)
    requires n < |choices| && After(config, t, s, choices, n).Some?
    ensures After(config, t, s, choices, n + 1) == Advance(config, t, After(config, t, s, choices, n).value, choices[n])
  {
  }

  /** ensureConnected, run alone from its check of the connection, has the effect of
      Collector.EnsureConnected, and the call goes on exactly when it succeeds. */
  lemma EnsureAlone(config: Config, t: Tid, s: Solo, choices: seq<Choice>) returns (n: nat, es: seq<Exchange>, ok: bool)
    requires s.thread.pc.StateReadWait? && s.thread.job.Some? && StateFree(s.shared)
    requires |choices| >= 5 + 5 * config.maxRetries
    ensures n <= |choices| && After(config, t, s, choices, n).Some?
    ensures var end := After(config, t, s, choices, n).value;
      && end.es == s.es + es
      && end.thread == s.thread.(pc := if ok then OpWait else GiveUp(s.thread))
      && EnsureEffect(config.maxRetries, s.shared.connected, s.shared.retryCount, es, ok,
                      end.shared.connected, end.shared.retryCount, end.shared.markDowns - s.shared.markDowns)
      && SameHandles(s, end, es)
      && StateFree(end.shared)
  {
    hide After, Advance, AttemptsEffect, GiveUp, Opens, Closes;
    Unmoved(config, t, s, choices);
    CheckAdvance(config, t, s, choices);
    var checked := After(config, t, s, choices, 2).value;
    if !s.shared.connected {
      n, es, ok := TriesAlone(config, t, s, choices, 2, s.thread);
    } else {
      StepAfter(config, t, s, choices, 2);
      TestedAdvance(config, t, checked, choices[2]);
      var test := [Exchange(TEST, choices[2].reply)];
      if choices[2].reply.Answer? {
        n, es, ok := 3, test, true;
        TestOnly(test[0]);
      } else {
        MarkAdvance(config, t, s, choices);
        var more;
        n, more, ok := TriesAlone(config, t, s, choices, 5, s.thread);
        es := test + more;
        assert es[1..] == more && s.es + es == s.es + test + more;
        TestOnly(test[0]);
        HandlesAdd(test, more);
      }
    }
  }

  lemma Unmoved(config: Config, t: Tid, s: Solo, choices: seq<Choice>)
    ensures After(config, t, s, choices, 0) == Some(s)
  {
  }

  lemma CheckAdvance(config: Config, t: Tid, s: Solo, choices: seq<Choice>)
    requires s.thread.pc.StateReadWait? && s.thread.job.Some? && StateFree(s.shared) && |choices| >= 2
    ensures After(config, t, s, choices, 2) ==
      Some(s.(thread := s.thread.(pc := if s.shared.connected then Testing else TryAgain(config, s.thread, 0))))
  {
    hide TryAgain, After;
    TryAgainOf(config, s.thread, Checking);
    Unmoved(config, t, s, choices);
    StepAfter(config, t, s, choices, 0);
    StepAfter(config, t, s, choices, 1);
    var s1 := After(config, t, s, choices, 1).value;
    assert s.es + [] == s.es;
    assert s1 == Solo(s.shared.(stateReaders := {t}), s.thread.(pc := Checking), s.es);
    assert s1.shared.stateReaders - {t} == {};
  }

  lemma TryAgainOf(config: Config, th: Thread, pc: Pc)
    ensures TryAgain(config, th.(pc := pc), 0) == TryAgain(config, th, 0)
  {
    hide Unreached;
  }

  lemma TestedAdvance(config: Config, t: Tid, s: Solo, choice: Choice)
    requires s.thread.pc.Testing?
    ensures Advance(config, t, s, choice) ==
      Some(Solo(s.shared, s.thread.(pc := if choice.reply.Answer? then OpWait else MarkWait),
                s.es + [Exchange(TEST, choice.reply)]))
  {
  }

  lemma MarkAdvance(config: Config, t: Tid, s: Solo, choices: seq<Choice>)
    requires |choices| >= 5 && After(config, t, s, choices, 3).Some?
    requires var mid := After(config, t, s, choices, 3).value;
      mid.thread == s.thread.(pc := MarkWait) && StateFree(mid.shared) && mid.shared.connected
    ensures var mid := After(config, t, s, choices, 3).value;
      After(config, t, s, choices, 5) ==
      Some(mid.(shared := mid.shared.(connected := false, markDowns := mid.shared.markDowns + 1),
                thread := s.thread.(pc := TryAgain(config, s.thread, 0))))
  {
    hide TryAgain, After;
    StepAfter(config, t, s, choices, 3);
    StepAfter(config, t, s, choices, 4);
    var mid := After(config, t, s, choices, 3).value;
    TryAgainOf(config, s.thread, Marking);
    assert mid.es + [] == mid.es;
    assert After(config, t, s, choices, 4) ==
           Some(Solo(mid.shared.(stateWriter := Some(t)), s.thread.(pc := Marking), mid.es));
  }

  /** The attempts, from where ensureConnected decides to make them. */
  lemma TriesAlone(config: Config, t: Tid, start: Solo, choices: seq<Choice>, k: nat, th: Thread)
    returns (n: nat, es: seq<Exchange>, ok: bool)
    requires k + 5 * config.maxRetries <= |choices| && After(config, t, start, choices, k).Some?
    requires var s := After(config, t, start, choices, k).value;
      s.thread == th.(pc := TryAgain(config, th, 0)) && StateFree(s.shared) && !s.shared.connected
    ensures k <= n <= |choices| && After(config, t, start, choices, n).Some?
    ensures var s, end := After(config, t, start, choices, k).value, After(config, t, start, choices, n).value;
      && end.es == s.es + es
      && end.thread == th.(pc := if ok then OpWait else GiveUp(th))
      && AttemptsEffect(config.maxRetries, s.shared.retryCount, es, ok, end.shared.retryCount)
      && (ok <==> end.shared.connected) && end.shared.markDowns == s.shared.markDowns
      && SameHandles(s, end, es)
      && StateFree(end.shared)
  {
    hide After, GiveUp, ConnectTraffic;
    NoHandles();
    var s := After(config, t, start, choices, k).value;
    if config.maxRetries == 0 {
      n, es, ok := k, [], false;
      assert s.es + [] == s.es;
    } else {
      var m;
      m, es, ok := AttemptsAlone(config, t, start, choices, k, 0, s.shared.retryCount, []);
      n := k + m;
      assert [] + es == es;
      GiveUpOf(th, s.thread.pc);
    }
  }

  // ---- Whole calls -------------------------------------------------------------------------------

  /** A call that has just been made. */
  predicate Fresh(th: Thread, call: Call)
  {
    th.call == call && th.job == JobOf(call) && th.pc == Start(call)
  }

  /** The call has returned this, without entering the history. */
  predicate HasReturned(th: Thread, end: Thread, result: Result)
  {
    end == th.(pc := Finished(result, None))
  }

  /** Connect, called alone: Collector.Connect. */
  lemma ConnectCall(config: Config, t: Tid, s: Solo, choices: seq<Choice>) returns (n: nat, es: seq<Exchange>, ok: bool)
    requires Fresh(s.thread, Connect) && StateFree(s.shared) && |choices| >= 4
    ensures n <= 4 && After(config, t, s, choices, n).Some?
    ensures var end := After(config, t, s, choices, n).value;
      && end.es == s.es + es && HasReturned(s.thread, end.thread, Connected(ok))
      && ConnectEffect(s.shared.connected, s.shared.retryCount, es, ok, end.shared.connected, end.shared.retryCount)
      && SameHandles(s, end, es) && StateFree(end.shared)
  {
    hide After, ConnectTraffic;
    Unmoved(config, t, s, choices);
    n, es, ok := ConnectAlone(config, t, s, choices, 0);
  }

  lemma DisconnectLock(config: Config, t: Tid, s: Solo, choice: Choice)
    requires s.thread.pc.DisconnectWait? && StateFree(s.shared)
    ensures Advance(config, t, s, choice) ==
      Some(Solo(s.shared.(stateWriter := Some(t)), s.thread.(pc := Disconnecting), s.es))
  {
    assert s.es + [] == s.es;
  }

  /** After a disconnect: a Reconnect goes on to connect, a Disconnect has returned. */
  function Disconnected(th: Thread): Pc
  {
    if th.call.Reconnect? then ConnectWait(Alone) else Finished(Done, None)
  }

  lemma CloseStep(config: Config, t: Tid, s: Solo, choice: Choice)
    requires s.thread.pc.Disconnecting? && (s.thread.call.Disconnect? || s.thread.call.Reconnect?)
    ensures Advance(config, t, s, choice) == Some(
      if s.shared.connected then
        Solo(s.shared.(closes := s.shared.closes + 1), s.thread.(pc := Unmarking),
             s.es + [Exchange(Request.Close, choice.reply)])
      else Solo(s.shared.(stateWriter := None), s.thread.(pc := Disconnected(s.thread)), s.es))
  {
    assert s.es + [] == s.es;
  }

  lemma UnmarkStep(config: Config, t: Tid, s: Solo, choice: Choice)
    requires s.thread.pc.Unmarking? && (s.thread.call.Disconnect? || s.thread.call.Reconnect?)
    ensures Advance(config, t, s, choice) ==
      Some(Solo(s.shared.(connected := false, stateWriter := None), s.thread.(pc := Disconnected(s.thread)), s.es))
  {
    assert s.es + [] == s.es;
  }

  /** A disconnect, run alone, has the effect of Collector.Disconnect. */
  lemma DisconnectAlone(config: Config, t: Tid, s: Solo, choices: seq<Choice>) returns (n: nat, es: seq<Exchange>)
    requires s.thread.pc.DisconnectWait? && (s.thread.call.Disconnect? || s.thread.call.Reconnect?)
    requires StateFree(s.shared) && |choices| >= 3
    ensures n <= 3 && After(config, t, s, choices, n).Some?
    ensures var end := After(config, t, s, choices, n).value;
      && end.es == s.es + es && end.thread == s.thread.(pc := Disconnected(s.thread))
      && DisconnectEffect(s.shared.connected, es, end.shared.connected)
      && SameHandles(s, end, es) && StateFree(end.shared)
      && end.shared.retryCount == s.shared.retryCount && end.shared.markDowns == s.shared.markDowns
  {
    hide After, Advance, Opens, Closes, Disconnected;
    Unmoved(config, t, s, choices);
    StepAfter(config, t, s, choices, 0);
    DisconnectLock(config, t, s, choices[0]);
    var held := After(config, t, s, choices, 1).value;
    StepAfter(config, t, s, choices, 1);
    CloseStep(config, t, held, choices[1]);
    DisconnectedOf(s.thread, Disconnecting);
    DisconnectedOf(s.thread, Unmarking);
    if s.shared.connected {
      StepAfter(config, t, s, choices, 2);
      UnmarkStep(config, t, After(config, t, s, choices, 2).value, choices[2]);
      n, es := 3, [Exchange(Request.Close, choices[1].reply)];
      ClosedOnce(es[0]);
    } else {
      n, es := 2, [];
      NoHandles();
      assert s.es + [] == s.es;
    }
  }

  lemma DisconnectedOf(th: Thread, pc: Pc)
    ensures Disconnected(th.(pc := pc)) == Disconnected(th)
  {
  }

  lemma ClosedOnce(e: Exchange)
    requires e.request.Close?
    ensures Opens([e]) == 0 && Closes([e]) == 1
  {
    NoHandles();
    LogStep([], e);
    assert [] + [e] == [e];
  }

  /** Disconnect, called alone, returns with the collector unconnected. */
  lemma DisconnectCall(config: Config, t: Tid, s: Solo, choices: seq<Choice>) returns (n: nat, es: seq<Exchange>)
    requires Fresh(s.thread, Disconnect) && StateFree(s.shared) && |choices| >= 3
    ensures n <= 3 && After(config, t, s, choices, n).Some?
    ensures var end := After(config, t, s, choices, n).value;
      && end.es == s.es + es && HasReturned(s.thread, end.thread, Done)
      && DisconnectEffect(s.shared.connected, es, end.shared.connected)
      && SameHandles(s, end, es) && StateFree(end.shared)
  {
    hide After;
    n, es := DisconnectAlone(config, t, s, choices);
  }

  /** Reconnect, called alone: a close if there is something to close, and one attempt to connect. */
  lemma ReconnectCall(config: Config, t: Tid, s: Solo, choices: seq<Choice>)
    returns (n: nat, es: seq<Exchange>, ok: bool)
    requires Fresh(s.thread, Reconnect) && StateFree(s.shared) && |choices| >= 7
    ensures n <= 7 && After(config, t, s, choices, n).Some?
    ensures var end := After(config, t, s, choices, n).value;
      && end.es == s.es + es && HasReturned(s.thread, end.thread, Connected(ok)) && (ok <==> end.shared.connected)
      && (if s.shared.connected then es != [] && es[0].request.Close? && ConnectTraffic(es[1..], ok)
          else ConnectTraffic(es, ok))
      && end.shared.retryCount == (if ok then 0 else s.shared.retryCount + 1)
      && SameHandles(s, end, es) && StateFree(end.shared)
  {
    hide After, ConnectTraffic, Opens, Closes;
    var k, closed := DisconnectAlone(config, t, s, choices);
    var mid := After(config, t, s, choices, k).value;
    var m, reached, done := ConnectAlone(config, t, s, choices, k);
    n, es, ok := k + m, closed + reached, done;
    HandlesAdd(closed, reached);
    assert s.es + es == s.es + closed + reached;
    assert if s.shared.connected then es[1..] == reached else es == reached;
  }

  /** IsConnected and GetConnectionStats, called alone, answer with the field and change nothing. */
  lemma StatusCall(config: Config, t: Tid, s: Solo, choices: seq<Choice>)
    requires Fresh(s.thread, Status) && StateFree(s.shared) && |choices| >= 2
    ensures After(config, t, s, choices, 2).Some?
    ensures var end := After(config, t, s, choices, 2).value;
      HasReturned(s.thread, end.thread, Connected(s.shared.connected)) && end.shared == s.shared && end.es == s.es
  {
    hide After;
    Unmoved(config, t, s, choices);
    StepAfter(config, t, s, choices, 0);
    StepAfter(config, t, s, choices, 1);
    var held := After(config, t, s, choices, 1).value;
    assert s.es + [] == s.es && held.es == s.es;
    assert held.shared.stateReaders - {t} == {};
  }

  // ---- The manager's calls -----------------------------------------------------------------------

  /** The table changes only by a registration, and by that of its own point under its own name. */
  lemma TableChanges(config: Config, t: Tid, sh: Shared, th: Thread, choice: Choice)
    requires Next(config, t, sh, th, choice).Some?
    ensures var m := Next(config, t, sh, th, choice).value;
      || m.shared.table == sh.table
      || (th.call.Register? && m.shared.table == sh.table[th.call.point.name := th.call.point])
  {
    hide RunJob, DeviceStep, Apply, Unreached, TryAgain, AfterConnect, AfterDisconnect, Ending;
  }

  /** RegisterPoint, called alone. */
  lemma RegisterCall(config: Config, t: Tid, s: Solo, choices: seq<Choice>, p: Point)
    requires Fresh(s.thread, Register(p)) && MuFree(s.shared) && |choices| >= 2
    ensures After(config, t, s, choices, 2).Some?
    ensures var end := After(config, t, s, choices, 2).value;
      && HasReturned(s.thread, end.thread, Done) && end.es == s.es
      && end.shared == s.shared.(table := s.shared.table[p.name := p])
  {
    hide After;
    Unmoved(config, t, s, choices);
    StepAfter(config, t, s, choices, 0);
    StepAfter(config, t, s, choices, 1);
    assert s.es + [] == s.es;
  }

  /** How a name is routed: to a read or write of the point in the table under it, and to an error if
      there is none. A read keeps mu, a write releases it first. */
  lemma Routed(config: Config, t: Tid, sh: Shared, th: Thread, choice: Choice)
    requires th.pc.MuRouting? && (th.call.GetValue? || th.call.WriteVia?)
    ensures Next(config, t, sh, th, choice).Some?
    ensures var m := Next(config, t, sh, th, choice).value;
      && m.shared.table == sh.table
      && (th.call.name in sh.table ==>
            && m.thread.pc.StateReadWait?
            && m.thread.job == Some(if th.call.GetValue? then ReadJob(sh.table[th.call.name])
                                    else WriteJob(sh.table[th.call.name], th.call.value)))
      && (th.call.name !in sh.table && th.call.GetValue? ==> m.thread == th.(pc := MuReleasing(ReadResult(None), None)))
      && (th.call.name !in sh.table && th.call.WriteVia? ==> HasReturned(th, m.thread, Wrote(false)))
      && m.shared.muReaders == if th.call.GetValue? then sh.muReaders else sh.muReaders - {t}
  {
  }

  /** GetPointValue returns what its read gave when it lets go of mu. */
  lemma Released(config: Config, t: Tid, sh: Shared, th: Thread, choice: Choice)
    requires th.pc.MuReleasing?
    ensures Next(config, t, sh, th, choice) ==
      Some(Move(sh.(muReaders := sh.muReaders - {t}), th.(pc := Finished(th.pc.result, th.pc.at))))
  {
  }

  // ---- Jobs --------------------------------------------------------------------------------------

  /** Where the calls start, and with which job. */
  lemma CallStarts(call: Call)
    ensures match call {
      case Connect => Start(call) == ConnectWait(Alone) && JobOf(call) == None
      case Disconnect | Reconnect => Start(call) == DisconnectWait && JobOf(call) == None
      case Status => Start(call) == StateReadWait && JobOf(call) == None
      case Collect(points) => Start(call) == StateReadWait && JobOf(call) == Some(CollectJob(points))
      case ReadSingle(p) => Start(call) == StateReadWait && JobOf(call) == Some(ReadJob(p))
      case Write(p, v) => Start(call) == StateReadWait && JobOf(call) == Some(WriteJob(p, v))
      case GetValue(_) | WriteVia(_, _) => Start(call) == MuReadWait && JobOf(call) == None
      case Register(_) => Start(call) == MuWriteWait && JobOf(call) == None
    }
  {
  }

  /** What a call returns that got no connection: every point BAD, or an error. */
  lemma GivesUp(th: Thread)
    requires th.job.Some?
    ensures var result := match th.job.value {
        case CollectJob(points) => Values(BadValues(points))
        case ReadJob(_) => ReadResult(None)
        case WriteJob(_, _) => Wrote(false)
      };
      GiveUp(th) == if th.call.GetValue? then MuReleasing(result, None) else Finished(result, None)
  {
  }

  /** A device that answers every request in some allowed way. */
  ghost predicate Behaves(device: (Image, Request) -> Choice)
  {
    forall image, request: Request ::
      var c := device(image, request);
      DeviceStep(image, Exchange(request, c.reply), c.landed, if c.landed then Apply(image, request) else image)
  }

  /** A first step, and then the others. */
  lemma {:induction false} AfterFirst(config: Config, t: Tid, s: Solo, choice: Choice, rest: seq<Choice>, n: nat)
    requires n <= |rest| && Advance(config, t, s, choice).Some?
    ensures After(config, t, s, [choice] + rest, n + 1) ==
            After(config, t, Advance(config, t, s, choice).value, rest, n)
  {
    hide Advance;
    if n > 0 {
      AfterFirst(config, t, s, choice, rest, n - 1);
      assert ([choice] + rest)[n] == rest[n - 1];
    } else {
      assert After(config, t, s, [choice] + rest, 0) == Some(s);
    }
  }

  /** What a finished section leaves behind: its entry, at the end of the history, and the lock free. */
  ghost predicate SectionDone(config: Config, t: Tid, s: Solo, end: Solo, entry: Entry)
  {
    && entry.thread == t && Some(entry.job) == s.thread.job && entry.since == s.thread.since
    && RunJob(config.settings, entry.job, entry.seen) == Returns(entry.result, [])
    && end.shared == s.shared.(op := None, image := end.shared.image, history := s.shared.history + [entry])
    && end.thread == s.thread.(pc :=
         if s.thread.call.GetValue? then MuReleasing(entry.result, Some(|s.shared.history|))
         else Finished(entry.result, Some(|s.shared.history|)))
  }

  lemma {:induction false} SectionAlone(config: Config, t: Tid, s: Solo, device: (Image, Request) -> Choice)
    returns (choices: seq<Choice>, entry: Entry)
    requires s.thread.pc.Running? && s.thread.job.Some? && Behaves(device)
    requires OnTrack(config.settings, s.thread.job.value, s.thread.pc.seen)
    ensures After(config, t, s, choices, |choices|).Some?
    ensures SectionDone(config, t, s, After(config, t, s, choices, |choices|).value, entry)
    decreases JobRequests(s.thread.job.value) - |s.thread.pc.seen|
  {
    hide After, RunJob, DeviceStep, Apply, JobRequests;
    var job, seen := s.thread.job.value, s.thread.pc.seen;
    match RunJob(config.settings, job, seen)
    case Asks(request) =>
      JobAsksWithin(config.settings, job, seen);
      var choice := device(s.shared.image, request);
      JobGoesOn(config.settings, job, seen, choice.reply);
      var next := Advance(config, t, s, choice).value;
      var rest;
      rest, entry := SectionAlone(config, t, next, device);
      AfterFirst(config, t, s, choice, rest, |rest|);
      choices := [choice] + rest;
    case Returns(result, _) =>
      var choice := Choice(Failed, false);
      entry := Entry(t, job, result, seen, s.thread.pc.landed, s.thread.since);
      choices := [choice] + [];
      AfterFirst(config, t, s, choice, [], 0);
      Unmoved(config, t, Advance(config, t, s, choice).value, []);
    case Strays =>
  }

  /** A call that waits for opMutex and runs alone completes its job on any device that behaves, enters
      the history, and returns what the job computed. */
  lemma JobAlone(config: Config, t: Tid, s: Solo, device: (Image, Request) -> Choice)
    returns (choices: seq<Choice>, entry: Entry)
    requires s.thread.pc.OpWait? && s.thread.job.Some? && s.shared.op.None? && Behaves(device)
    ensures After(config, t, s, choices, |choices|).Some?
    ensures SectionDone(config, t, s, After(config, t, s, choices, |choices|).value, entry)
  {
    hide After, RunJob, DeviceStep, Behaves;
    JobStarts(config.settings, s.thread.job.value, s.shared.image);
    var choice := Choice(Failed, false);
    var next := Advance(config, t, s, choice).value;
    var rest;
    rest, entry := SectionAlone(config, t, next, device);
    AfterFirst(config, t, s, choice, rest, |rest|);
    choices := [choice] + rest;
  }
}
