/** pkg/modbus/collector.go, Connect, Disconnect and ensureConnected: what their exchanges with the
    client are and what they do to the handles and the retry count. The methods of module Collectors
    and the steps of module Protocol are both proved to have these effects. */
module Connections {
  import opened Devices

  // ---- Handles in a log --------------------------------------------------------------------------

  /** Successful opens. */
  function Opens(log: seq<Exchange>): nat
  {
    if log == [] then 0
    else Opens(log[..|log| - 1]) + (if log[|log| - 1].request.Open? && log[|log| - 1].reply.Answer? then 1 else 0)
  }

  /** Close calls, whatever they returned. */
  function Closes(log: seq<Exchange>): nat
  {
    if log == [] then 0
    else Closes(log[..|log| - 1]) + (if log[|log| - 1].request.Close? then 1 else 0)
  }

  function OpenAttempts(log: seq<Exchange>): nat
  {
    if log == [] then 0
    else OpenAttempts(log[..|log| - 1]) + (if log[|log| - 1].request.Open? then 1 else 0)
  }

  lemma LogStep(log: seq<Exchange>, e: Exchange)
    ensures Opens(log + [e]) == Opens(log) + (if e.request.Open? && e.reply.Answer? then 1 else 0)
    ensures Closes(log + [e]) == Closes(log) + (if e.request.Close? then 1 else 0)
    ensures OpenAttempts(log + [e]) == OpenAttempts(log) + (if e.request.Open? then 1 else 0)
  {
    assert (log + [e])[..|log|] == log;
  }

  predicate DataOnly(es: seq<Exchange>)
  {
    forall i :: 0 <= i < |es| ==> es[i].request.Read? || IsWrite(es[i].request)
  }

  /** Reads and writes move no handle. */
  lemma {:induction false} DataKeepsHandles(log: seq<Exchange>, es: seq<Exchange>)
    requires DataOnly(es)
    ensures Opens(log + es) == Opens(log) && Closes(log + es) == Closes(log)
  {
    if es == [] {
      assert log + es == log;
    } else {
      var front, e := es[..|es| - 1], es[|es| - 1];
      DataKeepsHandles(log, front);
      LogStep(log + front, e);
      assert log + es == log + front + [e];
    }
  }

  predicate HonestReads(image: Image, es: seq<Exchange>)
  {
    AllHonest(image, es) && forall i :: 0 <= i < |es| ==> es[i].request.Read?
  }

  // testConnection's request
  const TEST := Read(HoldingRegisters, 0, 1)

  /** The exchanges of one Connect that found the collector unconnected. */
  ghost predicate ConnectTraffic(es: seq<Exchange>, ok: bool)
  {
    && 0 < |es| <= 3
    && es[0].request.Open?
    && (|es| == 1 ==> es[0].reply.Failed? && !ok)
    && (|es| > 1 ==>
          es[0].reply.Answer? && es[1].request == TEST && (ok <==> es[1].reply.Answer?) && (ok <==> |es| == 2))
    && (|es| == 3 ==> es[2].request.Close?)
  }

  /** The exchanges between two states of a log. */
  ghost function Since(before: seq<Exchange>, now: seq<Exchange>): seq<Exchange>
  {
    if |before| <= |now| then now[|before|..] else []
  }

  /** One Connect, from (was, retries) to (up, retries'). */
  ghost predicate ConnectEffect(was: bool, retries: nat, es: seq<Exchange>, ok: bool, up: bool, retries': nat)
  {
    && (ok <==> up)
    && (was ==> ok && es == [] && retries' == retries)
    && (!was ==> ConnectTraffic(es, ok) && retries' == if ok then 0 else retries + 1)
  }

  ghost predicate DisconnectEffect(was: bool, es: seq<Exchange>, up: bool)
  {
    !up && (if was then |es| == 1 && es[0].request.Close? else es == [])
  }

  /** n failed attempts in a row. */
  ghost predicate FailedAttempts(n: nat, es: seq<Exchange>)
  {
    if n == 0 then es == []
    else exists k :: 0 <= k <= |es| && FailedAttempts(n - 1, es[..k]) && ConnectTraffic(es[k..], false)
  }

  /** Fewer than max failed attempts and one that succeeds, or max that fail. */
  ghost predicate AttemptsEffect(max: nat, retries: nat, es: seq<Exchange>, ok: bool, retries': nat)
  {
    if ok then
      && retries' == 0
      && exists n: nat, k :: n < max && 0 <= k <= |es| && FailedAttempts(n, es[..k]) && ConnectTraffic(es[k..], true)
    else FailedAttempts(max, es) && retries' == retries + max
  }

  /** A connection that answers the test is kept; any other is marked down, if it was thought up, and
      followed by attempts. lost counts the mark-downs. */
  ghost predicate EnsureEffect(max: nat, was: bool, retries: nat, es: seq<Exchange>, ok: bool, up: bool, retries': nat,
                               lost: int)
  {
    && (ok <==> up)
    && if !was then lost == 0 && AttemptsEffect(max, retries, es, ok, retries')
       else
         && es != [] && es[0].request == TEST
         && if es[0].reply.Answer? then ok && |es| == 1 && lost == 0 && retries' == retries
            else lost == 1 && AttemptsEffect(max, retries, es[1..], ok, retries')
  }

  lemma NextAttempt(n: nat, es: seq<Exchange>, more: seq<Exchange>, ok: bool, max: nat)
    requires FailedAttempts(n, es) && ConnectTraffic(more, ok) && n < max
    ensures !ok ==> FailedAttempts(n + 1, es + more)
    ensures ok ==> AttemptsEffect(max, 0, es + more, true, 0)
  {
    assert (es + more)[..|es|] == es && (es + more)[|es|..] == more;
  }

  lemma AttemptsOfConnect(log: seq<Exchange>, es: seq<Exchange>, ok: bool)
    requires ConnectTraffic(es, ok)
    ensures OpenAttempts(log + es) == OpenAttempts(log) + 1
  {
    hide Opens, Closes, OpenAttempts;
    LogStep(log, es[0]);
    if |es| == 1 {
      assert log + es == log + [es[0]];
    } else {
      LogStep(log + [es[0]], es[1]);
      if |es| == 2 {
        assert log + es == log + [es[0]] + [es[1]];
      } else {
        LogStep(log + [es[0]] + [es[1]], es[2]);
        assert log + es == log + [es[0]] + [es[1]] + [es[2]];
      }
    }
  }

  lemma {:induction false} AttemptCount(n: nat, es: seq<Exchange>)
    requires FailedAttempts(n, es)
    ensures OpenAttempts(es) == n
  {
    hide ConnectTraffic;
    if n > 0 {
      var k :| 0 <= k <= |es| && FailedAttempts(n - 1, es[..k]) && ConnectTraffic(es[k..], false);
      AttemptCount(n - 1, es[..k]);
      AttemptsOfConnect(es[..k], es[k..], false);
      assert es[..k] + es[k..] == es;
    }
  }

  /** At most max attempts, and exactly max when all fail. */
  lemma AttemptsBounded(max: nat, retries: nat, es: seq<Exchange>, ok: bool, retries': nat)
    requires AttemptsEffect(max, retries, es, ok, retries')
    ensures OpenAttempts(es) <= max && (!ok ==> OpenAttempts(es) == max)
  {
    hide ConnectTraffic, OpenAttempts, FailedAttempts;
    if ok {
      var n: nat, k :| n < max && 0 <= k <= |es| && FailedAttempts(n, es[..k]) && ConnectTraffic(es[k..], true);
      AttemptCount(n, es[..k]);
      AttemptsOfConnect(es[..k], es[k..], true);
      assert es[..k] + es[k..] == es;
    } else {
      AttemptCount(max, es);
    }
  }

  /** The handles that one attempt opens and closes. */
  lemma ConnectHandles(es: seq<Exchange>, ok: bool)
    requires ConnectTraffic(es, ok)
    ensures Opens(es) == (if |es| > 1 then 1 else 0) && Closes(es) == (if |es| == 3 then 1 else 0)
  {
    LogStep([], es[0]);
    if |es| == 1 {
      assert es == [] + [es[0]];
    } else {
      LogStep([] + [es[0]], es[1]);
      if |es| == 2 {
        assert es == [] + [es[0]] + [es[1]];
      } else {
        LogStep([] + [es[0]] + [es[1]], es[2]);
        assert es == [] + [es[0]] + [es[1]] + [es[2]];
      }
    }
  }
}
