/**
 * The polling loop of `main` in main.py as a sequential state machine. One
 * pass of the `while True` body issues a long-polling request for the current
 * cursor and meets one outcome; the state is the cursor `timestamp`, the
 * counter `failed_connections` and whether the loop has ended after an
 * exception it does not catch.
 */
module PollingLoop {
  import opened Wrappers
  import opened ReviewApi
  import opened Notifier

  /**
   * What one pass of the loop body meets: the two exceptions it catches, any
   * other exception raised by the request (an HTTP error, undecodable JSON),
   * or a decoded body. `sendFailsAt` is the index of the first send the bot
   * transport rejects, if any.
   */
  datatype Outcome =
    | ReadTimeout
    | ConnectionError
    | OtherError
    | Response(body: Body, sendFailsAt: Option<nat>)

  /** Every fifth connection error (counted since start) is followed by a pause. */
  const BackoffEvery: nat := 5

  datatype LoopState = LoopState(cursor: Value, failedConnections: nat, halted: bool)

  /** `timestamp = None`, `failed_connections = 0`. */
  const Initial: LoopState := LoopState(Null, 0, false)

  /** What one pass observably does: the request it issues, the texts it sends, whether it sleeps, whether it logs the crash. */
  datatype StepOutput = StepOutput(request: Option<Request>, sent: seq<string>, slept: bool, crashed: bool)

  /** The output of a pass after the loop has ended: nothing happens. */
  const Quiet: StepOutput := StepOutput(None, [], false, false)

  datatype Transition = Transition(state: LoopState, out: StepOutput)

  /** The cursor a successful response moves to, if the outcome is one. */
  function Advance(o: Outcome): Option<Value>
  {
    match o
    case Response(body, _) => NewCursor(body)
    case _ => None
  }

  /** Whether an outcome raises an exception the loop does not catch. */
  predicate Fatal(o: Outcome)
    ensures o.ReadTimeout? || o.ConnectionError? ==> !Fatal(o)
    ensures o.OtherError? ==> Fatal(o)
    ensures o.Response? && o.body.newAttempts.None? ==> Fatal(o)
  {
    match o
    case ReadTimeout => false
    case ConnectionError => false
    case OtherError => true
    case Response(body, failAt) => NewCursor(body).None? || Dispatch(body.newAttempts, failAt).crashed
  }

  /** One pass of the loop body. */
  function Next(s: LoopState, o: Outcome, token: string): (t: Transition)
    ensures s.halted ==> t == Transition(s, Quiet)
    ensures !s.halted ==> t.out.request == Some(LongPollingRequest(s.cursor, token))
    ensures !s.halted ==> (t.state.halted <==> Fatal(o))
    ensures t.out.crashed <==> !s.halted && t.state.halted
    ensures t.state.failedConnections == s.failedConnections + (if !s.halted && o.ConnectionError? then 1 else 0)
    ensures t.out.slept <==> !s.halted && o.ConnectionError? && t.state.failedConnections % BackoffEvery == 0
    ensures !s.halted && Advance(o).Some? ==> t.state.cursor == Advance(o).value
    ensures Advance(o).None? ==> t.state.cursor == s.cursor
  {
    if s.halted then Transition(s, Quiet)
    else
      var request := Some(LongPollingRequest(s.cursor, token));
      match o
      case ReadTimeout => Transition(s, StepOutput(request, [], false, false))
      case ConnectionError =>
        var failed := s.failedConnections + 1;
        Transition(s.(failedConnections := failed), StepOutput(request, [], failed % BackoffEvery == 0, false))
      case OtherError => Transition(s.(halted := true), StepOutput(request, [], false, true))
      case Response(body, failAt) =>
        match NewCursor(body)
        case None => Transition(s.(halted := true), StepOutput(request, [], false, true))
        case Some(cursor) =>
          var d := Dispatch(body.newAttempts, failAt);
          Transition(s.(cursor := cursor, halted := d.crashed),
                     StepOutput(request, Texts(d.delivered), false, d.crashed))
  }

  /** The state after the loop body has met each outcome in turn. */
  function Final(s: LoopState, os: seq<Outcome>, token: string): (f: LoopState)
    ensures s.halted ==> f == s
    ensures f.failedConnections >= s.failedConnections
    decreases |os|
  {
    if os == [] then s
    else Next(Final(s, os[..|os| - 1], token), os[|os| - 1], token).state
  }

  /** The outputs of the passes over each outcome in turn. */
  function Trace(s: LoopState, os: seq<Outcome>, token: string): (outs: seq<StepOutput>)
    ensures |outs| == |os|
    decreases |os|
  {
    if os == [] then []
    else Trace(s, os[..|os| - 1], token) + [Next(Final(s, os[..|os| - 1], token), os[|os| - 1], token).out]
  }

  /** The cursor of the most recent successful response, or `start` if there was none. */
  function CursorAfter(start: Value, os: seq<Outcome>): Value
    decreases |os|
  {
    if os == [] then start
    else match Advance(os[|os| - 1])
      case Some(c) => c
      case None => CursorAfter(start, os[..|os| - 1])
  }

  function ConnectionErrors(os: seq<Outcome>): nat
    decreases |os|
  {
    if os == [] then 0
    else ConnectionErrors(os[..|os| - 1]) + (if os[|os| - 1].ConnectionError? then 1 else 0)
  }

  function Sleeps(outs: seq<StepOutput>): nat
    decreases |outs|
  {
    if outs == [] then 0
    else Sleeps(outs[..|outs| - 1]) + (if outs[|outs| - 1].slept then 1 else 0)
  }

  // ---------------------------------------------------------------------------
  // One pass

  /** A read timeout changes nothing and sends nothing. */
  lemma ReadTimeoutIsQuiet(s: LoopState, token: string)
    requires !s.halted
    ensures Next(s, ReadTimeout, token) ==
            Transition(s, StepOutput(Some(LongPollingRequest(s.cursor, token)), [], false, false))
  {
  }

  /** A connection error counts once, keeps the cursor, and sleeps when the count reaches a multiple of five. */
  lemma ConnectionErrorBacksOff(s: LoopState, token: string)
    requires !s.halted
    ensures var t := Next(s, ConnectionError, token);
            && t.state == s.(failedConnections := s.failedConnections + 1)
            && t.out.sent == [] && !t.out.crashed
            && (t.out.slept <==> (s.failedConnections + 1) % BackoffEvery == 0)
  {
  }

  /** Any exception the loop does not catch, raised by the request, ends the loop with one crash log. */
  lemma OtherErrorHalts(s: LoopState, token: string)
    requires !s.halted
    ensures var t := Next(s, OtherError, token);
            && t.state == s.(halted := true)
            && t.out.crashed && t.out.sent == [] && !t.out.slept
  {
  }

  /**
   * A response moves the cursor to `last_attempt_timestamp` when the status
   * is "found" and to `timestamp_to_request` otherwise, leaves the counter
   * as it is, and sends the texts of the delivered attempts whatever the
   * status. The cursor has moved even when the sending then raises.
   */
  lemma ResponseMovesCursor(s: LoopState, body: Body, failAt: Option<nat>, token: string)
    requires !s.halted && body.status.Some?
    requires body.status == Some("found") ==> body.lastAttemptTimestamp.Some?
    requires body.status != Some("found") ==> body.timestampToRequest.Some?
    ensures var t := Next(s, Response(body, failAt), token);
            && t.state.cursor == (if body.status == Some("found") then body.lastAttemptTimestamp.value
                                  else body.timestampToRequest.value)
            && t.state.failedConnections == s.failedConnections
            && t.out.sent == Texts(Dispatch(body.newAttempts, failAt).delivered)
            && !t.out.slept
            && (t.state.halted <==> Dispatch(body.newAttempts, failAt).crashed)
  {
  }

  /** A response whose status key, or whose cursor key for that status, is missing ends the loop with the cursor unmoved. */
  lemma MissingCursorHalts(s: LoopState, body: Body, failAt: Option<nat>, token: string)
    requires !s.halted && NewCursor(body).None?
    ensures var t := Next(s, Response(body, failAt), token);
            && t.state == s.(halted := true) && t.out.crashed && t.out.sent == []
  {
  }

  /** When every attempt is well formed and every send succeeds, there is one text per attempt, in order, whatever the status. */
  lemma {:induction false} EveryAttemptNotified(s: LoopState, body: Body, attempts: seq<AttemptRecord>, token: string)
    requires !s.halted && NewCursor(body).Some? && body.newAttempts == Some(attempts)
    requires forall k :: 0 <= k < |attempts| ==> Decode(attempts[k]).Some?
    ensures var t := Next(s, Response(body, None), token);
            && !t.state.halted
            && |t.out.sent| == |attempts|
            && forall k :: 0 <= k < |attempts| ==> t.out.sent[k] == Format(Decode(attempts[k]).value)
  {
    DispatchSendsEveryAttempt(attempts, None);
    var d := Dispatch(body.newAttempts, None);
    forall k | 0 <= k < |attempts|
      ensures Decode(attempts[k]) == Some(d.delivered[k])
    {
      DecodeEncode(d.delivered[k]);
    }
  }

  // ---------------------------------------------------------------------------
  // Runs of the loop

  lemma {:induction false} TraceAt(s: LoopState, os: seq<Outcome>, j: nat, token: string)
    requires j < |os|
    ensures Trace(s, os, token)[j] == Next(Final(s, os[..j], token), os[j], token).out
    decreases |os|
  {
    var p := os[..|os| - 1];
    if j < |os| - 1 {
      TraceAt(s, p, j, token);
      assert p[..j] == os[..j];
    } else {
      assert p == os[..j];
    }
  }

  /** Once the loop has ended, nothing further happens. */
  lemma {:induction false} HaltedStaysQuiet(s: LoopState, os: seq<Outcome>, token: string)
    requires s.halted
    ensures Final(s, os, token) == s
    ensures forall k :: 0 <= k < |os| ==> Trace(s, os, token)[k] == Quiet
    decreases |os|
  {
    if os != [] {
      HaltedStaysQuiet(s, os[..|os| - 1], token);
    }
  }

  /** The loop has ended exactly when one of the outcomes met raises an uncaught exception. */
  lemma {:induction false} HaltsExactlyOnFatal(s: LoopState, os: seq<Outcome>, token: string)
    requires !s.halted
    ensures Final(s, os, token).halted <==> exists i :: 0 <= i < |os| && Fatal(os[i])
    decreases |os|
  {
    if os != [] {
      var p := os[..|os| - 1];
      HaltsExactlyOnFatal(s, p, token);
      if exists i :: 0 <= i < |os| && Fatal(os[i]) {
        var i :| 0 <= i < |os| && Fatal(os[i]);
        if i < |p| {
          assert Fatal(p[i]);
        }
      } else {
        forall i | 0 <= i < |p| ensures !Fatal(p[i]) {
          assert p[i] == os[i];
        }
      }
    }
  }

  /** While the loop runs, its cursor is that of the most recent successful response. */
  lemma {:induction false} CursorIsLastSuccess(s: LoopState, os: seq<Outcome>, token: string)
    requires !Final(s, os, token).halted
    ensures Final(s, os, token).cursor == CursorAfter(s.cursor, os)
    decreases |os|
  {
    if os != [] {
      CursorIsLastSuccess(s, os[..|os| - 1], token);
    }
  }

  /**
   * The first request carries `timestamp` None; every later one carries the
   * cursor of the most recent successful response; each carries the token.
   */
  lemma RequestCarriesCursor(os: seq<Outcome>, j: nat, token: string)
    requires j < |os| && !Final(Initial, os[..j], token).halted
    ensures Trace(Initial, os, token)[j].request == Some(LongPollingRequest(CursorAfter(Null, os[..j]), token))
    ensures j == 0 ==> Trace(Initial, os, token)[j].request == Some(LongPollingRequest(Null, token))
  {
    TraceAt(Initial, os, j, token);
    CursorIsLastSuccess(Initial, os[..j], token);
  }

  /** The counter counts every connection error since start, not consecutive ones: success never resets it. */
  lemma {:induction false} CounterCountsAllConnectionErrors(s: LoopState, os: seq<Outcome>, token: string)
    requires !s.halted
    requires forall i :: 0 <= i < |os| ==> !Fatal(os[i])
    ensures !Final(s, os, token).halted
    ensures Final(s, os, token).failedConnections == s.failedConnections + ConnectionErrors(os)
    decreases |os|
  {
    if os != [] {
      var p := os[..|os| - 1];
      forall i | 0 <= i < |p| ensures !Fatal(p[i]) {
        assert p[i] == os[i];
      }
      CounterCountsAllConnectionErrors(s, p, token);
    }
  }

  lemma FifthStep(n: nat)
    ensures (n + 1) / BackoffEvery == n / BackoffEvery + (if (n + 1) % BackoffEvery == 0 then 1 else 0)
  {
  }

  /** Every sleep comes from the counter reaching a new multiple of five. */
  lemma {:induction false} SleepsFollowCounter(s: LoopState, os: seq<Outcome>, token: string)
    ensures Sleeps(Trace(s, os, token)) ==
            Final(s, os, token).failedConnections / BackoffEvery - s.failedConnections / BackoffEvery
    decreases |os|
  {
    if os != [] {
      var p := os[..|os| - 1];
      SleepsFollowCounter(s, p, token);
      var outs := Trace(s, os, token);
      assert outs[..|outs| - 1] == Trace(s, p, token);
      FifthStep(Final(s, p, token).failedConnections);
    }
  }

  /** After n connection errors and no fatal outcome, the loop has slept exactly n / 5 times. */
  lemma SleepsAreFifthOfConnectionErrors(os: seq<Outcome>, token: string)
    requires forall i :: 0 <= i < |os| ==> !Fatal(os[i])
    ensures Sleeps(Trace(Initial, os, token)) == ConnectionErrors(os) / BackoffEvery
  {
    CounterCountsAllConnectionErrors(Initial, os, token);
    SleepsFollowCounter(Initial, os, token);
  }

  lemma FinalSnoc(s: LoopState, os: seq<Outcome>, j: nat, token: string)
    requires j < |os|
    ensures Final(s, os[..j + 1], token) == Next(Final(s, os[..j], token), os[j], token).state
  {
    assert os[..j + 1][..j] == os[..j];
  }

  /** Once ended, the loop stays ended on every longer prefix of the run. */
  lemma {:induction false} HaltedPersists(s: LoopState, os: seq<Outcome>, j: nat, k: nat, token: string)
    requires j <= k <= |os| && Final(s, os[..j], token).halted
    ensures Final(s, os[..k], token).halted
    decreases k - j
  {
    if j < k {
      FinalSnoc(s, os, j, token);
      HaltedPersists(s, os, j + 1, k, token);
    }
  }

  /** The crash is logged at most once in a run. */
  lemma AtMostOneCrash(s: LoopState, os: seq<Outcome>, token: string)
    ensures forall j, k :: 0 <= j < k < |os| && Trace(s, os, token)[j].crashed ==> !Trace(s, os, token)[k].crashed
  {
    forall j: nat, k: nat | j < k < |os| && Trace(s, os, token)[j].crashed
      ensures !Trace(s, os, token)[k].crashed
    {
      TraceAt(s, os, j, token);
      FinalSnoc(s, os, j, token);
      HaltedPersists(s, os, j + 1, k, token);
      TraceAt(s, os, k, token);
    }
  }

  // ---------------------------------------------------------------------------
  // Scenarios

  /** A "found" response with one approved attempt: one text naming the lesson, cursor from `last_attempt_timestamp`. */
  lemma FoundApprovedScenario(token: string)
    ensures var record := AttemptRecord(Some(false), Some("T1"), Some("/x"));
            var body := Body(Some("found"), Some(Number(100.0)), None, Some([record]));
            var t := Next(Initial, Response(body, None), token);
            && t.state == LoopState(Number(100.0), 0, false)
            && |t.out.sent| == 1
            && t.out.sent[0] == Render(Approved, "T1", LessonUrl("/x"))
            && LessonUrl("/x") == "https://dvmn.org/x"
            && Contains(t.out.sent[0], "T1") && Contains(t.out.sent[0], LessonUrl("/x"))
  {
    var record := AttemptRecord(Some(false), Some("T1"), Some("/x"));
    var body := Body(Some("found"), Some(Number(100.0)), None, Some([record]));
    EveryAttemptNotified(Initial, body, [record], token);
    FormatMentionsLesson(Attempt(false, "T1", "/x"));
    AbsolutePathExample();
  }

  /**
   * A negative review under a status other than "found" that carries only
   * `last_attempt_timestamp`: the loop reads `timestamp_to_request`, which is
   * missing, so it ends before sending anything and the cursor stays put.
   */
  lemma NegativeNotFoundScenario(s: LoopState, token: string)
    requires !s.halted
    ensures var record := AttemptRecord(Some(true), Some("T2"), Some("/y"));
            var body := Body(Some("negative-ish"), Some(Number(200.0)), None, Some([record]));
            var t := Next(s, Response(body, None), token);
            && t.state == s.(halted := true)
            && t.out.crashed && t.out.sent == []
  {
  }

  /** The same negative review under status "found": one text from the negative template, cursor 200. */
  lemma NegativeFoundScenario(s: LoopState, token: string)
    requires !s.halted
    ensures var record := AttemptRecord(Some(true), Some("T2"), Some("/y"));
            var body := Body(Some("found"), Some(Number(200.0)), None, Some([record]));
            var t := Next(s, Response(body, None), token);
            && t.state == s.(cursor := Number(200.0))
            && |t.out.sent| == 1
            && t.out.sent[0] == Render(Rejected, "T2", LessonUrl("/y"))
            && t.out.sent[0] != Render(Approved, "T2", LessonUrl("/y"))
  {
    var record := AttemptRecord(Some(true), Some("T2"), Some("/y"));
    var body := Body(Some("found"), Some(Number(200.0)), None, Some([record]));
    EveryAttemptNotified(s, body, [record], token);
    FormatChoosesTemplate(Attempt(true, "T2", "/y"));
  }

  /**
   * A "timeout" response carrying `timestamp_to_request` but no
   * `new_attempts`: the cursor moves, then reading `new_attempts` raises
   * KeyError and the loop ends, having sent nothing.
   */
  lemma TimeoutWithoutAttemptsScenario(s: LoopState, token: string)
    requires !s.halted
    ensures var body := Body(Some("timeout"), None, Some(Number(150.0)), None);
            var t := Next(s, Response(body, None), token);
            && t.state == s.(cursor := Number(150.0), halted := true)
            && t.out.crashed && t.out.sent == []
  {
  }

  /**
   * The fifth connection error sleeps; a response with no attempts after it
   * moves the cursor but leaves the counter at 5, so the next sleep comes
   * only after five more connection errors.
   */
  lemma FifthConnectionErrorScenario(s: LoopState, token: string)
    requires !s.halted && s.failedConnections == 4
    ensures var ok := Response(Body(Some("timeout"), None, Some(Number(150.0)), Some([])), None);
            var t1 := Next(s, ConnectionError, token);
            var t2 := Next(t1.state, ok, token);
            && t1.out.slept && t1.state.failedConnections == 5
            && t2.state == LoopState(Number(150.0), 5, false)
            && !t2.out.slept && t2.out.sent == []
  {
  }

  // ---------------------------------------------------------------------------
  // The loop as the source runs it

  datatype LogEvent = Started | Crashed

  class Poller {
    const token: string
    var timestamp: Value
    var failedConnections: nat
    var halted: bool
    var log: seq<LogEvent>

    /** "Bot started" is logged once at the start, the crash at most once, at the end. */
    ghost predicate Valid()
      reads this
    {
      log == [Started] + (if halted then [Crashed] else [])
    }

    function State(): LoopState
      reads this
    {
      LoopState(timestamp, failedConnections, halted)
    }

    /** The set-up of `main`: cursor None, no failed connection, the start logged. */
    constructor (token: string)
      ensures Valid() && this.token == token && State() == Initial && log == [Started]
    {
      this.token := token;
      timestamp := Null;
      failedConnections := 0;
      halted := false;
      log := [Started];
    }

    /** One pass of the loop body; on an uncaught exception the crash is logged and the loop ends. */
    method Step(o: Outcome) returns (out: StepOutput)
      requires Valid()
      modifies this
      ensures Valid()
      ensures Transition(State(), out) == Next(old(State()), o, token)
      ensures log == old(log) + (if out.crashed then [Crashed] else [])
    {
      if halted {
        return Quiet;
      }
      var request := LongPollingRequest(timestamp, token);
      match o {
        case ReadTimeout =>
          out := StepOutput(Some(request), [], false, false);
        case ConnectionError =>
          failedConnections := failedConnections + 1;
          out := StepOutput(Some(request), [], failedConnections % BackoffEvery == 0, false);
        case OtherError =>
          halted := true;
          log := log + [Crashed];
          out := StepOutput(Some(request), [], false, true);
        case Response(body, failAt) =>
          var next := NewCursor(body);
          if next.None? {
            halted := true;
            log := log + [Crashed];
            return StepOutput(Some(request), [], false, true);
          }
          timestamp := next.value;
          var sent, ok := SendMessages(body.newAttempts, failAt);
          TextsOf(sent, Dispatch(body.newAttempts, failAt).delivered);
          if !ok {
            halted := true;
            log := log + [Crashed];
          }
          out := StepOutput(Some(request), sent, false, !ok);
      }
    }

    /** The `while True` loop over a finite run of outcomes; past a crash every pass is Quiet. */
    method Run(outcomes: seq<Outcome>) returns (outs: seq<StepOutput>)
      requires Valid()
      modifies this
      ensures Valid()
      ensures outs == Trace(old(State()), outcomes, token)
      ensures State() == Final(old(State()), outcomes, token)
    {
      outs := [];
      var i := 0;
      while i < |outcomes|
        invariant 0 <= i <= |outcomes|
        invariant Valid()
        invariant outs == Trace(old(State()), outcomes[..i], token)
        invariant State() == Final(old(State()), outcomes[..i], token)
      {
        var out := Step(outcomes[i]);
        assert outcomes[..i + 1][..i] == outcomes[..i];
        outs := outs + [out];
        i := i + 1;
      }
      assert outcomes[..|outcomes|] == outcomes;
    }
  }
}
