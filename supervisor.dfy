/** The engine supervisor goroutine and the getEngine accessor
    (tailscaled_windows.go, startIPNServer).

    The supervisor builds the engine again and again until one attempt
    succeeds, handing each attempt's result over an unbuffered channel and
    waiting for a 5-second timer before the next attempt.  The accessor
    takes results off that channel, dropping failures during early boot.

    Concurrency is sequentialised: the accessor receives handoff k before
    attempt k+1 starts.  Time is an integer number of milliseconds since
    t0, the moment just before the supervisor starts; each attempt's build
    duration and how long its hand-off waits for a receiver are inputs.
    The accessor takes the process age and system uptime at each receive
    as inputs, since the uptime is a foreign call; Deliveries derives them
    from a schedule and the system uptime at t0.
 */
module EngineSupervisor {
  import opened EngineBuild
  import opened Seqs

  /** The timer started after each construction: 5 * time.Second. */
  const RetryDelayMs: int := 5000
  /** Failures are dropped while the process is younger than a minute ... */
  const GraceProcessAgeMs: int := 60000
  /** ... or the system has been up for less than ten minutes. */
  const GraceSysUptimeMs: int := 600000

  /** What one try of the supervisor meets: the collaborators' answers,
      how long construction takes and how long the hand-off blocks. */
  datatype AttemptInput = AttemptInput(steps: StepResults, buildMs: nat, sendWaitMs: nat)

  /** One try as the supervisor runs it. */
  datatype Handoff = Handoff(try: nat, startMs: int, finishMs: int, deliveredMs: int, result: EngineOrError)

  function Max(a: int, b: int): int
  {
    if a < b then b else a
  }

  // ---------------------------------------------------------------------
  // Supervisor
  // ---------------------------------------------------------------------

  /** The record of one try started at startMs. */
  function TryRecord(a: AttemptInput, startMs: int, try: nat): Handoff
  {
    var finish := startMs + a.buildMs;
    Handoff(try, startMs, finish, finish + a.sendWaitMs, EngineOutcome(a.steps))
  }

  /** When the try after a failed one starts: once the timer has fired and
      the hand-off has completed. */
  function NextStart(h: Handoff): int
  {
    Max(h.finishMs + RetryDelayMs, h.deliveredMs)
  }

  /** The tries the supervisor makes, numbered from `try`, starting at
      `startMs`. */
  function Schedule(attempts: seq<AttemptInput>, startMs: int, try: nat): seq<Handoff>
    decreases |attempts|
  {
    if attempts == [] then []
    else
      var h := TryRecord(attempts[0], startMs, try);
      if h.result.Built? then [h]
      else [h] + Schedule(attempts[1..], NextStart(h), try + 1)
  }

  /** One try: build the engine, then hand the result over.  The
      construction time and the time the send blocks are inputs. */
  method RunTry(a: AttemptInput, start: int, try: nat) returns (h: Handoff)
    ensures h.try == try && h.startMs == start
    ensures h.finishMs == start + a.buildMs && h.deliveredMs == h.finishMs + a.sendWaitMs
    ensures h.result == EngineOutcome(a.steps)
  {
    var res, closed := GetEngineRaw(a.steps);
    var finish := start + a.buildMs;
    // The hand-off completes once a receiver has taken the result.
    var delivered := finish + a.sendWaitMs;
    h := Handoff(try, start, finish, delivered, res);
  }

  /** The supervisor goroutine's loop, over as many tries as there are
      inputs. */
  method Supervise(attempts: seq<AttemptInput>) returns (handoffs: seq<Handoff>)
    ensures handoffs == Schedule(attempts, 0, 1)
  {
    handoffs := [];
    var t := 0;
    var try := 1;
    var i := 0;
    ghost var all := Schedule(attempts, 0, 1);
    assert attempts[0..] == attempts;
    while i < |attempts|
      invariant 0 <= i <= |attempts|
      invariant try == i + 1
      invariant handoffs + Schedule(attempts[i..], t, try) == all
    {
      var a := attempts[i];
      assert attempts[i..][0] == a && attempts[i..][1..] == attempts[i + 1..];
      var h := RunTry(a, t, try);
      assert h == TryRecord(a, t, try);
      var timerFires := h.finishMs + RetryDelayMs;
      ghost var before := handoffs;
      handoffs := handoffs + [h];
      if h.result.Built? {
        // A success stops the timer and ends the loop.
        return;
      }
      // The wait for the timer is over at once when it fired during the hand-off.
      t := Max(timerFires, h.deliveredMs);
      assert t == NextStart(h);
      ConcatAssoc(before, [h], Schedule(attempts[i + 1..], t, try + 1));
      try := try + 1;
      i := i + 1;
    }
    assert attempts[i..] == [];
  }

  /** A try's record agrees with its input: its number, its result and
      its timing. */
  predicate TryMatches(h: Handoff, a: AttemptInput, try: int)
  {
    && h.try == try
    && h.result == EngineOutcome(a.steps)
    && h.finishMs == h.startMs + a.buildMs
    && h.deliveredMs == h.finishMs + a.sendWaitMs
  }

  /** Tries are numbered consecutively and each carries the result of its
      own construction, with its timing. */
  lemma {:induction false} ScheduleTries(attempts: seq<AttemptInput>, startMs: int, try: nat)
    ensures |Schedule(attempts, startMs, try)| <= |attempts|
    ensures attempts != [] ==> |Schedule(attempts, startMs, try)| > 0 && Schedule(attempts, startMs, try)[0].startMs == startMs
    ensures forall k :: 0 <= k < |Schedule(attempts, startMs, try)| ==>
      TryMatches(Schedule(attempts, startMs, try)[k], attempts[k], try + k)
    decreases |attempts|
  {
    if attempts != [] {
      var s := Schedule(attempts, startMs, try);
      var h := TryRecord(attempts[0], startMs, try);
      var next := NextStart(h);
      assert TryMatches(s[0], attempts[0], try);
      if h.result.Failed? {
        var rest := Schedule(attempts[1..], next, try + 1);
        ScheduleTries(attempts[1..], next, try + 1);
        forall k | 1 <= k < |s| ensures TryMatches(s[k], attempts[k], try + k) {
          assert s[k] == rest[k - 1];
          assert attempts[1..][k - 1] == attempts[k];
        }
      }
    }
  }

  /** The supervisor stops for good after the first success and only
      then: every try but the last failed, and the last one succeeded
      unless the inputs ran out. */
  lemma {:induction false} ScheduleStopsAtSuccess(attempts: seq<AttemptInput>, startMs: int, try: nat)
    ensures var s := Schedule(attempts, startMs, try);
      && (forall k :: 0 <= k < |s| - 1 ==> s[k].result.Failed?)
      && (|s| < |attempts| ==> |s| > 0 && s[|s| - 1].result.Built?)
    decreases |attempts|
  {
    if attempts != [] {
      var s := Schedule(attempts, startMs, try);
      var h := TryRecord(attempts[0], startMs, try);
      var next := NextStart(h);
      if h.result.Failed? {
        var rest := Schedule(attempts[1..], next, try + 1);
        ScheduleStopsAtSuccess(attempts[1..], next, try + 1);
        forall k | 0 <= k < |s| - 1 ensures s[k].result.Failed? {
          if k > 0 { assert s[k] == rest[k - 1]; }
        }
        if |rest| > 0 { assert s[|s| - 1] == rest[|rest| - 1]; }
      }
    }
  }

  /** After a failed try the next one starts when both the 5 s timer has
      fired and the hand-off has completed. */
  lemma {:induction false} ScheduleNextStart(attempts: seq<AttemptInput>, startMs: int, try: nat)
    ensures forall k :: 0 <= k < |Schedule(attempts, startMs, try)| - 1 ==>
      Schedule(attempts, startMs, try)[k + 1].startMs
        == Max(Schedule(attempts, startMs, try)[k].finishMs + RetryDelayMs, Schedule(attempts, startMs, try)[k].deliveredMs)
    decreases |attempts|
  {
    if attempts != [] {
      var s := Schedule(attempts, startMs, try);
      var h := TryRecord(attempts[0], startMs, try);
      var next := NextStart(h);
      if h.result.Failed? {
        var rest := Schedule(attempts[1..], next, try + 1);
        assert s == [s[0]] + rest;
        ScheduleNextStart(attempts[1..], next, try + 1);
        ScheduleTries(attempts[1..], next, try + 1);
        forall k | 0 <= k < |s| - 1
          ensures s[k + 1].startMs == Max(s[k].finishMs + RetryDelayMs, s[k].deliveredMs)
        {
          if k == 0 {
            assert s[1] == rest[0];
          } else {
            assert s[k] == rest[k - 1] && s[k + 1] == rest[k];
          }
        }
      }
    }
  }

  /** The time from the end of a failed construction to the start of the
      next try, and so from one try's start to the next, is at least 5 s. */
  lemma ScheduleSpacing(attempts: seq<AttemptInput>, startMs: int, try: nat)
    ensures forall k :: 0 <= k < |Schedule(attempts, startMs, try)| - 1 ==>
      && Schedule(attempts, startMs, try)[k + 1].startMs >= Schedule(attempts, startMs, try)[k].finishMs + RetryDelayMs
      && Schedule(attempts, startMs, try)[k + 1].startMs >= Schedule(attempts, startMs, try)[k].startMs + RetryDelayMs
  {
    ScheduleNextStart(attempts, startMs, try);
    ScheduleTries(attempts, startMs, try);
  }

  // ---------------------------------------------------------------------
  // Accessor
  // ---------------------------------------------------------------------

  /** One receive from the channel, with the clock readings taken there. */
  datatype Received = Received(result: EngineOrError, processAgeMs: int, sysUptimeMs: int)

  /** getEngine's answer, or StillWaiting when the inputs run out while it
      is still blocked on the channel. */
  datatype Access = GotEngine(engine: Engine) | GaveUp(err: string) | StillWaiting

  datatype AccessorRun = AccessorRun(res: Access, consumed: nat)

  predicate InGraceWindow(r: Received)
  {
    r.processAgeMs < GraceProcessAgeMs || r.sysUptimeMs < GraceSysUptimeMs
  }

  /** A received value the accessor drops and keeps waiting after. */
  predicate Dropped(r: Received)
  {
    r.result.Failed? && InGraceWindow(r)
  }

  /** The index of the first received value the accessor does not drop. */
  function FirstKept(inbox: seq<Received>): (k: nat)
    ensures k <= |inbox|
    ensures forall j :: 0 <= j < k ==> Dropped(inbox[j])
    ensures k < |inbox| ==> !Dropped(inbox[k])
  {
    if inbox == [] then 0
    else if !Dropped(inbox[0]) then 0
    else 1 + FirstKept(inbox[1..])
  }

  /** What getEngine does with TS_DEBUG_WIN_FAIL = debugFail and the given
      receives. */
  function Accessor(debugFail: string, logid: string, inbox: seq<Received>): AccessorRun
  {
    if debugFail != "" then AccessorRun(GaveUp("pretending to be a service failure: " + debugFail), 0)
    else
      var k := FirstKept(inbox);
      if k == |inbox| then AccessorRun(StillWaiting, k)
      else if inbox[k].result.Built? then AccessorRun(GotEngine(inbox[k].result.engine), k + 1)
      else AccessorRun(GaveUp(inbox[k].result.err + "\n\nlogid: " + logid), k + 1)
  }

  /** The getEngine closure: its receive loop. */
  method GetEngine(debugFail: string, logid: string, inbox: seq<Received>) returns (res: Access, consumed: nat)
    ensures AccessorRun(res, consumed) == Accessor(debugFail, logid, inbox)
  {
    if debugFail != "" {
      return GaveUp("pretending to be a service failure: " + debugFail), 0;
    }
    var i := 0;
    while i < |inbox|
      invariant i <= FirstKept(inbox)
    {
      var r := inbox[i];
      if r.result.Built? {
        return GotEngine(r.result.engine), i + 1;
      }
      if InGraceWindow(r) {
        i := i + 1;
        continue;
      }
      return GaveUp(r.result.err + "\n\nlogid: " + logid), i + 1;
    }
    return StillWaiting, i;
  }

  /** The accessor's contract in the terms of its callers: the debug
      override fails at once and consumes nothing; otherwise it returns
      the first engine received, or the first failure received outside the
      grace window annotated with the log id, and every value before that
      was a failure inside the window. */
  lemma AccessorPolicy(debugFail: string, logid: string, inbox: seq<Received>)
    ensures var run := Accessor(debugFail, logid, inbox);
      && (debugFail != "" ==>
            run.consumed == 0 && run.res == GaveUp("pretending to be a service failure: " + debugFail))
      && (debugFail == "" ==>
        && run.consumed <= |inbox|
        && (forall j :: 0 <= j < run.consumed - 1 ==> inbox[j].result.Failed? && InGraceWindow(inbox[j]))
        && (run.res.GotEngine? ==> inbox[run.consumed - 1].result.Built?)
        && (run.res.GaveUp? ==>
              && run.consumed > 0 && inbox[run.consumed - 1].result.Failed?
              && !InGraceWindow(inbox[run.consumed - 1])
              && run.res.err == inbox[run.consumed - 1].result.err + "\n\nlogid: " + logid)
        && (run.res.StillWaiting? <==> forall j :: 0 <= j < |inbox| ==> Dropped(inbox[j])))
  {
    if debugFail == "" {
      var k := FirstKept(inbox);
      if k == |inbox| {
        assert forall j :: 0 <= j < |inbox| ==> Dropped(inbox[j]);
      } else {
        assert !Dropped(inbox[k]);
      }
    }
  }

  // ---------------------------------------------------------------------
  // Supervisor and accessor together
  // ---------------------------------------------------------------------

  /** What the accessor receives from a schedule, given the system uptime
      at t0: the age is the delivery time, the uptime grows with it. */
  function Deliveries(h: seq<Handoff>, bootUptimeMs: int): (inbox: seq<Received>)
    ensures |inbox| == |h|
  {
    seq(|h|, k requires 0 <= k < |h| => Received(h[k].result, h[k].deliveredMs, bootUptimeMs + h[k].deliveredMs))
  }

  /** Failures delivered inside the grace window never reach getEngine's
      caller. */
  lemma EarlyFailuresNeverSurface(attempts: seq<AttemptInput>, bootUptimeMs: int, logid: string)
    requires var h := Schedule(attempts, 0, 1);
      forall k :: 0 <= k < |h| ==> h[k].result.Failed? ==>
        h[k].deliveredMs < GraceProcessAgeMs || bootUptimeMs + h[k].deliveredMs < GraceSysUptimeMs
    ensures !Accessor("", logid, Deliveries(Schedule(attempts, 0, 1), bootUptimeMs)).res.GaveUp?
  {
    var inbox := Deliveries(Schedule(attempts, 0, 1), bootUptimeMs);
    var k := FirstKept(inbox);
    if k < |inbox| {
      assert !Dropped(inbox[k]);
    }
  }

  /** A schedule whose first n tries fail and whose try n+1 succeeds has
      exactly n+1 tries. */
  lemma {:induction false} ScheduleLength(attempts: seq<AttemptInput>, startMs: int, try: nat, n: nat)
    requires n < |attempts|
    requires forall k :: 0 <= k < n ==> EngineOutcome(attempts[k].steps).Failed?
    requires EngineOutcome(attempts[n].steps).Built?
    ensures |Schedule(attempts, startMs, try)| == n + 1
    decreases n
  {
    var h := TryRecord(attempts[0], startMs, try);
    var next := NextStart(h);
    if n > 0 {
      assert EngineOutcome(attempts[0].steps).Failed?;
      var tail := attempts[1..];
      forall k | 0 <= k < n - 1 ensures EngineOutcome(tail[k].steps).Failed? {
        assert tail[k] == attempts[k + 1];
      }
      assert tail[n - 1] == attempts[n];
      ScheduleLength(tail, next, try + 1, n - 1);
      assert Schedule(attempts, startMs, try) == [h] + Schedule(tail, next, try + 1);
    } else {
      assert Schedule(attempts, startMs, try) == [h];
    }
  }

  lemma {:induction false} FirstKeptAt(inbox: seq<Received>, n: nat)
    requires n < |inbox|
    requires forall j :: 0 <= j < n ==> Dropped(inbox[j])
    requires !Dropped(inbox[n])
    ensures FirstKept(inbox) == n
    decreases n
  {
    if n > 0 {
      assert Dropped(inbox[0]);
      FirstKeptAt(inbox[1..], n - 1);
    }
  }

  /** N failed tries inside the grace window followed by a successful one:
      getEngine returns that engine from try N+1 and has consumed exactly
      N+1 hand-offs, none earlier. */
  lemma EngineAfterEarlyFailures(attempts: seq<AttemptInput>, n: nat, bootUptimeMs: int, logid: string)
    requires n < |attempts|
    requires forall k :: 0 <= k < n ==> EngineOutcome(attempts[k].steps).Failed?
    requires EngineOutcome(attempts[n].steps).Built?
    requires var h := Schedule(attempts, 0, 1);
      forall k :: 0 <= k < |h| ==> h[k].result.Failed? ==>
        h[k].deliveredMs < GraceProcessAgeMs || bootUptimeMs + h[k].deliveredMs < GraceSysUptimeMs
    ensures |Schedule(attempts, 0, 1)| == n + 1
    ensures Schedule(attempts, 0, 1)[n].try == n + 1
    ensures Accessor("", logid, Deliveries(Schedule(attempts, 0, 1), bootUptimeMs)) == AccessorRun(GotEngine(Watchdog), n + 1)
  {
    var h := Schedule(attempts, 0, 1);
    ScheduleLength(attempts, 0, 1, n);
    ScheduleTries(attempts, 0, 1);
    var inbox := Deliveries(h, bootUptimeMs);
    forall j | 0 <= j < n ensures Dropped(inbox[j]) {
      assert inbox[j].result == h[j].result == EngineOutcome(attempts[j].steps);
    }
    assert inbox[n].result == EngineOutcome(attempts[n].steps);
    FirstKeptAt(inbox, n);
  }

  /** A failure received outside the grace window, after only dropped
      values, is returned at once, annotated with the log id, and nothing
      received after it is taken. */
  lemma LateFailureReturnedAtOnce(logid: string, inbox: seq<Received>, k: nat)
    requires k < |inbox|
    requires forall j :: 0 <= j < k ==> Dropped(inbox[j])
    requires inbox[k].result.Failed? && !InGraceWindow(inbox[k])
    ensures Accessor("", logid, inbox) == AccessorRun(GaveUp(inbox[k].result.err + "\n\nlogid: " + logid), k + 1)
  {
    FirstKeptAt(inbox, k);
  }

  /** What the accessor receives first from a schedule: the result of
      try 1, delivered when its construction and hand-off are over. */
  lemma FirstDelivery(attempts: seq<AttemptInput>, bootUptimeMs: int)
    requires attempts != []
    ensures |Deliveries(Schedule(attempts, 0, 1), bootUptimeMs)| > 0
    ensures Deliveries(Schedule(attempts, 0, 1), bootUptimeMs)[0]
      == Received(EngineOutcome(attempts[0].steps), attempts[0].buildMs + attempts[0].sendWaitMs,
                  bootUptimeMs + attempts[0].buildMs + attempts[0].sendWaitMs)
  {
    var first := TryRecord(attempts[0], 0, 1);
    assert Schedule(attempts, 0, 1)[0] == first;
  }

  /** Try 1 fails at t = 0 during early boot; try 2, started 5 s later,
      succeeds: the engine of try 2 is returned and no error surfaces. */
  lemma ScenarioEarlyFailureThenEngine(ok: StepResults, bad: StepResults, logid: string)
    requires EngineOutcome(ok).Built? && EngineOutcome(bad).Failed?
    ensures |Schedule([AttemptInput(bad, 0, 0), AttemptInput(ok, 0, 0)], 0, 1)| == 2
    ensures Schedule([AttemptInput(bad, 0, 0), AttemptInput(ok, 0, 0)], 0, 1)[1].startMs == 5000
    ensures Accessor("", logid, Deliveries(Schedule([AttemptInput(bad, 0, 0), AttemptInput(ok, 0, 0)], 0, 1), 0))
      == AccessorRun(GotEngine(Watchdog), 2)
  {
    var attempts := [AttemptInput(bad, 0, 0), AttemptInput(ok, 0, 0)];
    EngineAfterEarlyFailures(attempts, 1, 0, logid);
    ScheduleNextStart(attempts, 0, 1);
    ScheduleTries(attempts, 0, 1);
  }

  /** At 700 s, past the grace window, a try fails with "access denied":
      the error comes back with the log id, after one receive. */
  lemma ScenarioAccessDenied(logid: string)
    ensures Accessor("", logid, [Received(Failed("access denied"), 700000, 700000)])
      == AccessorRun(GaveUp("access denied\n\nlogid: " + logid), 1)
  {
    var inbox := [Received(Failed("access denied"), 700000, 700000)];
    FirstKeptAt(inbox, 0);
    assert "access denied" + "\n\nlogid: " + logid == "access denied\n\nlogid: " + logid;
  }
}
