/** The Windows service control loop (tailscaled_windows.go, Execute and
    handleSessionChange).

    The service manager's change requests and the supervised child's
    completion arrive, in the source, on two channels read by one select;
    here they are one input sequence of events in the order the select
    takes them.  The statuses pushed onto the `changes` channel are the
    output sequence.  The DNS flush itself runs in the background and is
    left out; the model records at which events a flush was started.
 */
module ServiceControl {

  /** svc.State */
  datatype State = Stopped | StartPending | StopPending | Running | ContinuePending | PausePending | Paused

  /** The controls a service can accept; an accepts mask is a set of these. */
  datatype Accept =
    | AcceptStop | AcceptShutdown | AcceptPauseAndContinue | AcceptParamChange
    | AcceptNetBindChange | AcceptHardwareProfileChange | AcceptPowerEvent
    | AcceptSessionChange | AcceptPreShutdown

  /** svc.Status (its check point, wait hint and exit codes are not modelled). */
  datatype Status = Status(state: State, accepts: set<Accept>)

  /** svc.Cmd: the three commands the loop handles; any other is Other. */
  datatype Cmd = Stop | Interrogate | SessionChange | Other(code: nat)

  datatype ChangeRequest = ChangeRequest(cmd: Cmd, eventType: nat, currentStatus: Status)

  /** One turn of the select: the child's done channel, or a request. */
  datatype Event = ChildDone | Request(req: ChangeRequest)

  /** What Execute has done once the input is used up: returned to the
      service manager with (svcSpecificEC, exitCode), or still waiting. */
  datatype ExecOutcome = Returned(svcSpecificEC: bool, exitCode: nat) | Waiting

  /** windows.WTS_SESSION_UNLOCK */
  const WtsSessionUnlock: nat := 8

  /** windows.NO_ERROR */
  const NoError: nat := 0

  /** The accepts mask computed from the FlushDNSOnSessionUnlock registry
      integer (0 when the value is absent). */
  function ServiceAccepts(flushDnsOnSessionUnlock: int): (a: set<Accept>)
    ensures AcceptStop in a
    ensures AcceptSessionChange in a <==> flushDnsOnSessionUnlock != 0
    ensures a <= {AcceptStop, AcceptSessionChange}
  {
    if flushDnsOnSessionUnlock != 0 then {AcceptStop, AcceptSessionChange} else {AcceptStop}
  }

  /** handleSessionChange: whether the request starts a DNS flush.  Only
      a session-change request can start one, and only for the unlock
      event; that request is still echoed and does not end the loop. */
  predicate StartsDnsFlush(req: ChangeRequest)
    ensures StartsDnsFlush(req) ==> req.cmd == SessionChange
    ensures req.eventType != WtsSessionUnlock ==> !StartsDnsFlush(req)
    ensures StartsDnsFlush(req) ==> Echoed(Request(req)) && !IsStop(Request(req))
  {
    req.cmd == SessionChange && req.eventType == WtsSessionUnlock
  }

  predicate IsStop(e: Event)
  {
    e.Request? && e.req.cmd == Stop
  }

  predicate IsUnlock(e: Event)
  {
    e.Request? && StartsDnsFlush(e.req)
  }

  /** The index of the first Stop request, or |events| when there is none. */
  function FirstStop(events: seq<Event>): (k: nat)
    ensures k <= |events|
    ensures forall j :: 0 <= j < k ==> !IsStop(events[j])
    ensures k < |events| ==> IsStop(events[k])
  {
    if events == [] then 0
    else if IsStop(events[0]) then 0
    else 1 + FirstStop(events[1..])
  }

  /** A request that Interrogate or SessionChange carries. */
  predicate Echoed(e: Event)
  {
    e.Request? && (e.req.cmd == Interrogate || e.req.cmd == SessionChange)
  }

  /** What a single event pushes while the loop runs: the request's own
      CurrentStatus for Interrogate and SessionChange, nothing otherwise. */
  function EchoOf(e: Event): seq<Status>
  {
    if Echoed(e) then [e.req.currentStatus] else []
  }

  function Echoes(events: seq<Event>): seq<Status>
  {
    if events == [] then [] else Echoes(events[..|events| - 1]) + EchoOf(events[|events| - 1])
  }

  /** Every status the loop pushes is the CurrentStatus of an Interrogate or
      SessionChange request among the events, returned unchanged, and
      nothing is pushed exactly when there is no such request. */
  lemma {:induction false} EchoesAreCurrentStatuses(events: seq<Event>)
    ensures forall s :: s in Echoes(events) ==>
      exists j :: 0 <= j < |events| && Echoed(events[j]) && events[j].req.currentStatus == s
    ensures (forall j :: 0 <= j < |events| ==> !Echoed(events[j])) <==> Echoes(events) == []
  {
    if events != [] {
      var init := events[..|events| - 1];
      EchoesAreCurrentStatuses(init);
      forall s | s in Echoes(events)
        ensures exists j :: 0 <= j < |events| && Echoed(events[j]) && events[j].req.currentStatus == s
      {
        if s in Echoes(init) {
          var j :| 0 <= j < |init| && Echoed(init[j]) && init[j].req.currentStatus == s;
          assert events[j] == init[j];
        } else {
          assert s in EchoOf(events[|events| - 1]);
        }
      }
      if Echoes(events) == [] {
        assert Echoes(init) == [];
        forall j | 0 <= j < |events| ensures !Echoed(events[j]) {
          if j < |init| { assert events[j] == init[j]; }
        }
      }
      if forall j :: 0 <= j < |events| ==> !Echoed(events[j]) {
        forall j | 0 <= j < |init| ensures !Echoed(init[j]) {
          assert events[j] == init[j];
        }
      }
    }
  }

  lemma {:induction false} EchoesAppend(a: seq<Event>, b: seq<Event>)
    ensures Echoes(a + b) == Echoes(a) + Echoes(b)
  {
    if b == [] {
      assert a + b == a;
    } else {
      var init := b[..|b| - 1];
      var ab := a + b;
      assert ab[..|ab| - 1] == a + init;
      assert ab[|ab| - 1] == b[|b| - 1];
      EchoesAppend(a, init);
      var ea, ei, el := Echoes(a), Echoes(init), EchoOf(b[|b| - 1]);
      assert Echoes(ab) == (ea + ei) + el;
      assert Echoes(b) == ei + el;
      assert (ea + ei) + el == ea + (ei + el);
    }
  }

  /** The child finishing pushes nothing, starts no flush and does not end
      the loop: removing a ChildDone event leaves the pushed statuses alone. */
  lemma {:induction false} ChildDoneIsNoOp(a: seq<Event>, b: seq<Event>)
    ensures Echoes(a + [ChildDone] + b) == Echoes(a + b)
    ensures !IsStop(ChildDone) && !IsUnlock(ChildDone)
  {
    var one: seq<Event> := [ChildDone];
    assert one[..0] == [];
    assert Echoes(one) == Echoes([]) + EchoOf(ChildDone) == [];
    EchoesAppend(a + one, b);
    EchoesAppend(a, one);
    EchoesAppend(a, b);
    var ea, eb := Echoes(a), Echoes(b);
    assert Echoes(a + one) == ea;
    assert Echoes(a + one + b) == ea + eb;
  }

  /** One turn of Execute's select: the statuses pushed, the flushes
      started and whether the loop is cancelled. */
  method HandleEvent(e: Event, i: nat, pushed0: seq<Status>, flushes0: set<nat>)
    returns (pushed: seq<Status>, flushes: set<nat>, cancelled: bool)
    ensures cancelled <==> IsStop(e)
    ensures pushed == pushed0 + EchoOf(e)
    ensures flushes == if IsUnlock(e) then flushes0 + {i} else flushes0
  {
    pushed, flushes, cancelled := pushed0, flushes0, false;
    match e {
      case ChildDone =>
      case Request(req) =>
        match req.cmd {
          case Stop =>
            cancelled := true;
          case Interrogate =>
            pushed := pushed + [req.currentStatus];
          case SessionChange =>
            if StartsDnsFlush(req) {
              flushes := flushes + {i};
            }
            pushed := pushed + [req.currentStatus];
          case Other(_) =>
        }
    }
  }

  /** ipnService.Execute over a finite event sequence.  `flushes` holds the
      indices of the events at which a DNS flush was started, `consumed`
      how many events the loop took. */
  method Execute(flushDnsOnSessionUnlock: int, events: seq<Event>)
    returns (pushed: seq<Status>, flushes: set<nat>, consumed: nat, outcome: ExecOutcome)
    ensures consumed == if FirstStop(events) < |events| then FirstStop(events) + 1 else |events|
    ensures outcome.Returned? <==> FirstStop(events) < |events|
    ensures outcome.Returned? ==> outcome == Returned(false, NoError)
    ensures |pushed| >= 2
    ensures pushed[0] == Status(StartPending, {})
    ensures pushed[1] == Status(Running, ServiceAccepts(flushDnsOnSessionUnlock))
    ensures outcome.Returned? ==>
      pushed == [pushed[0], pushed[1]] + Echoes(events[..consumed]) + [Status(StopPending, {})]
    ensures outcome.Returned? ==> pushed[|pushed| - 1] == Status(StopPending, {})
    ensures outcome.Waiting? ==>
      pushed == [pushed[0], pushed[1]] + Echoes(events[..consumed])
    ensures forall j: nat :: j in flushes <==> j < consumed && IsUnlock(events[j])
  {
    pushed := [Status(StartPending, {})];
    var accepts := ServiceAccepts(flushDnsOnSessionUnlock);
    pushed := pushed + [Status(Running, accepts)];
    ghost var head := pushed;
    flushes := {};
    var cancelled := false;
    var i := 0;
    while !cancelled && i < |events|
      invariant 0 <= i <= |events|
      invariant !cancelled ==> i <= FirstStop(events)
      invariant cancelled ==> i == FirstStop(events) + 1
      invariant pushed == head + Echoes(events[..i])
      invariant forall j: nat :: j in flushes <==> j < i && IsUnlock(events[j])
    {
      assert events[..i + 1][..i] == events[..i];
      assert Echoes(events[..i + 1]) == Echoes(events[..i]) + EchoOf(events[i]);
      pushed, flushes, cancelled := HandleEvent(events[i], i, pushed, flushes);
      i := i + 1;
    }
    consumed := i;
    if cancelled {
      pushed := pushed + [Status(StopPending, {})];
      outcome := Returned(false, NoError);
    } else {
      outcome := Waiting;
    }
  }
}
