/** One end-to-end engine construction (tailscaled_windows.go, the
    getEngineRaw closure in startIPNServer).

    Six collaborators are created in turn: the TUN device, the router, the
    OS DNS configurator, the userspace engine, the netstack and its start.
    Each either succeeds or fails with an error text; those answers are
    the input.  The model records which resources the closure closes, in
    order, and the error it returns.  The cleanup is reproduced as the
    source has it, including what it leaves open.
 */
module EngineBuild {

  datatype Outcome = Ok | Fail(err: string)

  /** The answer of each collaborator, for one attempt. */
  datatype StepResults = StepResults(
    tun: Outcome,
    router: Outcome,
    dns: Outcome,
    engine: Outcome,
    netstackCreate: Outcome,
    netstackStart: Outcome)

  datatype Step = TunStep | RouterStep | DnsStep | EngineStep | NetstackCreateStep | NetstackStartStep

  /** What a step creates, once it has succeeded. */
  datatype Resource = TunDevice | Router | DnsConfigurator | UserspaceEngine | Netstack

  /** The engine handle given out: the userspace engine under a watchdog. */
  datatype Engine = Watchdog

  datatype EngineOrError = Built(engine: Engine) | Failed(err: string)

  function OutcomeOf(r: StepResults, s: Step): Outcome
  {
    match s
    case TunStep => r.tun
    case RouterStep => r.router
    case DnsStep => r.dns
    case EngineStep => r.engine
    case NetstackCreateStep => r.netstackCreate
    case NetstackStartStep => r.netstackStart
  }

  /** Position of a step in the construction order. */
  function Order(s: Step): nat
  {
    match s
    case TunStep => 0
    case RouterStep => 1
    case DnsStep => 2
    case EngineStep => 3
    case NetstackCreateStep => 4
    case NetstackStartStep => 5
  }

  /** The step that creates a resource. */
  function CreatedBy(x: Resource): Step
  {
    match x
    case TunDevice => TunStep
    case Router => RouterStep
    case DnsConfigurator => DnsStep
    case UserspaceEngine => EngineStep
    case Netstack => NetstackCreateStep
  }

  datatype Failure = NoFailure | FailedAt(step: Step)

  /** The first step that fails, if any. */
  function FirstFailure(r: StepResults): (f: Failure)
    ensures f.NoFailure? <==> forall s :: OutcomeOf(r, s).Ok?
    ensures f.FailedAt? ==> OutcomeOf(r, f.step).Fail?
    ensures f.FailedAt? ==> forall s :: Order(s) < Order(f.step) ==> OutcomeOf(r, s).Ok?
  {
    if r.tun.Fail? then assert OutcomeOf(r, TunStep).Fail?; FailedAt(TunStep)
    else if r.router.Fail? then assert OutcomeOf(r, RouterStep).Fail?; FailedAt(RouterStep)
    else if r.dns.Fail? then assert OutcomeOf(r, DnsStep).Fail?; FailedAt(DnsStep)
    else if r.engine.Fail? then assert OutcomeOf(r, EngineStep).Fail?; FailedAt(EngineStep)
    else if r.netstackCreate.Fail? then assert OutcomeOf(r, NetstackCreateStep).Fail?; FailedAt(NetstackCreateStep)
    else if r.netstackStart.Fail? then assert OutcomeOf(r, NetstackStartStep).Fail?; FailedAt(NetstackStartStep)
    else NoFailure
  }

  /** The prefix the closure puts before a failing step's error. */
  function ErrorPrefix(s: Step): string
  {
    match s
    case TunStep => "TUN: "
    case RouterStep => "router: "
    case DnsStep => "DNS: "
    case EngineStep => "engine: "
    case NetstackCreateStep => "newNetstack: "
    case NetstackStartStep => "failed to start netstack: "
  }

  /** What the closure closes, in order, when step s fails. */
  function Cleanup(s: Step): seq<Resource>
  {
    match s
    case TunStep => []
    case RouterStep => [TunDevice]
    case DnsStep => [Router, TunDevice]
    case EngineStep => [Router, TunDevice]
    case NetstackCreateStep => []
    case NetstackStartStep => []
  }

  /** The value of one getEngineRaw call. */
  function EngineOutcome(r: StepResults): (res: EngineOrError)
    ensures res.Built? <==> forall s :: OutcomeOf(r, s).Ok?
    ensures res.Failed? ==>
      res.err == ErrorPrefix(FirstFailure(r).step) + OutcomeOf(r, FirstFailure(r).step).err
  {
    match FirstFailure(r)
    case NoFailure => Built(Watchdog)
    case FailedAt(s) => Failed(ErrorPrefix(s) + OutcomeOf(r, s).err)
  }

  /** getEngineRaw, step by step: `closed` lists the Close calls made. */
  method GetEngineRaw(r: StepResults) returns (res: EngineOrError, closed: seq<Resource>)
    ensures res == EngineOutcome(r)
    ensures closed == if FirstFailure(r).FailedAt? then Cleanup(FirstFailure(r).step) else []
  {
    closed := [];
    if r.tun.Fail? {
      return Failed("TUN: " + r.tun.err), closed;
    }
    if r.router.Fail? {
      closed := closed + [TunDevice];
      return Failed("router: " + r.router.err), closed;
    }
    if r.dns.Fail? {
      closed := closed + [Router];
      closed := closed + [TunDevice];
      return Failed("DNS: " + r.dns.err), closed;
    }
    if r.engine.Fail? {
      closed := closed + [Router];
      closed := closed + [TunDevice];
      return Failed("engine: " + r.engine.err), closed;
    }
    if r.netstackCreate.Fail? {
      return Failed("newNetstack: " + r.netstackCreate.err), closed;
    }
    if r.netstackStart.Fail? {
      return Failed("failed to start netstack: " + r.netstackStart.err), closed;
    }
    return Built(Watchdog), closed;
  }

  // ---------------------------------------------------------------------
  // Properties of the cleanup
  // ---------------------------------------------------------------------

  /** Resources that exist when step s fails: those of earlier steps. */
  predicate OpenAt(s: Step, x: Resource)
  {
    Order(CreatedBy(x)) < Order(s)
  }

  /** Only resources that exist are closed, each at most once, and
      later-created ones before earlier-created ones. */
  lemma CleanupIsReverseOrder(s: Step)
    ensures forall x :: x in Cleanup(s) ==> OpenAt(s, x)
    ensures forall i, j :: 0 <= i < j < |Cleanup(s)| ==>
      Order(CreatedBy(Cleanup(s)[i])) > Order(CreatedBy(Cleanup(s)[j]))
  {
  }

  /** Up to the DNS step every resource that exists is closed; from the
      engine step on, the DNS configurator (and after it the engine) is
      left open. */
  lemma CleanupCoverage(s: Step)
    ensures Order(s) <= Order(DnsStep) ==> forall x :: OpenAt(s, x) ==> x in Cleanup(s)
    ensures s == EngineStep ==> OpenAt(s, DnsConfigurator) && DnsConfigurator !in Cleanup(s)
    ensures Order(s) >= Order(NetstackCreateStep) ==> Cleanup(s) == [] && OpenAt(s, UserspaceEngine)
  {
  }

  /** An engine comes back only when every one of the six steps succeeded. */
  lemma BuiltOnlyWhenAllSucceed(r: StepResults)
    ensures EngineOutcome(r).Built? <==>
      r.tun.Ok? && r.router.Ok? && r.dns.Ok? && r.engine.Ok? && r.netstackCreate.Ok? && r.netstackStart.Ok?
  {
    assert OutcomeOf(r, TunStep) == r.tun;
    assert OutcomeOf(r, RouterStep) == r.router;
    assert OutcomeOf(r, DnsStep) == r.dns;
    assert OutcomeOf(r, EngineStep) == r.engine;
    assert OutcomeOf(r, NetstackCreateStep) == r.netstackCreate;
    assert OutcomeOf(r, NetstackStartStep) == r.netstackStart;
  }
}
