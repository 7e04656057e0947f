# Windows daemon orchestration and browser-terminal glue, modelled in Dafny

This project models the decision logic of the Tailscale daemon's Windows
entry point (`cmd/tailscaled/tailscaled_windows.go`) and proves properties
about it. It also models the text rewriting done by the browser demo's glue
(`wasmtest/wasmmod/wasmmod_js.go`).

- **ServiceControl** (`service.dfy`): the service control loop `Execute`
  together with `handleSessionChange`.
  - The requests from the service manager and the supervised child's
    completion come in as one ordered sequence of events.
  - The statuses pushed to the service manager are the output sequence.
  - A DNS flush is recorded by the index of the event that starts it.
- **Roles** (`roles.dfy`): the argument checks of `beWindowsSubprocess` and
  `beFirewallKillswitch`.
- **Killswitch** (`killswitch.dfy`): the firewall killswitch process.
  - A `Firewall` class holds the permitted routes.
  - The route loop reads a finite sequence of decode results. The end of
    input is the decoder's end-of-file error.
- **EngineBuild** (`engine.dfy`): one `getEngineRaw` call. It runs six
  construction steps, each answered by an input. The model records the
  resources closed, in order, and the prefixed error.
- **EngineSupervisor** (`supervisor.dfy`): the retry goroutine and the
  `getEngine` accessor.
  - The unbuffered channel is sequentialised: the accessor receives try k
    before try k+1 starts.
  - Time is a whole number of milliseconds since `t0`.
  - Within each try, the build duration and the send's blocking time are
    inputs.
  - At each receive, the process age and the system uptime are inputs.
  - `Deliveries` derives those two readings from a schedule and the system
    uptime at `t0`.
- **TermText** (`terminal.dfy`): two rewrites on bytes.
  - `termWriter.Write` turns LF into LF CR.
  - The `seeGoroutines` loop turns LF into CR LF, appending into a buffer
    whose capacity is allocated up front.
  - Each rewrite has a decoder that is proved to undo it.
- **NetmapHtml** (`netmap.dfy`): the netmap branch of the notify callback.
  It writes into a buffer the name, the address line, the machine and node
  key lines, and one table row per peer. IP texts and HTML escaping are
  opaque.

Outside the grace window, `getEngine` returns the first failure it
receives (`tailscaled_windows.go:263-272`). So N failed tries followed by a
successful one yield the engine of try N+1 only when the N failures fall
inside the window:

- `EngineAfterEarlyFailures` states that case and requires it.
- `LateFailureReturnedAtOnce` states the other case: a failure outside the
  window is returned at once.

## Model

| member | source | states |
|---|---|---|
| ServiceControl.ServiceAccepts | cmd/tailscaled/tailscaled_windows.go:68-71 | the mask always holds AcceptStop, holds AcceptSessionChange exactly when the registry integer is non-zero, and holds nothing else |
| ServiceControl.FirstStop | cmd/tailscaled/tailscaled_windows.go:83-89 | the index of the first Stop request: no event before it is a Stop, and the event at it is one (or there is none) |
| ServiceControl.StartsDnsFlush | cmd/tailscaled/tailscaled_windows.go:293-299 | handleSessionChange's test: only a SessionChange request can start a DNS flush, and never for an event type other than WTS_SESSION_UNLOCK (8); a request that starts one is still echoed back and does not end the loop |
| ServiceControl.HandleEvent | cmd/tailscaled/tailscaled_windows.go:84-95 | one select turn: Stop cancels and nothing else does; Interrogate and SessionChange push their CurrentStatus; only a SessionChange with WTS_SESSION_UNLOCK starts a flush |
| ServiceControl.Execute | cmd/tailscaled/tailscaled_windows.go:65-101 | pushes StartPending, then Running with the accepts mask, then the echoed statuses of the events up to and including the first Stop, then StopPending, and returns (false, NO_ERROR); with no Stop it is still waiting after every event; flushes start exactly at the unlock events it consumed |
| ServiceControl.EchoesAreCurrentStatuses | cmd/tailscaled/tailscaled_windows.go:90-94 | every pushed status is the unchanged CurrentStatus of an Interrogate or SessionChange request, and nothing is pushed exactly when no such request occurs |
| ServiceControl.EchoesAppend | cmd/tailscaled/tailscaled_windows.go:83-97 | the statuses pushed for two stretches of events in turn are those of the first stretch followed by those of the second |
| ServiceControl.ChildDoneIsNoOp | cmd/tailscaled/tailscaled_windows.go:85 | the child's completion pushes nothing, starts no flush and does not end the loop |
| Roles.SelectRole | cmd/tailscaled/tailscaled_windows.go:103-111 | killswitch exactly when there are 3 arguments and the second one is "/firewall", checked first; subprocess exactly when there are 3 and the second one is "/subproc"; daemon otherwise; the third argument is carried as the GUID or log id |
| Roles.BeWindowsSubprocess | cmd/tailscaled/tailscaled_windows.go:103-110 | true exactly when one of the two subprocess roles applies |
| Killswitch.Firewall.constructor | cmd/tailscaled/tailscaled_windows.go:152 | a new firewall session is bound to the interface's LUID, permits no route and has accepted no list yet |
| Killswitch.Firewall.UpdatePermittedRoutes | cmd/tailscaled/tailscaled_windows.go:167 | on success the given list replaces the permitted routes; on failure they stay the same |
| Killswitch.StopAt | cmd/tailscaled/tailscaled_windows.go:162-170 | the index of the first read that ends the loop: every earlier read decoded and was accepted |
| Killswitch.RunKillswitch | cmd/tailscaled/tailscaled_windows.go:133-170 | an invalid GUID, a missing interface or a firewall that will not open ends the process before any read, in that order of checks; otherwise the firewall gets the interface's LUID, the process exits at the first decode or update failure, the firewall has received the lists before it in order, and the last accepted list is what remains permitted |
| Killswitch.StopAtAppend | cmd/tailscaled/tailscaled_windows.go:162-170 | reads appended after the stopping read do not move it; appended after a run with no stop, they continue it |
| Killswitch.LaterReadsIgnored | cmd/tailscaled/tailscaled_windows.go:164-168 | once a read has ended the run, nothing read after it changes the exit, the applied lists or the permitted routes |
| Killswitch.SamePrefixSameRun | cmd/tailscaled/tailscaled_windows.go:162-170 | two streams that agree up to the read where both stop have the same exit, applied lists and permitted routes |
| Killswitch.ReplacesNotUnion | cmd/tailscaled/tailscaled_windows.go:167 | an accepted list is exactly the permitted set afterwards (no union with earlier lists) and is added to the applied lists |
| Killswitch.ResendIdempotent | cmd/tailscaled/tailscaled_windows.go:167 | sending the same list twice permits the same routes as sending it once |
| Killswitch.ScenarioLanThenEmpty | cmd/tailscaled/tailscaled_windows.go:161-169 | a LAN route list followed by an empty list leaves nothing permitted |
| EngineBuild.FirstFailure | cmd/tailscaled/tailscaled_windows.go:177-214 | no failure exactly when every step succeeds; otherwise the failing step it names did fail and every earlier step succeeded |
| EngineBuild.EngineOutcome | cmd/tailscaled/tailscaled_windows.go:176-216 | an engine exactly when every step succeeds; otherwise the first failing step's error behind that step's prefix |
| EngineBuild.GetEngineRaw | cmd/tailscaled/tailscaled_windows.go:176-216 | returns the outcome above and closes exactly that step's cleanup list: nothing after a TUN failure, the TUN device after a router failure, the router then the TUN device after a DNS or engine failure, nothing after a netstack failure |
| EngineBuild.CleanupIsReverseOrder | cmd/tailscaled/tailscaled_windows.go:181-205 | only resources that already exist are closed, each once, newest first |
| EngineBuild.CleanupCoverage | cmd/tailscaled/tailscaled_windows.go:189-214 | up to the DNS step everything open is closed; an engine failure leaves the DNS configurator open; netstack failures close nothing and leave the engine open |
| EngineBuild.BuiltOnlyWhenAllSucceed | cmd/tailscaled/tailscaled_windows.go:177-215 | an engine is returned exactly when all six steps succeed |
| EngineSupervisor.RunTry | cmd/tailscaled/tailscaled_windows.go:227-242 | a try's record has its number, its start time, its finish after the build time, its delivery after the blocked send, and the result of getEngineRaw |
| EngineSupervisor.Supervise | cmd/tailscaled/tailscaled_windows.go:224-249 | the supervisor's loop produces exactly the schedule that starts at t0 with try 1 |
| EngineSupervisor.ScheduleTries | cmd/tailscaled/tailscaled_windows.go:226-242 | tries are numbered one up from the first number; each carries its own input's result and timing; one hand-off per try; the first starts at the given time |
| EngineSupervisor.ScheduleStopsAtSuccess | cmd/tailscaled/tailscaled_windows.go:243-246 | every try but the last failed, and when tries remain unused the last one succeeded |
| EngineSupervisor.ScheduleNextStart | cmd/tailscaled/tailscaled_windows.go:241-247 | after a failed try the next one starts when both the 5 s timer has fired and the hand-off has completed |
| EngineSupervisor.ScheduleSpacing | cmd/tailscaled/tailscaled_windows.go:241-247 | the next try starts at least 5000 ms after the previous construction finished, and so after the previous start |
| EngineSupervisor.ScheduleLength | cmd/tailscaled/tailscaled_windows.go:226-248 | n failed tries followed by a successful one give exactly n+1 tries |
| EngineSupervisor.FirstKept | cmd/tailscaled/tailscaled_windows.go:258-269 | the index of the first received value the accessor does not drop: all before it are failures inside the grace window |
| EngineSupervisor.GetEngine | cmd/tailscaled/tailscaled_windows.go:254-274 | the accessor's receive loop gives the answer and the number of receives of the policy below |
| EngineSupervisor.AccessorPolicy | cmd/tailscaled/tailscaled_windows.go:255-273 | a non-empty debug override fails at once having consumed nothing; otherwise every value before the last one taken was a failure inside the window (age < 60000 ms or uptime < 600000 ms), an engine comes from the last value taken, a returned error is that value's error followed by "\n\nlogid: " and the log id from outside the window, and the accessor keeps waiting exactly when every value was dropped |
| EngineSupervisor.FirstKeptAt | cmd/tailscaled/tailscaled_windows.go:258-269 | when the first n values are dropped and value n is not, the accessor stops at n |
| EngineSupervisor.Deliveries | cmd/tailscaled/tailscaled_windows.go:242-259 | one receive per hand-off |
| EngineSupervisor.EarlyFailuresNeverSurface | cmd/tailscaled/tailscaled_windows.go:263-268 | when every failure is delivered inside the grace window, getEngine never returns an error |
| EngineSupervisor.EngineAfterEarlyFailures | cmd/tailscaled/tailscaled_windows.go:226-272 | n failures inside the grace window followed by a success: the supervisor makes n+1 tries, and getEngine returns the engine of try n+1 after exactly n+1 receives |
| EngineSupervisor.LateFailureReturnedAtOnce | cmd/tailscaled/tailscaled_windows.go:263-272 | a failure received outside the window after only dropped values is returned at once, annotated with the log id, and nothing after it is taken |
| EngineSupervisor.FirstDelivery | cmd/tailscaled/tailscaled_windows.go:223-242 | the first value received is try 1's result, delivered after its build and send, with the age and uptime at that moment |
| EngineSupervisor.ScenarioEarlyFailureThenEngine | cmd/tailscaled/tailscaled_windows.go:241-268 | try 1 fails at t = 0 and try 2 starts at 5000 ms and succeeds: the engine of try 2 is returned and no error surfaces |
| EngineSupervisor.ScenarioAccessDenied | cmd/tailscaled/tailscaled_windows.go:263-272 | an "access denied" failure at 700 s is returned at once with the log id, after one receive |
| TermText.TermWrite | wasmtest/wasmmod/wasmmod_js.go:248-252 | returns n = len(p) and no error; what it writes is len(p) plus the LF count long, is p itself when p has no LF, and decodes back to p |
| TermText.LfCrLength | wasmtest/wasmmod/wasmmod_js.go:249 | the LF → LF CR rewrite adds one byte per LF |
| TermText.LfCrIdentity | wasmtest/wasmmod/wasmmod_js.go:249 | input without LF is unchanged by the rewrite |
| TermText.LfCrRoundTrip | wasmtest/wasmmod/wasmmod_js.go:249 | taking each LF CR back to LF recovers the input exactly |
| TermText.StripLfCrPair | wasmtest/wasmmod/wasmmod_js.go:249 | a trailing LF CR decodes to LF |
| TermText.StripLfCrByte | wasmtest/wasmmod/wasmmod_js.go:249 | any other trailing byte is copied by the decoder |
| TermText.SeeGoroutinesText | wasmtest/wasmmod/wasmmod_js.go:145-152 | the loop writes every LF as CR LF and copies every other byte in order; the result fills exactly the len(buf) + Count(buf, "\n") capacity allocated for it, and decodes back to buf |
| TermText.CrLfStep | wasmtest/wasmmod/wasmmod_js.go:146-151 | each input byte adds its unit to the output, and the bytes still ahead account for the capacity left |
| TermText.CrLfLength | wasmtest/wasmmod/wasmmod_js.go:145-152 | the LF → CR LF rewrite adds one byte per LF |
| TermText.CrLfRoundTrip | wasmtest/wasmmod/wasmmod_js.go:146-152 | taking each CR LF back to LF recovers the dump exactly |
| TermText.StripCrLfPair | wasmtest/wasmmod/wasmmod_js.go:148 | a trailing CR LF decodes to LF |
| TermText.StripCrLfByte | wasmtest/wasmmod/wasmmod_js.go:150 | any trailing byte other than LF is copied by the decoder |
| NetmapHtml.AddressItemsShape | wasmtest/wasmmod/wasmmod_js.go:71-77 | the first address is wrapped in `<b>…</b>` and each later one is preceded by ", " |
| NetmapHtml.CommaPrefixedSnoc | wasmtest/wasmmod/wasmmod_js.go:75 | one more later address adds ", " and that address at the end |
| NetmapHtml.AddressLineEmpty | wasmtest/wasmmod/wasmmod_js.go:70-78 | the address line is exactly `<p>Addresses: </p>` when, and only when, there are no addresses |
| NetmapHtml.NetMapTextLines | wasmtest/wasmmod/wasmmod_js.go:69-89 | the panel text is the name line, then the address line (so `<p>Addresses: </p>` exactly when the node has no addresses), then the machine, node key and table parts |
| NetmapHtml.AddressItemsStep | wasmtest/wasmmod/wasmmod_js.go:71-77 | each address adds its own item at the end of the line |
| NetmapHtml.WriteAddresses | wasmtest/wasmmod/wasmmod_js.go:71-77 | the address loop appends exactly the address items to the buffer |
| NetmapHtml.RowsSnoc | wasmtest/wasmmod/wasmmod_js.go:82-88 | one more peer adds its row at the end of the table |
| NetmapHtml.RowsAppend | wasmtest/wasmmod/wasmmod_js.go:82-88 | the rows of two lists of peers in turn are the rows of the first followed by the rows of the second: one row per peer, in peer order |
| NetmapHtml.RowsSingle | wasmtest/wasmmod/wasmmod_js.go:83-87 | a peer's row holds its first address's IP, or the empty text when it has none, and its escaped name |
| NetmapHtml.WritePeerRows | wasmtest/wasmmod/wasmmod_js.go:82-88 | the peer loop appends exactly the peers' rows to the buffer |
| NetmapHtml.RenderNetMap | wasmtest/wasmmod/wasmmod_js.go:67-90 | the panel text is the name line, the address line, the machine and node key lines, then the table of peer rows |

## Left out

- Concurrency is left out: goroutines, channels, `select`, `context` cancellation, the timer and `sync.Once`. The model runs them in sequence, as ordered event sequences and integer millisecond times.
- Windows service plumbing is left out: `svc.Run`, `svc.IsWindowsService`, and the Stopped status the service manager reports after `Execute` returns. A status keeps only its state and accepted controls. Check points, wait hints and exit codes are dropped.
- The `FlushDNSOnSessionUnlock` registry read is left out. It is an input integer, 0 when the value is absent.
- `dns.Flush` and its log line are left out. The model records only which event starts a flush.
- `BabysitProc` and the subprocess it supervises are left out. Its completion is the ChildDone event.
- In subprocess mode, the stdin watchdog goroutine, `startIPNServer`'s store, listener and `ipnserver.Run` are left out. So are all log text and durations, including the timings at line 230.
- GUID parsing, the GUID-to-LUID lookup and `wf.New` are inputs: whether each succeeds, and the LUID.
- JSON decoding of route lists is left out. Prefixes are opaque texts.
- Killswitch.Firewall.UpdatePermittedRoutes: what a failed update leaves behind in the firewall is not known, because the `wf` internals are outside the model. The model keeps the previous routes. The process exits at once after a failed update either way.
- The collaborators `tstun`, `router`, `dns.NewOSConfigurator`, `wgengine`, `netstack` and the watchdog wrapper are left out. Each is a success or an error text.
- `wrapNetstack` is left out: it only wraps the router and decides `ProcessSubnets`. `ProcessLocalIPs`, which is always set to false, and the listen port 41641 are left out too. None of these affects the outcome or the cleanup.
- `windowsUptime` (`GetTickCount64`) is a foreign call. The accessor takes the uptime as an input at each receive. `Deliveries` takes the uptime at `t0` as an input.
- EngineSupervisor.Supervise: its input is a finite sequence of tries. The real loop is unbounded: it hands off every try's result, failures included, and does not return until a try succeeds. The supervisor does nothing after it returns an engine.
- EngineSupervisor.GetEngine: `TS_DEBUG_WIN_FAIL` is a parameter, not an environment read. When the inputs run out while the accessor is still blocked, the answer is StillWaiting.
- EngineSupervisor.LateFailureReturnedAtOnce is stated on the values received, not on a schedule. `FirstDelivery` connects a schedule's first delivery to try 1's input.
- `html.EscapeString`, IP `String()` formatting and the `%v` rendering of the machine status and keys are left out. These are opaque functions or texts.
- The browser work in the demo is left out: DOM updates, `lb.Start`, `Logout`, `StartLoginInteractive`, `runTailscaleCLI` with `cli.Fatalf`, panic recovery and `runtime.Stack`. The notify callback's state and login-URL branches are left out too.
