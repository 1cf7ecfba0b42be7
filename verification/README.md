# Verified model of systemd-supervisord

A Dafny 4.11 model of the concurrent lifecycle code of systemd-supervisord, with proofs.
`dafny verify dfyconfig.toml` checks the whole project.

## What is modelled

- **Socket activation** (`ActivatorFields`, `UdpSessions`, `ActivatorProtocol`, `ActivatorInvariant`,
  `ActivatorHistory`, `ActivatorTheorems`, `ActivatorOutcomes`, `UdpTheorems`). Each section between Lock
  and Unlock is a function on the mutex-protected fields, implemented in place by a class method. The
  protocol is a transition system whose threads (TCP handlers, UDP datagram handlers, reply loops, expirers, the shutdown of the session
  table, idle ticks) stand between sections; Start, Stop, probe, dial and traffic are nondeterministic.
  The invariant is proved rely-guarantee style: what each thread relies on is established by its own
  sections and kept by everybody else's, and sums over the threads tie the flags and the count to their
  holders. Any number of each kind of goroutine may run, including more than the program starts. What
  the outcomes of calls lead to is stated over the steps taken, not over the history they log.
- **Dependencies** (`Units`, `DependencyGraph`, `PrioritySort`, `StartOrder`, `FullNames`). Cycle detection
  and start order as depth-first searches over captured mutable state, proved sound, complete and
  terminating; then what the priority sort between them can change, and how the graph on bare names
  relates to the units' real dependencies.
- **Health pipeline** (`HealthChecker`, `StateManager`, `Restarter`, `RestarterProtocol`,
  `RestarterOutcomes`, `Dependents`, `HealthPipeline`). Check threads, de-duplication in two places,
  backoff, cooldown and overlapping restart attempts, first apart and then composed: for all units over the daemon's life, and with a unit's
  checker over one registration.
- **Registry and reload** (`Registry`, `Instances`, `Bindings`, `Daemon`). The maps the daemon keeps in
  step, and reload and startup against functional specifications, with Go's map iteration as a nondeterministic choice.
- **Supervision of a backend** (`Supervision`). Activator, registry and restarter composed: the activator's
  monitor calls, made with its mutex held, are daemon operations and restarter registrations.

Channels and trackers, which the source shares by pointer, are numbered in allocation order. Times are
integers from one monotone clock. `sid`, `owner`, `released`, `log`, `probes`, `lastCheck`, `stopEnd` and
`stale` are history that no section reads.

## Where code and documentation differ

- The documentation says the backoff is capped by the cooldown. The code caps it at 64 times the base;
  `Restarter.CooldownCapsBackoff` gives the exact condition and the default policy as a counterexample.
- The check for dependency cycles runs before the priority sort and on bare names, so an accepted list
  may have no dependency-first start order: `StartOrder.SortCanBreakAcceptedConfig`, with the exact
  conditions in `StartOrder.SortKeepsGraph` and `StartOrder.EveryOrderAcyclic`.
- The documentation says circular dependencies are detected and rejected. The check on bare names keeps
  that promise exactly for names as in `FullNames.RejectsEveryCycle`, and is right both ways exactly for
  those in `FullNames.BareCheckIsExact`. Otherwise it can accept a cycle (`FullNames.RealCycleIsAccepted`).
  When it can reject a list without one is in `FullNames.RejectsOnlyCycles`: for example for a timer that
  depends on its own service and comes last of its bare name (`FullNames.RejectionDependsOnFileOrder`).
- The documentation says a bare dependency resolves to the depending unit's type. Validation accepts one
  whose only namesake is of another type; `FullNames.ResolvedExactly` says when that does not happen.
- An idle stop that fails leaves the unit running without its monitor until it is next started:
  `ActivatorTheorems.FailedStopLeavesUnwatched`, exactly by `ActivatorTheorems.MonitoringDiscipline`.
- A reload need not bind names as a start does: `Bindings.TemplateCanShadow`, exactly by
  `Bindings.ReloadAgainstStartup`.

## Model

| member | source | states |
|---|---|---|
| `ActivatorFields.Activator.Close` | internal/socketactivation/activator.go:295 | closing is only ever applied to an open channel (Go panics otherwise) and leaves it closed |
| `ActivatorFields.Activator.ConnOpened` | internal/socketactivation/activator.go:370-375 | counts one more connection and restarts the idle clock; no flag or channel moves |
| `ActivatorFields.Activator.ConnClosed` | internal/socketactivation/activator.go:377-382 | counts one connection less and restarts the idle clock; no flag or channel moves |
| `ActivatorFields.Activator.MarkTraffic` | internal/socketactivation/activator.go:384-388 | restarts the idle clock and nothing else |
| `ActivatorFields.Activator.Enter` | internal/socketactivation/activator.go:231-282 | the section at the loop head of ensureRunning: waits for a stop before anything else, returns at once when up, joins the attempt in progress, or begins one with a fresh channel and a cleared error |
| `ActivatorFields.Activator.FinishStart` | internal/socketactivation/activator.go:286-296 | publishes the result of the attempt, starts monitoring only on success, and wakes the waiters in the same section |
| `ActivatorFields.Activator.ReadAfterWake` | internal/socketactivation/activator.go:262-275 | what a woken waiter returns: nil if the unit runs, else the recorded error, else a generic one |
| `ActivatorFields.Activator.IdleCheck` | internal/socketactivation/activator.go:408-428 | begins a stop only for a running unit with no start, stop or connection in progress that has been idle for the timeout, ending the watch in the same section |
| `ActivatorFields.Activator.IdleClear` | internal/socketactivation/activator.go:435-437 | first tail section of an idle stop: running is cleared while stopping is still set |
| `ActivatorFields.Activator.IdleTail` | internal/socketactivation/activator.go:440-443 | second tail section: stopping is cleared and the waiters are woken |
| `UdpSessions.UdpProxy.Lookup` | internal/socketactivation/udp.go:122-129 | an existing session is found and refreshed, nothing else in the table moves |
| `UdpSessions.UdpProxy.Insert` | internal/socketactivation/udp.go:150-160 | a session created meanwhile by another datagram is kept; otherwise the new one is stored |
| `UdpSessions.UdpProxy.MarkSeen` | internal/socketactivation/udp.go:190-192 | a reply refreshes its own session if that is still the one in the table, and nothing else |
| `UdpSessions.UdpProxy.Remove` | internal/socketactivation/udp.go:207-217 | by key: hands the removed session, if any, to the caller exactly once |
| `UdpSessions.UdpProxy.TakeAll` | internal/socketactivation/udp.go:223-227 | hands all sessions to the caller and leaves the table empty |
| `UdpSessions.UdpProxy.CollectStale` | internal/socketactivation/udp.go:251-261 | lists each session unseen for the TTL exactly once and no other, in whatever order the map is iterated |
| `ActivatorInvariant.LocalOther` | internal/socketactivation/activator.go:230-444 | rely-guarantee: no section of one thread falsifies what another thread relies on at its program counter |
| `ActivatorInvariant.LocalCount` | internal/socketactivation/activator.go:370-382 | each section changes the connection count by exactly what the acting thread and the session table gain or lose |
| `ActivatorInvariant.LocalSessions` | internal/socketactivation/udp.go:131-166 | each section moves a session between the table, a releasing thread and the released ones without losing or duplicating it |
| `ActivatorInvariant.StepKeepsInv` | internal/socketactivation/activator.go:202-444 | every step of every thread, spawn, clock advance and cancellation keeps the inductive invariant |
| `ActivatorInvariant.RunInv` | internal/socketactivation/activator.go:202-444 | the invariant holds in every state of every interleaving |
| `ActivatorHistory.StepKeepsHistory` | internal/socketactivation/activator.go:278-444 | every step keeps the history invariants: event times, idle-stop history, attempt ledger, watch discipline |
| `ActivatorTheorems.ServedMeansUp` | internal/socketactivation/activator.go:202-226 | while any handler holds a nil result of ensureRunning, or any UDP session is open or unreleased, the unit is running and not being stopped |
| `ActivatorTheorems.ServedUntilReleased` | internal/socketactivation/activator.go:208-225 | that protection ends only with the handler's own connClosed or when a table session takes it over |
| `ActivatorTheorems.StopBeginsAlone` | internal/socketactivation/activator.go:411-424 | no step begins an idle stop while a thread holds a counted connection or a session is open |
| `ActivatorTheorems.NoLostWakeup` | internal/socketactivation/activator.go:234-298 | every waiter's channel is closed, or is the current wait channel with its flag set and exactly one thread owns closing it |
| `ActivatorTheorems.NoDoubleClose` | internal/socketactivation/activator.go:286-296 | no channel is closed twice, every close about to happen is of an open channel, and every open channel has an owner |
| `ActivatorTheorems.NoDeadlock` | internal/socketactivation/activator.go:230-300 | every unfinished thread can step, or waits for a thread that can |
| `ActivatorTheorems.CountConserved` | internal/socketactivation/activator.go:370-382 | the count is the number of counted handlers, in-flight session creations, table sessions and unreleased removed sessions; never negative |
| `ActivatorTheorems.ReleasedOnce` | internal/socketactivation/udp.go:207-233 | each session is released exactly once, under any race of expiry, write failure, reply error and shutdown |
| `ActivatorTheorems.JoinedStep` | internal/socketactivation/activator.go:252-276 | a waiter of a succeeded attempt can, short of cancellation, only go on to return nil |
| `ActivatorTheorems.SharedSuccess` | internal/socketactivation/activator.go:252-276 | along a run: a waiter that joined an attempt which succeeded returns nil however late it wakes |
| `ActivatorTheorems.WaiterResult` | internal/socketactivation/activator.go:262-275 | a woken waiter returns nil if the unit is up, the generic error exactly while a newer attempt is in progress, and otherwise the error of the last attempt, which has failed; always nil when the attempt it joined succeeded |
| `ActivatorTheorems.FlagsAndOwners` | internal/socketactivation/activator.go:278-298 | starting excludes running and stopping, each set flag has one owner, and Start, failed-start Stop and idle Stop calls never overlap |
| `ActivatorTheorems.AttemptsLedger` | internal/socketactivation/activator.go:278-298 | attempts begun = failed + ended by an idle stop + [running] + [starting], in every run |
| `ActivatorTheorems.IdleStopHistory` | internal/socketactivation/activator.go:408-424 | every idle stop began with no connection open and all activity at least the timeout old |
| `ActivatorTheorems.IdleUnitIsStopped` | internal/socketactivation/activator.go:390-444 | with on-time ticks an idle running unit begins stopping within the timeout plus max(timeout/4, 1s) of its last activity, and a stop that failed since the start is retried at the next tick |
| `ActivatorTheorems.MonitoringDiscipline` | internal/socketactivation/monitor.go:49-64 | a live watch implies running and not stopping, watches are separated by unwatches, and a unit that is up is watched exactly when no idle stop has failed since its last successful start |
| `ActivatorTheorems.FailedStopLeavesUnwatched` | internal/socketactivation/activator.go:424-443 | "running means watched" is false: a concrete run to a unit that is up and not watched, after its idle stop failed |
| `ActivatorOutcomes.FailedAttemptNeverOk` | internal/socketactivation/activator.go:326-366 | along every run: an attempt whose Start call or whose probe failed is never recorded as successful |
| `ActivatorOutcomes.SuccessHasCause` | internal/socketactivation/activator.go:326-347 | every successful attempt goes back to a Start call that succeeded and then, if there is a probe, to a probe that did |
| `ActivatorOutcomes.FailureHasCause` | internal/socketactivation/activator.go:326-361 | every failed attempt goes back to a failed Start call or a failed probe, as its error says; after a failed probe the unit was stopped unless serving was cancelled |
| `ActivatorOutcomes.FailStopHasCause` | internal/socketactivation/activator.go:349-368 | the unit is stopped after a start only when a probe failed and serving was not cancelled |
| `ActivatorOutcomes.StopOutcome` | internal/socketactivation/activator.go:432-438 | an idle stop counts as completed only if its Stop call succeeded, as failed only if it failed, never both |
| `ActivatorOutcomes.RunningMeansStarted` | internal/socketactivation/activator.go:286-293 | running holds exactly while the last attempt that succeeded has not been ended by an idle stop that succeeded |
| `ActivatorOutcomes.StopsAfterQuiet` | internal/socketactivation/activator.go:370-424 | when an idle stop begins, every step of any thread that opened, closed or carried a connection, a datagram or a reply is at least the timeout old |
| `ActivatorOutcomes.ClientIsServed` | internal/socketactivation/activator.go:208-226 | a connection whose handler has ended was relayed to its end, and a datagram's was marked and written, unless it was refused or the dial failed |
| `ActivatorOutcomes.OpenSessionIsUsed` | internal/socketactivation/udp.go:119-129 | a datagram for an open session opens no connection and is written to the backend |
| `ActivatorOutcomes.RefusedForCause` | internal/socketactivation/activator.go:230-300 | a client is turned away only if it waited and serving was cancelled, the start it waited for left the unit down, or its own start failed |
| `ActivatorOutcomes.CancelledCanLeave` | internal/socketactivation/activator.go:238-260 | once serving is cancelled no client has to wait |
| `UdpTheorems.EverySessionIsServed` | internal/socketactivation/udp.go:162-205 | until serving is cancelled every session in the table has its reply loop, or a thread about to close its key |
| `UdpTheorems.ClosedByTheEnd` | internal/socketactivation/udp.go:110-117 | whoever must close a session does: after a failed write, a failed read, an expiry or a shutdown the key has been without a session when the thread ends, and the old session is not in the table |
| `UdpTheorems.ExpiredAfterSilence` | internal/socketactivation/udp.go:251-266 | a session the expirer closes had no datagram and no reply for 30 seconds |
| `UdpTheorems.ExpiredAfterDial` | internal/socketactivation/udp.go:148-160 | nor is it listed sooner than 30 seconds after its backend was dialed |
| `Units.ParsedKeyIsUnitName` | internal/config/config.go:369-389 | a parsed unit key is recovered as the unit's full name, so full names are unique |
| `Units.ParsesExactly` | internal/config/config.go:369-389 | a key parses to a name and a type exactly when it is a nonempty name, a dot and service or timer |
| `Units.QualifiedDepResolves` | internal/config/config.go:575-581 | a qualified dependency resolves to the unit's own bare name exactly when it is not a service named like a timer |
| `DependencyGraph.BuildGraph` | internal/config/config.go:584-592 | the graph keyed by bare name, the last unit of a name winning |
| `DependencyGraph.OrderedIsAcyclic` | internal/config/config.go:583-631 | a dependency-first order of all units rules out every cycle |
| `DependencyGraph.CycleDetector.Visit` | internal/config/config.go:602-622 | the three-colour search: an error names a unit on a cycle; otherwise the unit has finished after all its dependencies |
| `DependencyGraph.DetectCycle` | internal/config/config.go:583-631 | reports an error if and only if the graph has a cycle, naming a unit on one; terminates on every graph |
| `DependencyGraph.OrderBuilder.Visit` | internal/config/config.go:138-151 | the post-order search keeps the order free of repetitions and, on acyclic graphs, dependency-first |
| `DependencyGraph.DependencyOrder` | internal/config/config.go:124-158 | terminates on any graph, lists every unit and dependency name exactly once, in depth-first post-order from the units in list order, and puts dependencies first if and only if the graph is acyclic |
| `DependencyGraph.VisitsInListOrder` | internal/config/config.go:153-155 | the order of a list of names is the order of its first part, continued with the rest |
| `DependencyGraph.VisitsDepsFirst` | internal/config/config.go:138-151 | a name not yet visited is listed after its dependencies in their listed order, a visited one not again |
| `DependencyGraph.DepsInOrder` | internal/config/config.go:146-150 | for example, two dependencies come in the order in which they are listed |
| `DependencyGraph.ValidateDependencies` | internal/config/config.go:549-573 | accepts exactly the lists whose dependencies are known and whose graph is acyclic; else reports the first unknown dependency or a unit on a cycle |
| `PrioritySort.SortIsStable` | internal/config/config.go:362-364 | the modelled sort orders by priority, keeps the units of each priority in file order, and reorders the list |
| `PrioritySort.StableSortUnique` | internal/config/config.go:362-364 | a stable sort has only one result, so the library's is this one |
| `StartOrder.ReorderingKeepsGraph` | internal/config/config.go:127-133 | a reordering keeps the graph exactly when the last unit of every bare name has the same dependencies in both orders |
| `StartOrder.OrderMattersNot` | internal/config/config.go:127-133 | every order gives the same graph exactly when units sharing a bare name list the same dependencies |
| `StartOrder.EveryOrderAcyclic` | internal/config/config.go:583-631 | every order of the units is accepted exactly when the graph that merges the units of a bare name has no cycle |
| `StartOrder.SortKeepsGraph` | internal/config/config.go:354-364 | the priority sort keeps the validated graph exactly when, for every bare name, the unit of highest priority lists the dependencies of the one last in the file |
| `StartOrder.LoadedOrder` | internal/config/config.go:124-158 | validation in file order, the priority sort, the start order, end to end: accepted exactly when dependencies are known and the file-order graph is acyclic; then every name comes after its dependencies exactly when the sorted list is acyclic, which the two conditions above ensure |
| `StartOrder.SortCanBreakAcceptedConfig` | internal/config/config.go:354-364 | an accepted list can become cyclic by the priority sort: a concrete one |
| `StartOrder.AcceptedGraphIsClosed` | internal/config/config.go:558-572 | the order of an accepted list names only units exactly when no unit that counts depends on a service named like a timer whose doubly trimmed name is no unit |
| `FullNames.NeedsAreCascadeEdges` | internal/daemon/daemon.go:612-629 | the graph of real dependencies has exactly the edges the cascade follows |
| `FullNames.ResolvedExactly` | internal/config/config.go:558-570 | the dependencies of a list resolve to units, as the cascade reads them, exactly when they are known to validation and every unqualified one names a unit of the depending unit's own kind |
| `FullNames.MergedCoversNeeds` | internal/config/config.go:583-592 | merging by bare name misses no cycle of real dependencies, if no service is named like a timer |
| `FullNames.RejectsEveryCycle` | internal/config/config.go:583-631 | that every cycle of real dependencies is rejected, whatever known dependencies the units have, holds exactly when no service is named like a timer and the bare names are distinct |
| `FullNames.RejectsOnlyCycles` | internal/config/config.go:583-631 | that no list is rejected without a cycle of real dependencies, whatever resolved dependencies the units have, holds exactly when no unit's full name resolves to the bare name another unit counts for |
| `FullNames.BareCheckIsExact` | internal/config/config.go:583-631 | the check is right both ways, whatever resolved dependencies the units have, exactly when no service is named like a timer and the bare names are distinct |
| `FullNames.BareNamesAgree` | internal/config/config.go:583-592 | so it is right for a given list if in addition its dependencies resolve: no service named like a timer, distinct bare names, every dependency a unit |
| `FullNames.TimerOfItsServiceIsRejected` | internal/config/config.go:583-631 | any list in which the last unit of a bare name, a timer, depends on the service of that name is rejected |
| `FullNames.RejectionDependsOnFileOrder` | internal/config/config.go:583-631 | where that is the only dependency there is no cycle, and the list is rejected exactly when the timer is the last unit of its bare name in the file |
| `FullNames.RealCycleIsAccepted` | internal/config/config.go:583-592 | a concrete accepted list with a cycle of real dependencies between two units |
| `HealthChecker.Checker.RecordFailure` | internal/healthcheck/checker.go:78-82 | one more consecutive failure and the error for this check only |
| `HealthChecker.Checker.RecordPass` | internal/healthcheck/checker.go:95-98 | the failure run and error of this check only are cleared |
| `HealthChecker.Checker.ReportStatus` | internal/healthcheck/checker.go:106-131 | sends the overall status, with the failing checks' errors, only when it differs from the last one sent |
| `HealthChecker.Agreement` | internal/healthcheck/checker.go:66-131 | under any interleaving: counters are trailing failure runs, results strictly alternate, and with no report pending the last one sent is true |
| `HealthChecker.SentResult` | internal/healthcheck/checker.go:106-131 | only a report sends, one result, whose errors are, in check order, the last errors of exactly the checks whose failure run has reached their retries |
| `HealthChecker.FirstReport` | internal/healthcheck/checker.go:77-101 | nothing is reported before some check has passed or has failed as often as its retries |
| `StateManager.StateManager.UpdateState` | internal/statemanager/state.go:54-85 | an event exactly when the state of a registered unit changes |
| `StateManager.StateManager.UpdateHealth` | internal/statemanager/state.go:87-115 | an event exactly when the health of a registered unit changes |
| `StateManager.HealthEventsOfRegistration` | internal/statemanager/state.go:87-115 | over one registration the health events are the results with consecutive repetitions removed |
| `StateManager.StateEventsOfRegistration` | internal/statemanager/state.go:54-85 | over one registration the state events are the reported states with consecutive repetitions removed, and the status holds the last |
| `StateManager.DedupeAlternates` | internal/statemanager/state.go:97-101 | events alternate, and alternating results are all emitted |
| `Restarter.Restarter.Register` | internal/restarter/restarter.go:46-53 | a fresh tracker, whatever the old one had accumulated |
| `Restarter.Restarter.ShouldRestart` | internal/restarter/restarter.go:70-114 | recovery resets tracker and counter; a failure is approved exactly when tracked, enabled and out of cooldown |
| `Restarter.Restarter.BeginAttempt` | internal/restarter/restarter.go:116-133 | one more attempt on the live tracker and the backoff of the attempts before it |
| `Restarter.Restarter.CascadeRestart` | internal/restarter/restarter.go:165-181 | one Restart per dependent, in order, past failures |
| `Restarter.Restarter.AttemptRestart` | internal/restarter/restarter.go:116-163 | success restarts the unit and then exactly its dependents in order; failure restarts none and starts the cooldown |
| `Restarter.BackoffExact` | internal/restarter/restarter.go:125-131 | the backoff is exact and at most 64 times the base while that fits int64, and the largest is exact only then |
| `Restarter.WrapsAround` | internal/restarter/restarter.go:125 | the multiplication wraps around as int64 does |
| `Restarter.TotalWaitClosedForm` | internal/restarter/restarter.go:125-131 | n attempts wait backoff*(2^n-1) up to the seventh and backoff*(127+64(n-7)) beyond |
| `Restarter.CooldownCapsBackoff` | internal/restarter/restarter.go:125-131 | the delay is capped by the cooldown exactly when the first seven delays fit in it, which without overflow is when 64 backoffs do; the default policy's do not |
| `RestarterProtocol.StepKeepsInv` | internal/restarter/restarter.go:46-181 | every event, registration and attempt section keeps the restarter's invariant |
| `RestarterProtocol.CooldownHistory` | internal/restarter/restarter.go:104-114 | after a failure on the live tracker no approval before the cooldown ends unless the unit recovered or was re-registered, with attempts overlapping |
| `RestarterProtocol.StaleFailureIsHarmless` | internal/restarter/restarter.go:147-158 | a failure recorded on a replaced or removed tracker changes no tracker in use |
| `RestarterProtocol.CooldownHasCause` | internal/restarter/restarter.go:150-152 | a tracker is in cooldown only through a failure of an attempt that held that tracker |
| `RestarterProtocol.RestartAfterUnregister` | internal/restarter/restarter.go:116-147 | a Restart of the unit itself after unregistration and before re-registration comes from an earlier lookup |
| `RestarterProtocol.WaitHistory` | internal/restarter/restarter.go:125-131 | the k-th lookup since the tracker's last reset waits backoff*2^min(k-1,6), if 64 backoffs fit int64 |
| `RestarterProtocol.TotalWaitHistory` | internal/restarter/restarter.go:125-131 | in every run the waits handed out since a tracker's last reset add up to the closed form, if 64 backoffs fit int64 |
| `RestarterProtocol.CascadeHistory` | internal/restarter/restarter.go:147-181 | a successful attempt looks up the dependents of the unit it restarted and cascades to exactly that list, in order; a failed one to nothing |
| `RestarterOutcomes.EventOutcome` | internal/restarter/restarter.go:62-114 | exactly what an event does: an active or healthy one resets the tracker, a failed or unhealthy one out of cooldown starts one attempt, both only if the unit is tracked and its restarts are enabled; anything else nothing |
| `RestarterOutcomes.ApprovalHasCause` | internal/restarter/restarter.go:70-114 | every approval goes back to a failed or unhealthy event of a unit with restarts enabled and out of cooldown |
| `RestarterOutcomes.RestartAfterBackoff` | internal/restarter/restarter.go:116-147 | Restart is called for the unit looked up once the backoff has passed since the lookup, not before, and its outcome decides what follows |
| `RestarterOutcomes.FailureIsRecorded` | internal/restarter/restarter.go:147-160 | after a failed call its attempt records the failure on the tracker it had looked up |
| `RestarterOutcomes.FailureRecordSays` | internal/restarter/restarter.go:147-152 | what that record says of time, cooldown and whether the tracker was still the unit's |
| `RestarterOutcomes.NoRestartInCooldown` | internal/restarter/restarter.go:104-160 | after a failure recorded on the unit's tracker no event of it is approved before the cooldown is over, unless it was registered anew or reported well |
| `RestarterOutcomes.CascadeListIsIndexed` | internal/restarter/restarter.go:165-170 | an attempt cascades to what the index has for the unit it restarted when it looks |
| `RestarterOutcomes.IndexIsLastSet` | internal/restarter/restarter.go:39-44 | the index is the one set last |
| `Dependents.BuildDependents` | internal/daemon/daemon.go:612-629 | each unit depended on, and no other name, is mapped to its users in configuration order, once per dependency; stated by positions in the configuration |
| `Dependents.DependentsMultiplicity` | internal/daemon/daemon.go:615-625 | a unit appears among the dependents as often as it has edges there |
| `HealthPipeline.EveryResultIsAnEvent` | internal/daemon/daemon.go:485-486 | over one registration each result received becomes the stored health and produces exactly one health event, unless the result received just before was left over from an earlier registration and said the same |
| `HealthPipeline.StaleResultHidesOne` | internal/statemanager/state.go:97-101 | the proviso matters: a concrete run in which a leftover result hides the checker's first |
| `HealthPipeline.RecoveryBetweenHealthRestarts` | internal/restarter/restarter.go:91-114 | a unit that stays unhealthy is not restarted for it twice: between two such restarts a healthy event reset attempts and cooldown, or the unit was registered anew, in every run of the state manager and the restarter, the event in flight and results of earlier registrations included |
| `HealthPipeline.RestartCountHistory` | internal/statemanager/state.go:117-133 | a unit's restart count is the number of Restart calls made for it since it was registered or last reported well |
| `HealthPipeline.EventsConserved` | internal/statemanager/state.go:182-186 | every event emitted is handled by the restarter once or still to be handled |
| `HealthPipeline.StepProjects` | internal/restarter/restarter.go:62-68 | handling an event is the restarter's own step, so its theorems hold in the pipeline |
| `Registry.RegisterAgreement` | internal/daemon/daemon.go:172-193 | registering keeps the maps in agreement exactly when the unit has a policy or is known already |
| `Registry.UnregisterAgreement` | internal/daemon/daemon.go:235-256 | unregistering keeps them exactly when the unit is not also a watched backend |
| `Registry.UnwatchAgreement` | internal/daemon/daemon.go:289-307 | unwatching keeps them exactly when the backend is not also a registered unit |
| `Registry.OperationsAgree` | internal/daemon/daemon.go:172-330 | any sequence of operations on disjoint names keeps all maps in agreement and each tracker on its unit's policy |
| `Registry.OperationsDo` | internal/daemon/daemon.go:172-330 | what each operation does to the unit it names: bindings, critical set, status and a fresh tracker with its policy |
| `Registry.InitialStatusIs` | internal/daemon/daemon.go:189-200 | a unit just registered has the state systemd reports, no known health and no restarts; other statuses are as they were |
| `Supervision.TrackedWhileWatched` | internal/socketactivation/monitor.go:49-64 | in every run of activator, daemon and restarter together the backend has a monitor, a status and a tracker exactly while the activator watches it, and only while it is up |
| `Supervision.RestartsGoBackToAWatch` | internal/restarter/restarter.go:116-147 | every Restart of the backend itself comes from a lookup made while the activator was watching it and it was up |
| `Supervision.RestartAfterUnwatch` | internal/daemon/daemon.go:289-307 | one between an Unwatch and the next Watch comes from a lookup made before that Unwatch |
| `Daemon.Daemon.RegisterUnit` | internal/daemon/daemon.go:172-204 | a name already registered keeps its binding; a new one enters every map, and its initial state is announced |
| `Daemon.Daemon.UnregisterUnit` | internal/daemon/daemon.go:235-256 | the name leaves every map; an unknown one changes nothing |
| `Daemon.Daemon.UpdateUnit` | internal/daemon/daemon.go:327-330 | the name is rebound with a fresh status and tracker, and the maps still agree |
| `Daemon.Daemon.Watch` | internal/daemon/daemon.go:264-285 | a backend with checks gets a monitor, a fresh status and a fresh tracker, and the maps still agree |
| `Daemon.Daemon.Unwatch` | internal/daemon/daemon.go:289-307 | a watched backend leaves the monitors, the statuses and the trackers, and the maps still agree |
| `Daemon.Daemon.FindMatchingTemplate` | internal/daemon/daemon.go:309-325 | the first template, in configuration order, the name is an instance of; none exactly if it is an instance of none |
| `Instances.TemplateShape` | internal/config/config.go:186-209 | a unit is a template exactly when its name is a base, an @ and nothing or a bracketed pattern; its prefix is the base with the @ |
| `Instances.ExtractsInstance` | internal/daemon/daemon.go:631-636 | the instance is what stands between prefix and type, whatever it is |
| `Instances.NoOverlap` | internal/daemon/daemon.go:631-636 | prefix and type overlap in no name, as no type contains an @ |
| `Instances.MatchesExactly` | internal/daemon/daemon.go:310-322 | a name matches a template exactly when it is its base, an @, an instance the pattern accepts, a dot and its type |
| `Bindings.FirstMatchFacts` | internal/daemon/daemon.go:309-325 | the match is a template no earlier one preempts; none is reported exactly when no template matches |
| `Instances.MatchingPrefix` | internal/daemon/daemon.go:309-325 | all templates a name is an instance of share its prefix up to the first @ |
| `Daemon.Daemon.DiscoverInstances` | internal/daemon/daemon.go:332-355 | adds exactly the live matching names not yet registered; a failed listing changes nothing |
| `Daemon.Daemon.Reload` | internal/daemon/daemon.go:491-564 | refines the functional specification of reload for every iteration order of the maps, including names, bindings, critical names, dependents and agreement; and in terms of unit names alone |
| `Daemon.Daemon.Startup` | internal/daemon/daemon.go:93-111 | the initial registration binds each name to the first unit that claims it, in terms of unit names alone; builds the reverse-dependency index, and keeps the agreement of the maps, which a fresh daemon has |
| `Bindings.ReloadedExactly` | internal/daemon/daemon.go:491-564 | reload registers the enabled explicit units, the old names that are instances of an enabled template and the listed live instances, each bound to its explicit unit or else the first template it is an instance of |
| `Bindings.StartedExactly` | internal/daemon/daemon.go:100-111 | starting registers each name for the first enabled unit that has it or of which it is a listed live instance |
| `Bindings.StartupBindsLikeReload` | internal/daemon/daemon.go:100-111 | starting binds an explicit unit as reloading does exactly when no earlier template discovers its name |
| `Bindings.ReloadAgainstStartup` | internal/daemon/daemon.go:491-564 | a reload registers what a start does, and nothing more exactly when no instance lingers from before; the two bind alike exactly when in addition no earlier template discovers an explicit unit's name |
| `Bindings.TemplateCanShadow` | internal/daemon/daemon.go:100-111 | a concrete configuration in which a template takes a live explicit instance's name at startup and loses it on reload |

## Left out

- Sockets, listeners, byte relaying, health probes and their network or script calls: success, failure and traffic are nondeterministic.
- systemd access (D-Bus, systemctl, dry run, watchdog): the manager returns arbitrary results and keeps a call log.
- YAML decoding, the validator library and regular expressions: unit lists arrive decoded, instance matching is an uninterpreted predicate.
- Command line, HTTP health server, notifier, control socket, logging, JSON.
- Interleaving of registry operations with each other: each register, unregister, watch and unwatch is one operation, because the source releases the daemon's mutex before it touches the state manager and the restarter.
- Fairness: progress is stated as freedom from deadlock and, for idle stops, under on-time ticks.
- The event a registration's initial state emits is recorded by the state manager; what the restarter does with events is in `RestarterProtocol` and `HealthPipeline`, not repeated in `Daemon`.
- The timer monitor (`checkTimers`) and the discovery and timer loops: they repeat operations modelled here.
- Restarter.Restarter.AttemptRestart: the attempt uninterrupted; its sections interleaved with everything else are in `RestarterProtocol`.
