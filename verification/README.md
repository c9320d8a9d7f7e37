# lazy-tcp-proxy: verified model

lazy-tcp-proxy starts containers when traffic arrives for them and stops them when they are
idle. This project models five of its parts and proves what they promise over all inputs, runs
and interleavings.

* **UDP flow establishment** (`UdpListener`, `UdpProtocol`, `UdpProgress`, `UdpReadiness`,
  `UdpService`). Each critical section of a listener is a transition on its shared state, carried out by a method of
  the in-place object; datagrams, flow workers, upstream replies, the sweeper, reconfigurations,
  listener removals and container stops interleave freely as steps of one system.
* **Target registry and lifecycle** (`Registry`, `RegistryNames`, `StaleNames`, `RegistryUpdate`,
  `RegistryUpdateNames`, `RegistryUpdatePorts`, `RegistryEffects`, `UpdateTargets`, `Lifecycle`,
  `UpdateEvents`, `ProxyServer`, `Inactivity`, `IdleRuns`, `IdleChecks`, `RedundantStops`, `Cascade`, `CascadeStart`,
  `CascadeStop`). Registration, removal, reconciliation of a new target list in any map order,
  container events, the idle checker in one go and split into steps, and start and stop cascades
  on arbitrary dependants graphs.
* **Port allocation and Traefik configuration** (`PortAllocator`, `TraefikNames`,
  `TraefikOptions`, `TraefikConfig`, `TraefikAllocation`, `TraefikReadback`), with the theorem that
  spans both and a reader of the generated texts.
* **The in-memory git server** (`GitBytes`, `GitPktLine`, `GitPack`): each writer beside the
  reader that undoes it.
* **Metrics** (`Metrics`, `MetricsRuns`, `MetricsObject`, `MetricsLevels`, `RetryBuffer`, `RetryAlone`,
  `RetryOrder`, `RetryOverlap`): an accumulator whose atomic operations interleave with rollups, and the bounded
  buffer of unwritten snapshots.

Code that works in place is a class whose methods are proved equal to transitions on values; the
lemmas are about those transitions and their runs. `dafny verify dfyconfig.toml` checks
everything.

Several promises hold only under a condition, which is stated exactly:

* A second leader is elected beside a first exactly when a worker chooses its role while both
  flags are clear (`UdpProtocol.SecondLeaderExactly`); one container stop is enough to get there
  (`UdpProtocol.TwoLeadersAreReachable`), and it can come to that exactly when somebody led at a
  stop (`UdpProtocol.TwoLeadersExactly`, `UdpProtocol.AtMostOneLeader`).
* The readiness flag is set after a container stop without a further answer exactly when an
  answered leader had not yet published at the stop (`UdpReadiness.StaleReadinessExactly`).
* Two stop calls for one container can follow each other with no start or observation in between
  exactly when the first leaves a listener marked running behind
  (`RedundantStops.RedundantStopExactly`, with `IdleRuns.RedundantStopExists` as an example).
* An update of targets with disjoint ports leaves the same names in every order exactly when no
  changed target takes a name that another changed one takes or still has
  (`RegistryUpdateNames.UpdateOrderIrrelevantExactly`); its listeners are the same in any case
  (`RegistryUpdate.UpdateOrderIrrelevant`). When ports overlap, the listeners are the same in every
  order exactly when the changed targets that overlap nothing held before are disjoint and each of
  the others has something in its way in every order (`RegistryUpdatePorts.EntriesIndependentExactly`).
* Names resolve to ids over all runs exactly when namesakes with different ids exclude each other
  by their ports (`RegistryNames.NamesResolveExactly`), and `StaleNames` says exactly which
  registrations leave a name that no entry carries any more.
* A flush can put the retry buffer out of creation order exactly when it begins before every
  earlier one has finished and there are at least two snapshots, buffered, in hand or new
  (`RetryOverlap.OverlapBreaksOrderExactly`). It can make a full buffer drop a snapshot that is not
  the oldest, against the comment at metrics/postgres.go:177-178, exactly when there are then more
  snapshots than the buffer holds (`RetryOverlap.OverlapBreaksDropExactly`).
* A full side-band chunk makes a pkt-line of 65521 bytes, one more than the 65520 that the
  "pkt-line Format" section of gitprotocol-common allows; this happens exactly for packs of at
  least 65516 bytes (`GitPktLine.SideBandExceedsLimit`).
* A pack parses back exactly while its object count fits 32 bits (`GitPack.PackRoundTrip`).
* Sanitised names separate ports up to their sign (`TraefikNames.NamesSeparateAbsolutePorts`).

## Model

| member | source | states |
|---|---|---|
| UdpListening.RetriesIsCeiling | lazy-tcp-proxy/internal/proxy/udp.go:199-203 | The retry budget is max(1, ceil(startTimeout / 500ms)) for every 64-bit duration whose rounding does not overflow, and 1 for the others |
| UdpListening.UdpListener.OnDatagram | lazy-tcp-proxy/internal/proxy/udp.go:80-98 | A datagram refreshes its flow, is dropped while its key is pending, or marks the key pending and spawns a worker |
| UdpListening.UdpListener.ChooseRole | lazy-tcp-proxy/internal/proxy/udp.go:172-195 | Role selection: fast path, follower, giving up, or becoming leader, which alone sets the starting flag |
| UdpListening.UdpListener.ProbeUpstream | lazy-tcp-proxy/internal/proxy/udp.go:199-241 | The leader's loop stops at the first answer or fatal error, otherwise after exactly the budget; it never exceeds the budget |
| UdpListening.UdpListener.PublishOutcome | lazy-tcp-proxy/internal/proxy/udp.go:244-250 | Publication clears the starting flag and sets readiness only after an answer |
| UdpListening.UdpListener.RegisterFlow | lazy-tcp-proxy/internal/proxy/udp.go:275-279 | Registration moves the key from pending to the flows in one critical section |
| UdpListening.UdpListener.OnReply | lazy-tcp-proxy/internal/proxy/udp.go:356-360 | A reply refreshes its own flow if that is still registered, and always the listener |
| UdpListening.UdpListener.Abandon | lazy-tcp-proxy/internal/proxy/udp.go:115-119 | Cleaning up releases the pending key and nothing else |
| UdpListening.UdpListener.SweepFlows | lazy-tcp-proxy/internal/proxy/udp.go:379-397 | A sweep keeps exactly the flows idle for no longer than the timeout, whatever the map order |
| UdpListening.UdpListener.OnContainerStopped | lazy-tcp-proxy/internal/proxy/server.go:849-857 | A stop clears readiness and the starting flag, and wakes sleepers exactly when a probe was under way |
| UdpProtocol.PendingKept | lazy-tcp-proxy/internal/proxy/udp.go:80-94 | Every step keeps pending keys disjoint from flows, with exactly one live worker per pending key |
| UdpProtocol.WakeUpKept | lazy-tcp-proxy/internal/proxy/udp.go:172-250 | Every step keeps: a sleeper implies the starting flag, which implies a leader that has yet to publish |
| UdpProtocol.RunKeepsInv | lazy-tcp-proxy/internal/proxy/udp.go:80-338 | Both invariants hold in every reachable state of every interleaving |
| UdpProtocol.RegisteringNeverOverwrites | lazy-tcp-proxy/internal/proxy/udp.go:275-329 | A worker about to register finds its key pending and no flow under it |
| UdpProtocol.NoLostWakeUp | lazy-tcp-proxy/internal/proxy/udp.go:179-188 | While a follower sleeps a leader is still going to publish, container stops in mid-probe included |
| UdpProtocol.AtMostOneLeader | lazy-tcp-proxy/internal/proxy/udp.go:173-195 | In runs whose container stop and removal events come only while nobody leads, at most one worker leads |
| UdpProtocol.SecondLeaderExactly | lazy-tcp-proxy/internal/proxy/udp.go:173-195 | Beside one leader, a worker choosing its role becomes a second leader exactly when neither readiness nor starting flag is set |
| UdpProtocol.OnlyElectionsAddLeaders | lazy-tcp-proxy/internal/proxy/udp.go:173-250 | No step other than choosing a role ever makes a second leader |
| UdpProtocol.StopAllowsTwoLeaders | lazy-tcp-proxy/internal/proxy/server.go:849-857 | After a stop in a state with a leader, a dialling worker that chooses its role leads beside it |
| UdpProtocol.TwoLeadersExactly | lazy-tcp-proxy/internal/proxy/server.go:849-857 | After a stop two workers can come to lead at once, without another stop, if and only if somebody led at the stop |
| UdpProtocol.TwoLeadersAreReachable | lazy-tcp-proxy/internal/proxy/server.go:849-857 | A run from the initial state with exactly one container stop ends with two different workers leading |
| UdpReadiness.StaleReadinessExactly | lazy-tcp-proxy/internal/proxy/server.go:849-857 | After a stop the readiness flag can go up again without a further answered probe exactly when a leader already answered had not published at the stop |
| UdpReadiness.ReadyMeansAnswered | lazy-tcp-proxy/internal/proxy/udp.go:244-250 | In every run whose stops come while no answer is in flight, a ready listener has had a probe answered since the last stop |
| UdpReadiness.StaleReadinessIsReachable | lazy-tcp-proxy/internal/proxy/udp.go:244-250 | A run from the initial state ends ready although nothing answered since its last stop |
| UdpProgress.WorkerStepLowersMeasure | lazy-tcp-proxy/internal/proxy/udp.go:111-338 | A ranking falls with every worker step, although a publication wakes any number of followers |
| UdpProgress.LiveWorkersCanMove | lazy-tcp-proxy/internal/proxy/udp.go:111-338 | No reachable state with a live worker is a deadlock |
| UdpProgress.WorkersDrain | lazy-tcp-proxy/internal/proxy/udp.go:111-338 | Without new external events the number of worker steps is bounded by the ranking, and a run can only end with no live worker |
| UdpProgress.RegisteredAfterAnswer | lazy-tcp-proxy/internal/proxy/udp.go:244-329 | In every run a flow is registered only after some leader's probe was answered |
| UdpProgress.AttemptsBounded | lazy-tcp-proxy/internal/proxy/udp.go:199-241 | A worker probes only if elected, and at most as often as the budget of the start timeout it reads after its election |
| UdpProgress.ProbeLoopIsRun | lazy-tcp-proxy/internal/proxy/udp.go:207-241 | The probe loop and the step-by-step system agree on outcome and attempts |
| UdpService.ReadyServesNewClient | lazy-tcp-proxy/internal/proxy/udp.go:174-329 | On a ready listener a dialling worker that chooses its role, sends its datagram and registers leaves its client with a flow over its own connection and no longer pending |
| UdpService.ReadyServesWokenClient | lazy-tcp-proxy/internal/proxy/udp.go:179-329 | So does a woken worker of a ready listener that is neither removed nor being probed |
| UdpService.ColdListenerServesFirstClient | lazy-tcp-proxy/internal/proxy/udp.go:190-279 | On a cold listener the first client is served once its own probe is answered, and the listener is ready from then on |
| UdpService.PublicationServesSleepers | lazy-tcp-proxy/internal/proxy/udp.go:244-329 | A published answer wakes every sleeper of a listener still in place, and each can then be served |
| UdpService.SleepsOnlyWhileProbing | lazy-tcp-proxy/internal/proxy/udp.go:177-182 | A worker goes to sleep only while the listener is in place and being probed |
| UdpService.AbandonedForCause | lazy-tcp-proxy/internal/proxy/udp.go:111-305 | In every run a worker gives its client up only after its own failed dial, unanswered probe or failed send, or having found the listener removed or, when woken, neither ready nor being probed |
| UdpService.RegisteredForCause | lazy-tcp-proxy/internal/proxy/udp.go:207-329 | In every run a worker registers a flow only after its own datagram was sent or its own probe was answered |
| UdpService.FlagsFollowSteps | lazy-tcp-proxy/internal/proxy/udp.go:172-250 | Which steps set and clear readiness, the starting flag, the removed flag and the start timeout |
| UdpService.ReadyExactly | lazy-tcp-proxy/internal/proxy/udp.go:244-248 | In every run the listener is ready exactly if an answer has been published since the last container stop |
| UdpService.ActivityIsTraffic | lazy-tcp-proxy/internal/proxy/udp.go:95-97 | Only traffic of its own connection or key moves a flow's activity time, and always to the time of that traffic |
| UdpService.ListenerActivity | lazy-tcp-proxy/internal/proxy/udp.go:356-360 | The listener's activity time follows forwarded datagrams, replies and registrations, and nothing else |
| UdpService.FlowsEndWhenIdle | lazy-tcp-proxy/internal/proxy/udp.go:379-397 | A step ends a flow exactly when it is a sweep at which the flow has been idle for longer than the timeout |
| UdpService.SweptExactlyWhenIdle | lazy-tcp-proxy/internal/proxy/udp.go:379-397 | In every run a sweep ends a flow exactly when the last traffic of that flow lies further back than the timeout |
| Registry.ConflictingRegistrationIsVoid | lazy-tcp-proxy/internal/proxy/server.go:556-674 | A registration that conflicts changes nothing; any other binds its name and takes every port it holds already or can listen on |
| Registry.EntriesDeclareTheirPort | lazy-tcp-proxy/internal/proxy/server.go:576-669 | Over every run each entry's info declares that port with the entry's current target port |
| Registry.StepKeepsOwners | lazy-tcp-proxy/internal/proxy/server.go:560-740 | A port stays with its owner through every operation except that owner's removal |
| Registry.OwnerChangesOnlyByRemoval | lazy-tcp-proxy/internal/proxy/server.go:560-740 | If a port has left its owner during a run, the run removed that owner |
| RegistryEffects.RegistrationEffect | lazy-tcp-proxy/internal/proxy/server.go:556-697 | A registration that meets another container's port changes nothing; any other one gives each listed port it holds or can listen on the target's info, flags and last target port, keeping the activity of held ones, and touches nothing else |
| RegistryEffects.RemovalEffect | lazy-tcp-proxy/internal/proxy/server.go:700-740 | A removal drops exactly the container's entries, and of the names exactly those that its entries carry |
| RegistryNames.NamesResolveOverRuns | lazy-tcp-proxy/internal/proxy/server.go:671-740 | If targets of one name with different ids declare the same ports, every registered target's name resolves to its id over every run, renamed containers included |
| RegistryNames.NamesResolveExactly | lazy-tcp-proxy/internal/proxy/server.go:556-740 | Over all runs that register only the given targets every registered name resolves if and only if any two of one name with different ids declare the same, non-empty ports |
| RegistryNames.SharedNameIsLost | lazy-tcp-proxy/internal/proxy/server.go:704-733 | In any registry that holds two namesakes, removing one leaves the other registered without its name |
| StaleNames.RemovalLeavesNoStaleName | lazy-tcp-proxy/internal/proxy/server.go:700-740 | Removal never leaves a name that no registered entry of its container carries |
| StaleNames.RegistrationLeavesNoStaleNameExactly | lazy-tcp-proxy/internal/proxy/server.go:576-671 | A registration without conflict leaves no stale name if and only if its own name ends up backed by an entry and each other name of the container keeps an entry it does not overwrite |
| StaleNames.CleanRunsLeaveNoStaleName | lazy-tcp-proxy/internal/proxy/server.go:556-740 | Over runs whose registrations all conflict or meet that condition no name is ever stale |
| RegistryUpdate.FollowsIsUnique | lazy-tcp-proxy/internal/proxy/server.go:790-812 | Which targets are kept and which are placed afresh determines all listeners and port-less entries |
| RegistryUpdate.RemoveFollows | lazy-tcp-proxy/internal/proxy/server.go:700-740 | Removing a container removes exactly its listeners and port-less entry |
| RegistryUpdate.RemovedName | lazy-tcp-proxy/internal/proxy/server.go:704-733 | Of the names, removing a container gives up exactly its own |
| RegistryUpdate.PlaceFollows | lazy-tcp-proxy/internal/proxy/server.go:556-697 | Registering on free ports never conflicts and adds exactly the container's fresh listeners |
| RegistryUpdate.UpdateFollowsPlan | lazy-tcp-proxy/internal/proxy/server.go:790-812 | In every map-iteration order an update keeps the unchanged targets' own entries, places the others afresh and drops the rest, whatever their names |
| RegistryUpdate.UpdateOrderIrrelevant | lazy-tcp-proxy/internal/proxy/server.go:798-811 | Any two iteration orders lead to the same listeners and port-less entries, whatever the names |
| RegistryUpdate.UpdateKeepsConsistency | lazy-tcp-proxy/internal/proxy/server.go:790-812 | The entries after an update again satisfy the premise of the next one |
| RegistryUpdate.UpdateIsFreshRegistration | lazy-tcp-proxy/internal/proxy/server.go:787-812 | An update leaves the listeners that registering the new targets from nothing would create, and unchanged targets keep their state |
| UpdateTargets.NewByIdIsLast | lazy-tcp-proxy/internal/proxy/server.go:793-796 | The map holds exactly the listed ids, each with the last listed target of that id |
| UpdateTargets.UnlistedAreGone | lazy-tcp-proxy/internal/proxy/server.go:790-803 | From any registry, in every order, an update leaves no listener and no port-less entry of a container that is not listed |
| UpdateTargets.ListedAreServed | lazy-tcp-proxy/internal/proxy/server.go:790-812 | Of a consistent registry and disjoint ports: every listed target without a later namesake id ends up with a listener on each of its ports, leading to the last target port, or its port-less entry; the old one if ports and configuration are unaltered, a fresh one with its flags otherwise |
| RegistryUpdatePorts.UpdatePlaces | lazy-tcp-proxy/internal/proxy/server.go:790-812 | With overlapping ports too, in every order an update keeps the unchanged targets and places exactly the changed ones that fit at their turn |
| RegistryUpdatePorts.EntriesIndependentExactly | lazy-tcp-proxy/internal/proxy/server.go:798-811 | All listens succeeding, the entries are the same in every order if and only if the changed targets overlapping nothing held before are disjoint and each of the others has something in its way in every order |
| RegistryUpdatePorts.ReconcilableIsSettled | lazy-tcp-proxy/internal/proxy/server.go:798-811 | Pairwise disjoint targets meet that condition |
| RegistryUpdateNames.UpdateNames | lazy-tcp-proxy/internal/proxy/server.go:798-811 | Where no changed target takes a name another changed one takes or still has, every order ends with the same, explicitly given names |
| RegistryUpdateNames.UpdateOrderIrrelevantExactly | lazy-tcp-proxy/internal/proxy/server.go:798-811 | The whole registry, names included, is the same in every order if and only if no changed target takes a name that another changed one takes or still has |
| RegistryUpdateNames.NewNamesakesDependOnOrder | lazy-tcp-proxy/internal/proxy/server.go:804-811 | Two new targets without ports that share a name leave a registry that depends on the order |
| RegistryUpdateNames.UpdateKeepsNames | lazy-tcp-proxy/internal/proxy/server.go:798-811 | After such an update the names again fit the registered targets if and only if these have different names |
| RegistryUpdateNames.NamesAreThoseOfFreshRegistration | lazy-tcp-proxy/internal/proxy/server.go:787-812 | If the new targets have different names and unchanged ones keep theirs, an update leaves the names that registering from nothing would leave |
| UpdateEvents.ActivityCommutes | lazy-tcp-proxy/internal/proxy/server.go:816-930 | Container events and traffic anywhere among registrations and removals change nothing but flags, activity and activity times |
| UpdateEvents.UpdateAmongEvents | lazy-tcp-proxy/internal/proxy/server.go:790-812 | An update whose separately locked operations are interleaved with container events and traffic ends, but for those, where the undisturbed one ends |
| ProxyServing.SnapshotOfConsistent | lazy-tcp-proxy/internal/proxy/server.go:745-759 | In a consistent registry the snapshot by container id does not depend on which entry is met last |
| ProxyServing.ProxyServer.HasConflict | lazy-tcp-proxy/internal/proxy/server.go:562-575 | The pre-flight loop finds a port held by another container exactly when one exists |
| ProxyServing.ProxyServer.RegisterAll | lazy-tcp-proxy/internal/proxy/server.go:578-630 | The listener loop updates held ports in place, opens those it can and skips the others |
| ProxyServing.ProxyServer.RegisterTarget | lazy-tcp-proxy/internal/proxy/server.go:556-697 | The in-place registration is the registration transition |
| ProxyServing.ProxyServer.RemoveOwned | lazy-tcp-proxy/internal/proxy/server.go:704-717 | The removal loop deletes exactly the container's ports and their names, in any map order |
| ProxyServing.ProxyServer.RemoveTarget | lazy-tcp-proxy/internal/proxy/server.go:700-740 | The in-place removal is the removal transition |
| ProxyServing.ProxyServer.CurrentTargetsById | lazy-tcp-proxy/internal/proxy/server.go:745-759 | The snapshot covers every registered container with the info of one of its entries |
| ProxyServing.ProxyServer.Update | lazy-tcp-proxy/internal/proxy/server.go:790-812 | Every listed id is registered exactly once, as the last listed target of that id; no container that is not listed keeps an entry; the state is that of the update in some removal order and some duplicate-free registration order |
| ProxyServing.ProxyServer.ContainerStarted | lazy-tcp-proxy/internal/proxy/server.go:896-930 | A start marks all listeners of the container running and present, and picks the info to cascade from TCP or port-less entries only |
| ProxyServing.ProxyServer.ContainerStopped | lazy-tcp-proxy/internal/proxy/server.go:816-861 | A stop marks all its listeners stopped and picks the info to cascade from any entry |
| ProxyServing.ProxyServer.ContainerRemoved | lazy-tcp-proxy/internal/proxy/server.go:866-892 | A removal marks its listeners stopped and missing, keeps them registered and cascades nothing |
| Lifecycle.EventsHandOnDependants | lazy-tcp-proxy/internal/proxy/server.go:816-930 | In a consistent registry the handlers hand on exactly the dependants the cascade graphs use, so a UDP-only hub hands on none when it starts |
| Lifecycle.EventsKeepConsistency | lazy-tcp-proxy/internal/proxy/server.go:816-930 | Container events keep the registry consistent, names included, so what is proved of updates survives them |
| RegistryEffects.FlagsFollowEvents | lazy-tcp-proxy/internal/proxy/server.go:816-930 | After any series of events a listener is marked running exactly if its container's last event is a start, and missing exactly if the last start or removal is a removal; it is otherwise the entry it was |
| RegistryEffects.CronFollowsEvents | lazy-tcp-proxy/internal/proxy/server.go:816-930 | After any series of events a port-less entry is marked running exactly if the last start or stop of its container is a start; removals leave it alone |
| Inactivity.GroupListeners | lazy-tcp-proxy/internal/proxy/server.go:959-1011 | The two passes group by container: the flag is the conjunction over all its on-demand listeners, and the members are exactly those |
| Inactivity.FlaggedIsDue | lazy-tcp-proxy/internal/proxy/server.go:970-1014 | A group is flagged exactly when the container has an on-demand listener and all of those are running, without activity and idle long enough |
| Inactivity.DueIsQuiet | lazy-tcp-proxy/internal/proxy/server.go:967-1011 | The checker's rule is the one stated on each listener's own fields: availability or missing schedule, connections or flows and pending ones, own timeout or the global one |
| Inactivity.CheckInactivity | lazy-tcp-proxy/internal/proxy/server.go:947-1039 | A container gets a stop call exactly if it has an on-demand listener and all those run, have nothing open and have been quiet for their own timeout, or the global one where they have none; where the call succeeds exactly those listeners are marked stopped |
| IdleRuns.OpenConnectionPreventsStop | lazy-tcp-proxy/internal/proxy/server.go:947-1018 | A connection or flow open from snapshot to stop call on a listener that stays registered and on-demand prevents the call, whatever else happens |
| IdleChecks.CallsFollowLooks | lazy-tcp-proxy/internal/proxy/server.go:970-1018 | Under any interference a check calls stop for exactly the containers of which it looked at an on-demand listener and found every one idle at that moment |
| IdleChecks.UndisturbedCheckCallsTheDue | lazy-tcp-proxy/internal/proxy/server.go:947-1018 | A check that nothing disturbs calls stop for exactly the containers the rule says are due |
| IdleChecks.RecentActivityPreventsStop | lazy-tcp-proxy/internal/proxy/server.go:984-1018 | A registered on-demand listener that at its look is down, has something open, or was active more recently than the timeout that applies keeps that check from stopping the container, whatever happens in between |
| IdleRuns.RunningFlagFollows | lazy-tcp-proxy/internal/proxy/server.go:816-1029 | A listener's running mark changes only by start and stop events of its container, a registration on its port, and a successful stop call for a group it is in |
| IdleRuns.NoRedundantStop | lazy-tcp-proxy/internal/proxy/server.go:947-1039 | Between the snapshot of the check that stopped a container and any later stop call for it, some step started it or observed it running, whatever happened during that check |
| IdleRuns.NoRedundantStopBetween | lazy-tcp-proxy/internal/proxy/server.go:1013-1029 | If at a successful stop every registered on-demand listener marked running belongs to the group being stopped, a start or an observation lies between it and any later stop call |
| RedundantStops.RedundantStopExactly | lazy-tcp-proxy/internal/proxy/server.go:1013-1029 | A further stop call can follow a successful one without a start or an observation in between if and only if, at the call, such a listener is missing from the group |
| IdleRuns.RedundantStopExists | lazy-tcp-proxy/internal/proxy/server.go:947-1039 | Without that condition a concrete run stops the same container twice with no start or observation in between |
| Cascade.ClosedHoldsReachable | lazy-tcp-proxy/internal/proxy/server.go:1438-1526 | A set closed under a cascade's eligible edges contains everything the cascade reaches |
| Cascade.UdpOnlyHubReachesNothing | lazy-tcp-proxy/internal/proxy/server.go:910-929 | The start event of a UDP-only hub reaches nothing |
| Cascade.DependantsAreBounded | lazy-tcp-proxy/internal/proxy/server.go:1438-1439 | Every finite registry has the fan-out bound used by the termination measures |
| Cascade.EdgesExactly | lazy-tcp-proxy/internal/proxy/server.go:1438-1526 | A cascade passes from a to b exactly if b is registered under a name that a lists, and for starts a has TCP ports or no ports at all |
| CascadeStart.StepLowersWork | lazy-tcp-proxy/internal/proxy/server.go:1438-1474 | Each step of a start cascade lowers its remaining work, on cyclic graphs too |
| CascadeStart.StartCascade | lazy-tcp-proxy/internal/proxy/server.go:1438-1474 | A start cascade ends within a bound however it interleaves, having started exactly the targets reachable through containers that were down |
| CascadeStart.StartsLeastClosedSet | lazy-tcp-proxy/internal/proxy/server.go:1438-1474 | When a start cascade has ended, what is up is the least set that holds what was up and is closed under the listed dependants of the hub and of the containers it started |
| CascadeStop.StopCascade | lazy-tcp-proxy/internal/proxy/server.go:1477-1526 | A stop cascade ends within a bound however it interleaves, having stopped exactly the targets reachable through containers that were up and marked running |
| CascadeStop.UnmarkedIsNeverStopped | lazy-tcp-proxy/internal/proxy/server.go:1477-1507 | A container that no listener marks running, such as a cron-only one, is never stopped by a cascade |
| CascadeStop.StopsLeastClosedSet | lazy-tcp-proxy/internal/proxy/server.go:1477-1526 | When a stop cascade has ended, what it stopped is the least set closed under those listed dependants of the hub and of its own members that were up and marked running |
| CascadeStop.MarksGoExactly | lazy-tcp-proxy/internal/proxy/server.go:1505-1525 | A mark goes exactly when its container's die event is handled or the goroutine that stopped it returns from the backend |
| CascadeStop.StoppedAreUnmarked | lazy-tcp-proxy/internal/proxy/server.go:1505-1525 | When a stop cascade has ended, nothing it stopped is still marked running |
| PortAllocation.LeastFree | lazy-tcp-proxy/internal/types/portalloc.go:89-97 | The search ends, at the least unclaimed port at or above base |
| PortAllocation.RunKeeps | lazy-tcp-proxy/internal/types/portalloc.go:42-79 | Over every sequence of claims and allocations the assignment is injective, only grows, and gives out no claimed port |
| PortAllocation.AssignmentsAreStable | lazy-tcp-proxy/internal/types/portalloc.go:55-75 | A domain keeps the port it had at any earlier point, and no other domain ever has it |
| PortAllocation.NewPortIsLeastFree | lazy-tcp-proxy/internal/types/portalloc.go:70-73 | A new domain gets the least unclaimed port from base, at most as far above base as there are claimed ports |
| PortAllocation.ClaimedPortIsNeverGiven | lazy-tcp-proxy/internal/types/portalloc.go:42-79 | Over every run a listen port named in a claim is assigned to no domain that first gets its port later |
| PortAllocation.ClaimedExactly | lazy-tcp-proxy/internal/types/portalloc.go:42-75 | Over every run the claimed ports are exactly those named in some claim or assigned to some domain |
| PortAllocation.OnlyNamedDomains | lazy-tcp-proxy/internal/types/portalloc.go:63-74 | An allocation gives ports to exactly the non-empty domains of its specs |
| PortAllocation.NamedSplits | lazy-tcp-proxy/internal/types/portalloc.go:63-66 | Leaving out specs without a domain goes part by part, so that the order is kept |
| PortAllocation.PortAllocator.ClaimPorts | lazy-tcp-proxy/internal/types/portalloc.go:42-48 | Claiming adds exactly the listed listen ports |
| PortAllocation.PortAllocator.NextFree | lazy-tcp-proxy/internal/types/portalloc.go:89-97 | The loop terminates at the least free port within the number of claimed ports |
| PortAllocation.PortAllocator.AllocatePortMappings | lazy-tcp-proxy/internal/types/portalloc.go:58-79 | One host line and one mapping per named spec, in order, each carrying the domain's port in the final assignment |
| TraefikNames.SanitiseName | lazy-tcp-proxy/internal/traefik/config.go:129-140 | Mapping, collapsing and trimming yields the alphanumeric words joined by single hyphens |
| TraefikNames.FoldTable | lazy-tcp-proxy/internal/traefik/config.go:130-138 | Digits and small letters stay, capitals become small, U+0130 and U+212A become i and k, and all else becomes a hyphen |
| TraefikNames.SlugIsWords | lazy-tcp-proxy/internal/traefik/config.go:129-140 | The sanitised text equals an independent definition by maximal alphanumeric runs |
| TraefikNames.EntryNameWords | lazy-tcp-proxy/internal/traefik/config.go:258 | The port is the last word of an entry's name, whatever the domain contains |
| TraefikNames.NamesSeparatePorts | lazy-tcp-proxy/internal/traefik/config.go:258-285 | For non-negative ports two names are equal exactly when the ports are equal and the domains sanitise alike |
| TraefikNames.NamesSeparateAbsolutePorts | lazy-tcp-proxy/internal/traefik/config.go:129-140 | For all ports two names are equal exactly when the absolute values of the ports are and the domains sanitise alike |
| TraefikNames.NegativePortsCollide | lazy-tcp-proxy/internal/traefik/config.go:129-140 | A negative port yields the same name as its absolute value |
| TraefikOptions.ComputeTlsOption | lazy-tcp-proxy/internal/traefik/config.go:155-173 | The extra protocols, each once and in order, and the known minimum versions decide name and option |
| TraefikReadback.OptionIsAskedFor | lazy-tcp-proxy/internal/traefik/config.go:142-173 | A snapshot gets no option exactly if all its protocols are offered anyway and its minimum version is unknown; otherwise the three default protocols come first, then each further one once in order of first occurrence, and the version by its name |
| TraefikReadback.PreferredName | lazy-tcp-proxy/internal/traefik/config.go:162-171 | The name tried first says which protocols and which version the option is for |
| TraefikOptions.TakenBound | lazy-tcp-proxy/internal/traefik/config.go:178-187 | If the first i candidate names are taken then at least i options exist |
| TraefikOptions.FirstAcceptable | lazy-tcp-proxy/internal/traefik/config.go:178-187 | A free or identical name is found within one more step than there are options, and it is the first such |
| TraefikOptions.UniqueOptionName | lazy-tcp-proxy/internal/traefik/config.go:178-187 | The loop terminates and returns the first acceptable name: the plain one if that is free or denotes the same option, else one with a number from 2 behind it |
| TraefikConfig.EmitHostEntries | lazy-tcp-proxy/internal/traefik/config.go:247-298 | The entry loops write exactly the routers and services of the matching entries, in order |
| TraefikConfig.BuildConfig | lazy-tcp-proxy/internal/traefik/config.go:227-337 | The builder's loops compute the configuration that the lemmas below are about |
| TraefikConfig.MatchEntryExactly | lazy-tcp-proxy/internal/traefik/config.go:248-257 | An entry matches a port exactly when it is a non-empty domain, a colon and, without a further colon, a numeral of that port |
| TraefikReadback.EveryRouterServes | lazy-tcp-proxy/internal/traefik/config.go:227-337 | Every router of the output, read back, matches the domain of an entry some snapshot lists and leads to its port, with the configured entry point, resolver and transport and the option that snapshot asks for; or it serves the web host |
| TraefikReadback.LastEntryWins | lazy-tcp-proxy/internal/traefik/config.go:239-298 | Of the entries whose names coincide the last one has the router, unless the web host takes the key |
| TraefikReadback.WebHostRouted | lazy-tcp-proxy/internal/traefik/config.go:301-315 | The web host always has its router, without a TLS option, leading to the web port |
| TraefikReadback.SectionsAsNeeded | lazy-tcp-proxy/internal/traefik/config.go:317-336 | The TCP section, the TLS section and the transport are there exactly when some entry, some snapshot or some timeout needs them, and exactly the options asked for are recorded |
| TraefikConfig.NameOptionKeeps | lazy-tcp-proxy/internal/traefik/config.go:240-244 | Naming an option leaves every recorded option unchanged, and the chosen name denotes the option asked for |
| TraefikConfig.EveryRouterIsExplained | lazy-tcp-proxy/internal/traefik/config.go:227-337 | Whatever names collide, each router was written by one matching entry or the web host, its service exists with that entry's port, and its TLS option is the one that entry's snapshot asked for |
| TraefikConfig.EntryHasRouter | lazy-tcp-proxy/internal/traefik/config.go:247-298 | Every matching entry has a router under its key in the output |
| TraefikConfig.EveryEntryKeepsItsPort | lazy-tcp-proxy/internal/traefik/config.go:258-315 | With non-negative ports the router under an entry's key always leads to a service whose address, read back, is that entry's port on the proxy host, with "http://" in front exactly for HTTP |
| TraefikAllocation.PrintedHostParses | lazy-tcp-proxy/internal/traefik/config.go:248-257 | The builder reads a printed host back as its domain for its own port and for no other |
| TraefikAllocation.AllocatedDomainIsRouted | lazy-tcp-proxy/internal/types/portalloc.go:58-79 | End to end: an allocated domain is recovered exactly and owns a router whose rule reads back as that domain and whose service address reads back as its assigned port on the proxy host; no other domain overwrites it |
| Text.AtoiExactly | lazy-tcp-proxy/internal/traefik/config.go:253-256 | A text parses as a number exactly if it is an optional sign, any zeros and the digits of that 64-bit number |
| Text.DigitAt | lazy-tcp-proxy/internal/types/portalloc.go:75 | Counted from the right, the k-th printed digit is the number divided by the k-th power of ten, modulo ten; the first is not zero |
| GitPack.PackTypeSize | lazy-tcp-proxy/internal/portainer/git.go:54-64 | The shifting loop writes the entry header that the next lemma decodes |
| GitPack.TypeSizeRoundTrip | lazy-tcp-proxy/internal/portainer/git.go:54-64 | Decoding a header followed by any bytes returns the type, the size and exactly those bytes, for every 3-bit type and every size |
| GitPack.TypeSizeLayout | lazy-tcp-proxy/internal/portainer/git.go:51-64 | Byte by byte: type and lowest four bits first, then groups of seven bits, the high bit set on all but the last |
| GitPack.LawfulCodecExists | lazy-tcp-proxy/internal/portainer/git.go:43-49 | Some compressor and digest meet what the pack theorems ask of them |
| GitPack.PackRoundTrip | lazy-tcp-proxy/internal/portainer/git.go:112-131 | The assembled pack parses to its objects if and only if their number is below 2^32 |
| GitPack.ObjectDataInjective | lazy-tcp-proxy/internal/portainer/git.go:31-37 | Two hash inputs are equal exactly when type and content are |
| GitPack.ObjectDataReads | lazy-tcp-proxy/internal/portainer/git.go:31-37 | The hashed data reads back as type, size in decimal and content |
| GitPack.BuildTree | lazy-tcp-proxy/internal/portainer/git.go:93-101 | The tree loop writes mode, name, NUL and blob id per recipe, in order |
| GitPack.TreeReads | lazy-tcp-proxy/internal/portainer/git.go:93-101 | The tree reads back as every recipe's name with its blob's id, for names without NUL |
| GitPack.BuildSnapshot | lazy-tcp-proxy/internal/portainer/git.go:93-131 | The snapshot is the pack of all blobs, the tree and the commit, and its id is the digest of data that reads as that commit |
| GitPack.CloneRecoversRecipes | lazy-tcp-proxy/internal/portainer/git.go:70-132 | Parsing the pack yields every recipe's content as a blob, a tree that names each with the digest of data reading as that blob, and a commit in which, read from its hexadecimal digits, stands the digest of data reading as that tree |
| GitBytes.HexReads | lazy-tcp-proxy/internal/portainer/git.go:105-106 | The hexadecimal print of a byte string reads back as that byte string |
| GitBytes.HexOfBytesAt | lazy-tcp-proxy/internal/portainer/git.go:105-106 | Each byte is printed as two digits of the table, high half first |
| GitBytes.MostSignificantFirst | lazy-tcp-proxy/internal/portainer/git.go:118-119 | The four bytes of a 32-bit number are written most significant first |
| GitPktLine.PktLineReads | lazy-tcp-proxy/internal/portainer/git.go:134-137 | A pkt-line has a four-digit length exactly for payloads up to 65531 bytes, and then reads back as its payload |
| GitPktLine.WriteSideBand | lazy-tcp-proxy/internal/portainer/git.go:172-183 | The chunking loop terminates and writes the stream that the next lemma reads |
| GitPktLine.SideBandRoundTrip | lazy-tcp-proxy/internal/portainer/git.go:172-183 | Reading lines up to the flush and dropping the band bytes yields exactly the pack |
| GitPktLine.SideBandLineBound | lazy-tcp-proxy/internal/portainer/git.go:173-181 | Every line carries data on band 1 and is at most 65521 bytes, and its length prints as four digits that read back |
| GitPktLine.SideBandExceedsLimit | lazy-tcp-proxy/internal/portainer/git.go:173-181 | Some line is longer than 65520 bytes exactly for packs of at least 65516 bytes |
| GitPktLine.ServeUploadPack | lazy-tcp-proxy/internal/portainer/git.go:152-187 | The request body decides about shallow line and side-bands; acknowledgement and pack follow |
| GitPktLine.ContainsExactly | lazy-tcp-proxy/internal/portainer/git.go:159-170 | The body asks for something exactly if the word stands somewhere in it |
| GitPktLine.ResponseRoundTrip | lazy-tcp-proxy/internal/portainer/git.go:152-187 | For every pack and every request body the client that sent it reads back that pack and, if it asked for a shallow clone, the commit's id from the digits of the shallow line |
| Metrics.MillisError | lazy-tcp-proxy/internal/metrics/collector.go:271 | Converting a duration to milliseconds rounds toward zero and loses less than one, in either direction |
| Metrics.PortAccumulator.ConnectionStarted | lazy-tcp-proxy/internal/metrics/collector.go:156-172 | Undisturbed, the compare-and-swap loop ends with the peak at the larger of its old value and the new level |
| Metrics.PortAccumulator.ConnectionEnded | lazy-tcp-proxy/internal/metrics/collector.go:175-193 | An ended connection is counted, lowers the level and updates count, total and both bounds |
| Metrics.PortAccumulator.AddBytes | lazy-tcp-proxy/internal/metrics/collector.go:206-217 | Only positive amounts are added, each to its own counter |
| Metrics.PortAccumulator.ColdStarted | lazy-tcp-proxy/internal/metrics/collector.go:221-234 | A cold start is counted and its duration recorded |
| Metrics.PortAccumulator.OnContainerRunning | lazy-tcp-proxy/internal/metrics/collector.go:248-259 | Only the first observation of a running interval sets its start |
| Metrics.PortAccumulator.ContainerStopped | lazy-tcp-proxy/internal/metrics/collector.go:262-275 | A stop is counted; it adds the interval to the uptime only if one was in progress |
| Metrics.PortAccumulator.Rollup | lazy-tcp-proxy/internal/metrics/collector.go:315-382 | Undisturbed, a rollup returns the window and leaves reset fields with the next peak seeded by what is still open |
| MetricsObject.ConnectionStartedIsRun | lazy-tcp-proxy/internal/metrics/collector.go:156-172 | The method is a run of the atomic steps: two increments, a load of the peak and, when the level is higher, one swap |
| MetricsObject.ConnectionEndedIsRun | lazy-tcp-proxy/internal/metrics/collector.go:175-193 | The method is a run of the atomic steps of the interleaved system |
| MetricsObject.AddBytesIsRun | lazy-tcp-proxy/internal/metrics/collector.go:206-217 | The method is a run of at most two atomic additions |
| MetricsObject.ColdStartedIsRun | lazy-tcp-proxy/internal/metrics/collector.go:221-234 | The method is a run of the atomic steps of the interleaved system |
| MetricsObject.ContainerStoppedIsRun | lazy-tcp-proxy/internal/metrics/collector.go:262-275 | The method is a run of the atomic steps of the interleaved system |
| MetricsObject.RollupIsRun | lazy-tcp-proxy/internal/metrics/collector.go:315-382 | The method is a run of seven swaps, the load of the level, the swap of the peak and the closing of the window |
| MetricsRuns.CountsAreConserved | lazy-tcp-proxy/internal/metrics/collector.go:156-322 | For any interleaving, reported plus in a rollup's hands plus still in the counter equals all recorded, for each counter |
| MetricsRuns.WindowReportsItsSamples | lazy-tcp-proxy/internal/metrics/collector.go:360-376 | A window's averages and bounds are those of exactly the durations and cold starts recorded since the window before |
| MetricsRuns.UptimeIsAccurate | lazy-tcp-proxy/internal/metrics/collector.go:248-340 | Reported uptime differs from true running time by less than one millisecond per segment cut, and not at all without cuts |
| MetricsLevels.RunsSinceObservation | lazy-tcp-proxy/internal/metrics/collector.go:248-275 | In every run uptime is running exactly since the first observation after the last stop, whatever rollups come in between |
| MetricsRuns.PeakHolds | lazy-tcp-proxy/internal/metrics/collector.go:156-172 | Once a connection's loop has ended the peak stays at or above its level until the next swap, whatever other recorders do |
| MetricsRuns.LevelIsCovered | lazy-tcp-proxy/internal/metrics/collector.go:156-329 | Every level reached is covered by the peak reported by the first rollup that swaps the peak after that loop ended |
| MetricsLevels.LevelIsNet | lazy-tcp-proxy/internal/metrics/collector.go:162-181 | In every run the level is the number of connections started less those ended |
| MetricsLevels.PeaksWereReached | lazy-tcp-proxy/internal/metrics/collector.go:163-329 | In every run every level and every peak held or reported was really reached |
| MetricsLevels.WindowReportsOpen | lazy-tcp-proxy/internal/metrics/collector.go:323-329 | A window reports as open what was open when its rollup looked, and a peak at least as high |
| RetryBuffer.PushIsLastN | lazy-tcp-proxy/internal/metrics/postgres.go:184-191 | Pushing onto the last five of a sequence gives the last five of the longer sequence |
| RetryBuffer.Buffer.PushOne | lazy-tcp-proxy/internal/metrics/postgres.go:184-191 | A push keeps at most five, dropping the head |
| RetryBuffer.Buffer.Drain | lazy-tcp-proxy/internal/metrics/postgres.go:193-199 | Draining returns everything buffered and leaves the buffer empty |
| RetryBuffer.Buffer.Flush | lazy-tcp-proxy/internal/metrics/postgres.go:209-223 | After one flush alone the buffer is the last at most five failures of buffered followed by current, in order |
| RetryBuffer.EachWriteFailsOrSucceeds | lazy-tcp-proxy/internal/metrics/postgres.go:211-222 | The failures and the successes of a flush together are exactly what it tried |
| RetryAlone.FailuresInOrder | lazy-tcp-proxy/internal/metrics/postgres.go:211-222 | Each failed write's snapshot stands among the failures behind those that failed before it |
| RetryAlone.FlushIsRun | lazy-tcp-proxy/internal/metrics/postgres.go:209-223 | The atomic steps of one flush that nothing interrupts lead exactly where the method leads |
| RetryAlone.WrittenExactly | lazy-tcp-proxy/internal/metrics/postgres.go:211-222 | A snapshot is written by a successful write only, and a failed one comes into the flush's hands |
| RetryBuffer.SnapshotsAreConserved | lazy-tcp-proxy/internal/metrics/postgres.go:184-223 | For any interleaving of flushes the buffer holds at most five, and each snapshot is written, buffered, in a flush's hands or dropped as often as it was created |
| RetryBuffer.DropsOnlyTheHead | lazy-tcp-proxy/internal/metrics/postgres.go:187-190 | Only a push onto a full buffer drops anything, and it drops the head |
| RetryOrder.BufferIsInOrder | lazy-tcp-proxy/internal/metrics/postgres.go:177-178 | In every run in which no two flushes overlap the buffer is in order of creation |
| RetryOrder.DropsTheOldest | lazy-tcp-proxy/internal/metrics/postgres.go:177-191 | In such runs what a full buffer drops is older than everything else buffered or in the hands of a flush |
| RetryOverlap.OverlapBreaksOrderExactly | lazy-tcp-proxy/internal/metrics/collector.go:292-295 | With the buffer in order, a flush of any number of newer snapshots can put it out of order if and only if it begins before every earlier flush has finished and at least two snapshots exist in all |
| RetryOverlap.OverlapBreaksDropExactly | lazy-tcp-proxy/internal/metrics/postgres.go:177-191 | Such a flush can make a full buffer drop a snapshot that is not the oldest if and only if it begins before every earlier flush has finished and more snapshots exist than the buffer holds |
| RetryOverlap.OldestCanSurvive | lazy-tcp-proxy/internal/metrics/postgres.go:184-223 | A run of two overlapping flushes drops a newer snapshot and keeps the oldest |

## Left out

- Docker, Kubernetes and compose calls, sockets, TLS, byte copying, HTTP proxying, webhooks, health polling, the scheduler, configuration files, the admin servers and SQL: foreign interfaces and input/output. Listens that fail, stop calls that fail, probe outcomes and clock readings are parameters.
- Goroutines, mutexes and atomics: modelled as steps of transition systems, one per critical section or atomic operation. The in-place methods are single-goroutine views of the same transitions. Cascade loops appear as steps only, because other goroutines run between any two of their iterations.
- ProxyServing.ProxyServer.Update: its operations run without registrations by other goroutines between them; container events and traffic between them are covered by UpdateEvents.UpdateAmongEvents.
- RegistryUpdate.UpdateIsFreshRegistration: a kept target keeps its old info, so a changed name, network or running flag alone is not applied; the code does the same. Listeners are therefore compared by container, target port and proxy configuration.
- InfoEqual compares ports, lists and timeouts by content: `reflect.DeepEqual` also tells a nil list from an empty one (proxy/server.go:764-784). `DesiredReplicas` and the listener objects' sockets, health-check and credential copies are not in the model.
- Collector and scheduler calls made by registration, removal, container events and the idle checker.
- CascadeStart.StartCascade: assumes a backend without errors that emits a start event exactly when it changes a container's state; marking listeners as running after a start is not modelled, as nothing in a start cascade reads it. UDP-only and cron-only dependants are started too; UDP-only ones hand nothing on.
- CascadeStop.StopCascade: makes the same assumption for die events; an unrelated start during the cascade is not modelled.
- Inactivity.CheckInactivity: the cascades and webhooks spawned for stopped containers are not part of it.
- IdleRuns.NoRedundantStopBetween: has the premise that nothing marked running is left out of the group, which RedundantStops.RedundantStopExactly shows to be needed.
- UdpProtocol.AtMostOneLeader: excludes container stops and removals while somebody leads; UdpProtocol.TwoLeadersExactly shows that they have to be.
- RetryOrder.DropsTheOldest: holds for runs without overlapping flushes only; RetryOverlap.OverlapBreaksDropExactly says when an overlap breaks it.
- Metrics.PortAccumulator.ConnectionStarted: single-goroutine, so its swap succeeds at once; lost swaps and retries are steps of MetricsRuns, where MetricsRuns.LevelIsCovered covers them.
- Metrics.PortAccumulator.Rollup: single-goroutine; recording between its swaps is covered by MetricsRuns.CountsAreConserved and MetricsRuns.LevelIsCovered.
- UdpProgress.WorkersDrain: counts the steps of flow workers; starting the container and dialling are one step, and the upstream read loop's `activeFlows` counter is not modelled.
- TraefikAllocation.AllocatedDomainIsRouted: takes ports up to the largest 64-bit integer, beyond which the builder cannot parse them, and a non-negative base.
- Integer width: ports, counters, durations and sizes are unbounded, except in the retry budget and the parsing of ports, where 64-bit overflow and range are modelled, and in the 32-bit object count of a pack.
- Averages are real numbers, not 64-bit floats.
- SHA-1 and zlib: any 20-byte digest and any self-delimiting compressor. Recipe files arrive as a list already read and sorted.
- The reference advertisement of `serveInfoRefs`, and HTTP itself.
- JSON encoding of the Traefik configuration; the model stops at the values that are encoded.
- Label parsers and `config/store.go`: they run before the parts modelled here, which take the targets they produce as given. `AllocateForHosts` returns the host lines of `AllocatePortMappings` alone.
- `relativeTime`, the snapshots for the status page and `hourlyActivity`: they read the state for display, and nothing modelled here reads what they produce.
