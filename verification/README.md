# kube-vip: ownership and generation protocols in Dafny

kube-vip decides with a handful of small, mutex-guarded protocols which node, Service or
component may hold a virtual IP (VIP), who may tear it down, and when. This project models
those protocols and proves what each of them keeps over every run, for any number of
threads, workers, Services and addresses.

Every protocol has the same layout. A value datatype `State` and a total function `Next`
give the atomic steps (one critical section, or the part of one up to a wait); a step that
is not enabled leaves the state alone. Runs are arbitrary step sequences, invariants are
predicates on `State`, and the main theorems quantify over all runs. Beside it a class (or,
for a loop over values, a method) carries the source's own fields and control flow. Most
methods are tied by contract to the functions the steps are made of; the methods of
`Admission.Processor` and of the link classes state outright what they do to their fields.

The kernel, the BGP server, the API server, the JSON codec, IP parsing and the clock are
parameters: every outcome of a foreign call is an input of the step that makes it.

| module | what it models |
|---|---|
| `Admission` | reservation, creation, release and detachment of Service instances |
| `Cleanup`, `ArpClaims`, `ServiceWorker` | deleting a Service's VIPs: sharing, ARP claim counts, worker stop protocol |
| `EventQueue`, `Coalescing`, `Debouncer` | the Service event queue, the watch debouncer and the EndpointSlice cache |
| `Readiness`, `Election`, `LeaseRegistry` | readiness generations, election generations, lease registrations |
| `Links`, `Routes`, `BgpHosts`, `Tunnels` | VLAN links, kernel routes, BGP hosts with the health check, WireGuard tunnels |
| `Recovery` | address recovery at start-up: lease holders, retained VIPs, kernel sweep |
| `LeaseVips`, `BgpPeers`, `Text` | the lease annotation, the BGP peer list, string helpers |

Where a property one would expect is false of the code, the model keeps the code and states
when the property holds, beside a run or an input where it fails:

- A failed cleanup puts its instance back, and an egress update replaces a snapshot, without
  a reservation. Admission stays safe, now and when any check under way commits, if and only
  if the claim fits what is tracked or pending and agrees with every check under way that is
  going to pass (`Admission.ReappendExact`, `Admission.RefreshExact`, `Admission.AdmissionExact`).
- With etcd a lease identifier does not determine its lease: two leases share one if and only
  if they are equal or differ only in where the dash between namespace and name is
  (`Admission.EtcdLeaseID`, `Admission.EtcdLeasesCollide`), and Services on them may share a VIP.
- While a Service with an unchanged snapshot is cleaned up, a tracked instance loses an
  address it lists if and only if it was admitted since the detachment, no instance that
  remained then lists the address, and nobody claims it (`Cleanup.CleanupRespectsSharing`,
  `Cleanup.NewcomerLosesAddress`). Likewise an instance created during a cleanup loses its VLAN link
  (`Links.DeletedExactly`), and an ARP claim registered between the count and the deletion
  loses its address (`ArpClaims.CleanupDeletesUnclaimed`).
- The event queue as a type loses an event if and only if ShutDown overtakes its Add while
  nobody will look at the key again (`EventQueue.Delivered`). The Service watcher, its only
  caller, adds and waits in one goroutine, so that no key is lost this way
  (`EventQueue.SequentialLosesNothing`); but it cancels before it waits, and from then on
  no further task is run (`EventQueue.RanAfterCancel`).
- Deleting a lease member by name takes the membership of a live owner of that name
  (`LeaseRegistry.OwnersExact`).
- A link that is added and cannot be brought up is leaked unless a later address of the same
  Service accepts it (`Links.LeaksExactly`).
- A tunnel rollback also drops claims held before (`Tunnels.FailedAcquisition`).
- A failed BGP announcement leaves an entry that keeps later ones from being advertised
  (`BgpHosts.FailedAnnouncementSticks`), and a failed withdrawal loses the node's claim but
  not the announcement (`BgpHosts.HysteresisExact`, `BgpHosts.FailedWithdrawalLosesClaim`).
- The debouncer drops a Deleted event of an object without worker, which is harmless if and
  only if every cached object has a worker (`Debouncer.DispatchExact`).
- Recovery compares the text of addresses: a VIP that a Service's status spells in another
  way than the kernel is removed although this node holds it (`Recovery.RetainedIffCanonical`).
- The peer layout documents MP-BGP addresses, but no IPv6 address can be given in it, because
  its colons end the field (`BgpPeers.ConfigurableExactly`).

## Model

| member | source | states |
|---|---|---|
| `Admission.AdmissionSafe` | pkg/services/processor.go:327-423 | in every serialized interleaving of reserve, append, release, detach and benign bypassing steps by any number of threads, two claims of different UIDs, tracked or pending, that share an address are both Cluster policy and, under per-service election, on one lease; the check reads the tracked instances outside their lock |
| `Admission.AdmissionExact` | pkg/services/processor.go:327-423 | a serialized run is safe after every prefix, and safe when any check then under way commits, if and only if its bypassing steps are benign |
| `Admission.SoonExact` | pkg/services/processor.go:355-407 | a state is safe now and when any check under way commits exactly when it is safe and every check that will pass agrees with what is tracked |
| `Admission.CommitExact` | pkg/services/processor.go:355-407 | the commit of a check is safe exactly when the check will fail or its claim agrees with all tracked ones |
| `Admission.RebuiltClaim` | pkg/services/processor.go:355-407 | the claim rebuilt from the created instance is the one that was reserved |
| `Admission.OwnLease` | pkg/lease/lease.go:498-512 | without an annotation the lease is kubevip-<name> in the Service's namespace |
| `Admission.AnnotatedLease` | pkg/lease/lease.go:498-512 | an annotation without a slash names a lease in the Service's namespace; one with a slash names the namespace before the first slash and the lease between the first slash and the second |
| `Admission.KubernetesLeaseID` | pkg/lease/lease.go:597-599 | with Kubernetes leases two identifiers are equal if and only if lease namespace and lease name are |
| `Admission.EtcdLeaseID` | pkg/lease/lease.go:605-607 | with etcd two identifiers are equal if and only if the leases are equal or differ only in where the dash between namespace and name is |
| `Admission.EtcdLeasesCollide` | pkg/lease/lease.go:605-607 | leases c in a-b and b-c in a are different and have one etcd identifier |
| `Admission.SharingRule` | pkg/services/processor.go:409-423 | the check on claims passes exactly when the two Services have no common address or are both Cluster policy and, under per-service election, on the same lease |
| `Admission.NamespacesDoNotShare` | pkg/services/processor.go:409-423 | with an election per Service, different Services without annotations never share an address |
| `Admission.CommitDecides` | pkg/services/processor.go:355-407 | a check under way reserves exactly when nothing is in the way, and otherwise leaves no trace |
| `Admission.AdmissionCompletes` | pkg/services/processor.go:327-353 | a granted admission whose UID is not being cleaned up ends, with any number of others under way, with the Service tracked and its reservation returned |
| `Admission.DetachTakesOne` | pkg/services/processor.go:1033-1051 | every tracked Service can be detached while no other cleanup runs, and only its own instances go |
| `Admission.CleanupEnds` | pkg/services/services.go:616-638 | a successful cleanup changes nothing more, a failed one puts its instance back |
| `Admission.RefreshShows` | pkg/services/services.go:795-800 | a new snapshot moves only the addresses of an instance that captured none; policy, names and lease stay |
| `Admission.CompatibleSymmetric` | pkg/services/processor.go:409-423 | the pairwise conflict check does not depend on the order of its arguments |
| `Admission.CommitFits` | pkg/services/processor.go:355-407 | a claim that passes against the instances seen earlier and the current reservations fits everything tracked or pending now exactly when it agrees with what is tracked now |
| `Admission.ReappendExact` | pkg/services/services.go:616-638 | putting an instance back after a failed cleanup is safe, now and when any check under way commits, if and only if its claim fits and agrees with every check under way that will pass |
| `Admission.UncoveredCheckBreaks` | pkg/services/services.go:616-638 | a check under way that will pass and conflicts with the claim makes the state unsafe when it commits |
| `Admission.CheckInFlightBreaksSafety` | pkg/services/services.go:616-638 | for any two conflicting Services a run that is safe after the failed cleanup and unsafe when the check under way commits |
| `Admission.ReappendBreaksSafety` | pkg/services/services.go:616-638 | for any two conflicting Services there is a run in which a failed cleanup tracks both |
| `Admission.RefreshExact` | pkg/services/services.go:795-800 | replacing a snapshot is safe, now and when any check under way commits, if and only if the claim the instance then has fits and agrees with every check under way that will pass |
| `Admission.CleaningSafe` | pkg/services/services.go:616-638 | over benign runs whose refreshes agree with the instance being cleaned up, the instances that remained at its detachment stay tracked ahead of newcomers and compatible with it |
| `Admission.RefreshCleaningExact` | pkg/services/services.go:795-800 | a refresh of a remaining instance keeps that if and only if the new claim agrees with the one being cleaned up |
| `Admission.RefreshBreaksSafety` | pkg/services/services.go:795-800 | a refresh of an instance that captured no address can collide with a Service admitted since |
| `Admission.UnserializedBreaksSafety` | pkg/services/processor.go:327-353 | two unserialized admissions of one UID can lose a reservation and track conflicting Services |
| `Admission.ValidateServiceVIPConflict` | pkg/services/processor.go:409-423 | reports no conflict exactly for compatible claims, and otherwise an address both list |
| `Admission.Processor.ReserveServiceAdmission` | pkg/services/processor.go:355-407 | succeeds exactly when no tracked instance of another UID shares an address with the Service, unless both are Cluster policy and, under per-service election, on the same lease, and no reservation of another UID conflicts; then adds only this reservation |
| `Admission.Processor.ReleaseAdmission` | pkg/services/processor.go:355-407 | removes the reservation only for the thread that owns it |
| `Admission.AppendClaims` | pkg/services/processor.go:1024-1028 | appending the admitted instance adds no claim, because its reservation is still pending, and keeps the state safe |
| `Admission.Processor.DetachServiceInstance` | pkg/services/processor.go:1033-1051 | removes exactly the instances of the UID, keeps the order of the others, and reports the last of them if there was any |
| `Cleanup.CleanupRespectsSharing` | pkg/endpoints/cleanup.go:53-66 | in every benign admission run whose refreshes agree with the instance being cleaned up, a tracked instance loses an address it lists exactly when a network with it is unclaimed and it is not listed by a remaining instance with a sharing snapshot; with an unchanged snapshot, exactly when besides it was admitted since the detachment and no remaining instance lists it |
| `Cleanup.SharedCoversExactly` | pkg/endpoints/cleanup.go:98-126 | under the admission invariant every commonly listed address is preserved if and only if there is none or the snapshot kept the policy and lease of creation |
| `Cleanup.PassExact` | pkg/endpoints/cleanup.go:98-126 | for compatible remaining instances the pass deletes an unclaimed address exactly unless one of them lists it and the snapshot shares; with an unchanged snapshot, of whatever policy, exactly unless one of them lists it |
| `Cleanup.SharedBySameLease` | pkg/endpoints/cleanup.go:98-126 | an address is preserved exactly for a remaining instance of Cluster policy with, under per-service election, the same lease |
| `Cleanup.WithoutArp` | pkg/cluster/cluster.go:264-288 | outside ARP mode an address of the networks is deleted exactly unless it is shared |
| `Cleanup.DeletesUnregistered` | pkg/cluster/cluster.go:275-288 | with the counts of any reachable ARP state, the pass deletes an address exactly when it is not shared and one of its networks has no registered claim |
| `Cleanup.NewcomerLosesAddress` | pkg/services/services.go:616-638 | a run in which a Service admitted during a cleanup loses the address both list |
| `Cleanup.SharedServiceVIPs` | pkg/endpoints/cleanup.go:98-126 | returns exactly the addresses that a remaining sharing instance lists too |
| `Cleanup.CleanupServiceVIPs` | pkg/cluster/cluster.go:264-288 | deletes exactly the addresses of networks that are neither preserved nor claimed |
| `Cleanup.CleanupService` | pkg/endpoints/cleanup.go:53-66 | over all clusters of the Service, deletes exactly the unshared and unclaimed addresses |
| `ArpClaims.InvNext` | pkg/arp/arp.go:53-109 | every step keeps: the counter of a name is the number of its registered claims, and an address is only ever deleted under claims newer than the check |
| `ArpClaims.RemovalDeletesUnclaimed` | pkg/arp/arp.go:79-98 | in every run giving back a claim takes it away, and deletes the address if and only if asked to and no claim on its name is left |
| `ArpClaims.InsertRegisters` | pkg/arp/arp.go:53-64 | a new claim is registered and raises the count of its name by one |
| `ArpClaims.CheckDecides` | pkg/cluster/cluster.go:275-288 | in every run a cleanup goes on to delete if and only if its check finds no registered claim |
| `ArpClaims.CleanupDeletesUnclaimed` | pkg/cluster/cluster.go:275-288 | in every run, a cleanup that found no claim hits a registered claim if and only if one registered since its check is still there |
| `ArpClaims.CheckThenInsert` | pkg/cluster/cluster.go:275-288 | a run in which a claim registered after the check loses its address |
| `ArpClaims.Manager.Insert` | pkg/arp/arp.go:53-64 | counts the name up by one and no other name, and keeps the counts equal to the registered claims |
| `ArpClaims.Manager.RemoveWithIPDelete` | pkg/arp/arp.go:79-98 | counts the name down and deletes the address exactly when the count reaches zero and deletion was asked for; for the holder of a claim the counts stay exact and no claim is left on a deleted address |
| `ArpClaims.Manager.Count` | pkg/arp/arp.go:100-109 | returns the count, which is the number of registered claims on the name as long as callers give back only what they hold |
| `ServiceWorker.GenerationsSafe` | pkg/cluster/cluster.go:104-208 | in every run at most one worker generation is live and every stop and done channel is closed at most once, although the close happens outside the lock |
| `ServiceWorker.StartsOpen` | pkg/cluster/cluster.go:166-175 | a new generation has an unused done channel and a stop channel that is neither closed nor about to be |
| `ServiceWorker.PreserveGrows` | pkg/cluster/cluster.go:149-198 | until it finishes, a stopping generation keeps stopping and its preserved set only grows |
| `ServiceWorker.PreservedUntilFinished` | pkg/cluster/cluster.go:177-208 | an address passed to a preserving stop is preserved in every later query of that generation |
| `ServiceWorker.NothingPreservedBeforeStop` | pkg/cluster/cluster.go:177-185 | a pass that starts before any stop call sees nothing preserved |
| `ServiceWorker.NothingPreservedForOthers` | pkg/cluster/cluster.go:177-185 | a generation that was replaced or has finished sees nothing preserved |
| `ServiceWorker.StopExactly` | pkg/cluster/cluster.go:104-120 | in every run a stop closes the running generation's channel once, or with none running the channel of the next, and leaves an open channel for it |
| `ServiceWorker.PrepareExactly` | pkg/cluster/cluster.go:149-164 | a preserving stop adds its addresses and leaves exactly one caller to close the stop channel |
| `ServiceWorker.FinishExactly` | pkg/cluster/cluster.go:200-208 | finishing closes exactly the done channel of the running generation and makes room for the next; a stale call does nothing |
| `ServiceWorker.SignalExactly` | pkg/cluster/cluster.go:122-147 | the caller that was told to signal closes that channel, once |
| `ServiceWorker.GenerationHandedOver` | pkg/cluster/cluster.go:149-208 | in every run the running generation can be stopped, finished and replaced, with both its channels closed and fresh open ones for the next |
| `ServiceWorker.Cluster.StopWorkers` | pkg/cluster/cluster.go:104-120 | closes the stop channel once and renews it when no worker runs |
| `ServiceWorker.Cluster.PrepareServiceStop` | pkg/cluster/cluster.go:149-164 | merges the preserved VIPs, and tells exactly the first caller to close the still open stop channel |
| `ServiceWorker.Cluster.StartServicesWorker` | pkg/cluster/cluster.go:166-175 | is the step of the protocol and keeps its invariant |
| `ServiceWorker.Cluster.PreserveServiceVIP` | pkg/cluster/cluster.go:177-185 | answers for the given generation only, from its preserved set, and yes only while it stops |
| `ServiceWorker.Cluster.FinishServicesWorker` | pkg/cluster/cluster.go:200-208 | closes the done channel once and ends only the generation it belongs to |
| `EventQueue.InvRun` | pkg/services/watch_services.go:53-116 | in every run: no two workers hold one key, a key with pending tasks is dirty, being added or still to be looked at by its worker, and once all workers left nothing is ready |
| `EventQueue.MergedRun` | pkg/services/watch_services.go:53-108 | in every run the taken tasks followed by the pending ones are the added tasks in order, minus only tasks directly followed by one of the same UID, with different pending neighbours, if and only if the key was not lost or its list is still there |
| `EventQueue.RanTakenRun` | pkg/services/watch_services.go:80-91 | without cancellation the tasks run are the taken ones in order, but for one a worker is running |
| `EventQueue.RanFirst` | pkg/services/watch_services.go:80-91 | with or without cancellation the tasks run of a key are the first of those taken, in order |
| `EventQueue.RanAfterCancel` | pkg/services/watch_services.go:80-91 | after a cancellation, whatever else happens, no further task is run |
| `EventQueue.Delivered` | pkg/services/watch_services.go:110-116 | when Wait returns uncancelled, every event of a key that the watcher sent before it closed the queue was run in order except those directly superseded, and the newest was run last, if and only if the key was not lost: no Add reached the work queue after ShutDown with the key neither dirty nor still to be looked at |
| `EventQueue.AddedIsSent` | pkg/services/watch_services.go:53-68 | in every run the queue takes in exactly the events offered, one Add at a time, before the context was cancelled or the queue shut down |
| `EventQueue.WorkerMoves` | pkg/services/watch_services.go:70-91 | with no Add under way a worker stands still exactly when it has left or waits for a key in an open queue |
| `EventQueue.Progress` | pkg/services/watch_services.go:70-108 | whatever the schedule, while an event of a key is undelivered and no Add is under way some worker has a step to take |
| `EventQueue.QuietDelivered` | pkg/services/watch_services.go:70-108 | when no worker has a step left, everything sent was delivered |
| `EventQueue.LeftOverExact` | pkg/services/watch_services.go:110-116 | once all workers left, exactly the lost keys have tasks left over or dropped by Wait |
| `EventQueue.SequentialLosesNothing` | pkg/services/watch_services.go:165-174 | a caller that never shuts down in the middle of an Add, as the Service watcher does not, loses no key |
| `EventQueue.ShutDownOvertakesAdd` | pkg/services/watch_services.go:53-68 | a run of the queue type, which its one caller does not produce, in which ShutDown overtakes an Add and the event is lost |
| `EventQueue.ServiceEventQueue.Add` | pkg/services/watch_services.go:53-68 | refuses exactly when cancelled or shutting down; otherwise the event is the newest pending one of its key, the key is dirty and will be looked at, and no other key changes |
| `EventQueue.ServiceEventQueue.NextTask` | pkg/services/watch_services.go:93-108 | returns and removes the first pending task of the key, and drops an empty list |
| `EventQueue.ServiceEventQueue.RunNext` | pkg/services/watch_services.go:80-91 | runs all pending tasks of the key in order unless cancelled, empties its list and requeues a dirty key |
| `Coalescing.NewestKept` | pkg/services/watch_services.go:53-68 | coalescing never drops the newest element |
| `Coalescing.NothingMerged` | pkg/debouncer/debouncer.go:225-268 | nothing is left out of an input whose neighbours differ |
| `Coalescing.NothingDuplicated` | pkg/debouncer/debouncer.go:225-268 | a coalesced output is never longer than its input |
| `Debouncer.WorkerFaithful` | pkg/debouncer/debouncer.go:225-268 | for every interleaving of arrivals, ticks and stop, output plus pending event is the input minus only events directly followed by one of the same type |
| `Debouncer.BurstMerged` | pkg/debouncer/debouncer.go:225-268 | a burst without tick leaves no two neighbours of one type |
| `Debouncer.ReceivedExactly` | pkg/debouncer/debouncer.go:225-268 | the worker takes in every arrival before its stop |
| `Debouncer.TickDelivers` | pkg/debouncer/debouncer.go:225-268 | after a tick or the stop everything that arrived has gone out, up to the newest event |
| `Debouncer.StartObject` | pkg/debouncer/debouncer.go:225-268 | the worker loop outputs what the step function says: after its stop everything that arrived, coalesced |
| `Debouncer.PipelinePreservesCache` | pkg/debouncer/debouncer.go:81-277 | for every interleaving of arrivals, ticks of the per-object workers, the end of the context and workers that leave, whenever nothing is held back the EndpointSlice cache after the output is the one after everything that arrived |
| `Debouncer.RawExactly` | pkg/debouncer/debouncer.go:81-175 | the dispatch loop takes in every event before the context ends |
| `Debouncer.TickSends` | pkg/debouncer/debouncer.go:225-268 | a tick sends exactly what the worker held back, and forgets a worker that sent a Deleted event |
| `Debouncer.LeaverSends` | pkg/debouncer/debouncer.go:225-268 | a worker that leaves sends what it held back |
| `Debouncer.CacheCatchesUp` | pkg/debouncer/debouncer.go:81-277 | from every reachable state ticks alone bring the cache to what everything that arrived says |
| `Debouncer.CacheHoldsNewest` | pkg/endpoints/providers/endpointslices.go:54-76 | the cache holds of every object what its newest event says: the slice as it came, or nothing |
| `Debouncer.DebouncingPreservesCache` | pkg/debouncer/debouncer.go:81-175 | any output that coalesces each object's events leads to the same cache, however the objects interleave |
| `Debouncer.CoalescingPreservesCache` | pkg/endpoints/providers/endpointslices.go:54-76 | merging one object's events does not change the cache |
| `Debouncer.FoldIsLocal` | pkg/endpoints/providers/endpointslices.go:54-76 | what the cache says of an object depends on that object's events alone |
| `Debouncer.DispatchPreservesCache` | pkg/debouncer/debouncer.go:81-175 | dropping the Deleted events of objects without worker leaves the cache as the raw events would, for every arrival sequence and every stopping of workers, while each cached object has a worker |
| `Debouncer.DispatchExact` | pkg/debouncer/debouncer.go:81-175 | this holds for all arrivals if and only if every cached object has a worker at the start |
| `Debouncer.Endpointslices.LoadObject` | pkg/endpoints/providers/endpointslices.go:54-67 | stores the slice under its name and touches no other |
| `Debouncer.Endpointslices.DeleteObject` | pkg/endpoints/providers/endpointslices.go:69-76 | removes the slice of that name and touches no other |
| `Debouncer.Endpointslices.GetAllEndpoints` | pkg/endpoints/providers/endpointslices.go:89-100 | returns exactly the addresses of endpoints that serve or, silent about serving, are not marked unready |
| `Debouncer.Endpointslices.GetLocalEndpoints` | pkg/endpoints/providers/endpointslices.go:102-130 | returns exactly such addresses of endpoints on the node, by node name or, without one, by host name |
| `Readiness.ReadinessSafe` | pkg/servicecontext/servicecontext.go:75-190 | in every run the operation counter is the number of unreleased reservations, no channel is closed twice, generations are reset once each and in order, and nobody stays parked without reservations |
| `Readiness.InvalidationComplete` | pkg/servicecontext/servicecontext.go:95-110 | once the reset of a generation has returned, no reservation of it or an earlier one is held, and none is granted at any later time |
| `Readiness.ResetOnce` | pkg/servicecontext/servicecontext.go:95-110 | a generation is reset at most once, whatever runs in between |
| `Readiness.LostMeansSuperseded` | pkg/servicecontext/servicecontext.go:95-120 | in every run a generation's lost channel is closed exactly when it was superseded, its ready channel exactly when it was or became ready |
| `Readiness.LastReleaseFreesResets` | pkg/servicecontext/servicecontext.go:162-169 | the last release wakes every parked reset, and each returns at its next check |
| `Readiness.EarlierReleaseWakesNobody` | pkg/servicecontext/servicecontext.go:162-169 | releasing any other reservation wakes nobody |
| `Readiness.SignalMakesReady` | pkg/servicecontext/servicecontext.go:112-120 | in every reachable state, also with resets of earlier generations waiting, a signal makes the current generation ready, closes its ready channel, and work on it is then granted exactly when the context is not cancelled |
| `Readiness.AcquireExactly` | pkg/servicecontext/servicecontext.go:144-160 | a reservation is granted exactly for the current, ready generation of a context that is not cancelled, and is counted |
| `Readiness.ResetExactly` | pkg/servicecontext/servicecontext.go:95-110 | a reset of the current, ready generation closes its lost channel, opens the next generation, and returns at once exactly when nothing is reserved; any other is refused |
| `Readiness.ResetCompletes` | pkg/servicecontext/servicecontext.go:95-110 | every waiting reset returns once the reservations are released and it is scheduled |
| `Readiness.CancelledForGood` | pkg/servicecontext/servicecontext.go:144-180 | once the context is cancelled nothing is granted and no watch starts |
| `Readiness.WatchOnce` | pkg/servicecontext/servicecontext.go:171-190 | a started watch has a stop channel of its own, and stopping closes exactly that |
| `Readiness.Context.BeginReset` | pkg/servicecontext/servicecontext.go:95-110 | accepts only the current ready generation, opens the next one, and says whether the caller waits |
| `Readiness.Context.SignalReadiness` | pkg/servicecontext/servicecontext.go:112-120 | makes the current generation ready with its ready channel closed, whatever is reserved, and closes the channel once |
| `Readiness.Context.AcquireReadinessGeneration` | pkg/servicecontext/servicecontext.go:144-160 | reserves exactly when the context lives and the generation is current and ready |
| `Readiness.Context.ReleaseReadinessGeneration` | pkg/servicecontext/servicecontext.go:162-169 | gives one reservation back and wakes the resets exactly at zero |
| `Readiness.Context.StartWatching` | pkg/servicecontext/servicecontext.go:171-180 | starts at most one watch and none on a cancelled context |
| `Readiness.Context.StopWatching` | pkg/servicecontext/servicecontext.go:182-190 | closes the stop channel of a running watch once |
| `Election.ElectionSafe` | pkg/lease/lease.go:359-491 | in every run each generation has one runner, only the newest is under way, `decided` is closed exactly when it is not campaigning, `done` exactly when it is idle, and no channel twice |
| `Election.OneLeader` | pkg/lease/lease.go:359-491 | two runner sessions that both lead are the same session |
| `Election.PhasesForward` | pkg/lease/lease.go:383-417 | phases only move from campaigning over leading to idle |
| `Election.StaleSessionsDoNothing` | pkg/lease/lease.go:383-417 | observers and superseded sessions change nothing |
| `Election.StoppedForGood` | pkg/lease/lease.go:400-417 | a stopped runner's session never affects the lease again |
| `Election.DecidedEndsWait` | pkg/lease/lease.go:441-465 | in every run a check returns if and only if the waiter's generation is decided, reporting whether it leads, and otherwise blocks |
| `Election.ReturnedMeansDecided` | pkg/lease/lease.go:441-465 | whoever returned without giving up did so for a decided generation, and saw leadership only of one that led |
| `Election.WaitersReleased` | pkg/lease/lease.go:383-465 | when the runner starts or stops, everybody blocked on its campaign can return with the outcome |
| `Election.WaitBeginsAndEnds` | pkg/lease/lease.go:441-465 | waiting begins with a check of the session's generation, and a blocked waiter can give up |
| `Election.JoinExactly` | pkg/lease/lease.go:359-379 | in every run joining observes the election under way, or opens a new undecided one and runs it |
| `Election.RunnerStarts` | pkg/lease/lease.go:383-396 | the runner of the current election can start leading as long as it is undecided, and closes the decided channel |
| `Election.RunnerStops` | pkg/lease/lease.go:400-417 | the runner can always end the current election, which closes its channels and frees the lease |
| `Election.BlockedMeansCampaigning` | pkg/lease/lease.go:441-465 | a blocked waiter is woken exactly when its campaign is over |
| `Election.LeaseElection.JoinElection` | pkg/lease/lease.go:359-379 | joins the running generation as observer or opens one as its runner |
| `Election.LeaseElection.Started` | pkg/lease/lease.go:383-396 | only the current campaigning runner starts to lead |
| `Election.LeaseElection.Stopped` | pkg/lease/lease.go:400-417 | only the current runner ends its generation, closing each channel once |
| `Election.LeaseElection.IsLeading` | pkg/lease/lease.go:420-426 | true exactly for a session of the current generation while it leads |
| `LeaseRegistry.RetiredForGood` | pkg/lease/lease.go:119-178 | in every run a lease object that was replaced or retired stays cancelled, never becomes current again and keeps its members |
| `LeaseRegistry.StaleReleaseDoesNothing` | pkg/lease/lease.go:43-51 | releasing a handle of a lease that is no longer current changes no lease, at any later time |
| `LeaseRegistry.ReleaseOnce` | pkg/lease/lease.go:43-51 | a handle acts at most once: after its release, which ReleaseTakesOut describes, it changes nothing |
| `LeaseRegistry.ReleaseTakesOut` | pkg/lease/lease.go:43-51 | releasing an owned, unreleased handle of a current lease takes exactly its name out of that lease, touches no other, and retires the lease if and only if no member is left |
| `LeaseRegistry.ReleasedUntilRegistered` | pkg/lease/lease.go:43-178 | after a release the lease has no member of that name until a later registration of it |
| `LeaseRegistry.RemovalExact` | pkg/lease/lease.go:145-178 | a removal takes out that member only and retires the lease exactly when none is left; a stale one does nothing |
| `LeaseRegistry.FailedBatchLeavesNothing` | pkg/lease/lease.go:75-94 | a failed batch leaves no member, no handle and no lease it created |
| `LeaseRegistry.BatchRegisters` | pkg/lease/lease.go:75-94 | a batch of new, distinct and non-empty names is always registered as a whole, with a live owner's handle for each |
| `LeaseRegistry.AcquireRegisters` | pkg/lease/lease.go:63-70 | an acquisition ends with the name a member of the ID's lease; one that was there keeps its provider |
| `LeaseRegistry.HandedOut` | pkg/lease/lease.go:119-129 | the lease of an ID is the registered one while it lives, and otherwise a new one without members |
| `LeaseRegistry.CancelledIsReplaced` | pkg/lease/lease.go:119-129 | a cancelled lease is never handed out again |
| `LeaseRegistry.ClaimRegisters` | pkg/lease/lease.go:98-117 | a claim makes the name a member and owns it exactly when it was not one |
| `LeaseRegistry.AddedMembers` | pkg/lease/lease.go:294-315 | an accepted batch adds exactly its members with their providers |
| `LeaseRegistry.OwnersSafe` | pkg/lease/lease.go:43-178 | in every disciplined run a live owner stays a member, with its own provider, of the lease object it registered on, even after that was replaced, and no membership has two owners |
| `LeaseRegistry.OwnersExact` | pkg/lease/lease.go:43-178 | the owners are backed all along a run if and only if it never deletes by name a member that a live handle owns |
| `LeaseRegistry.DeleteExact` | pkg/lease/lease.go:145-160 | a deletion by name keeps every live owner a member if and only if no live handle owns that name on the current lease |
| `LeaseRegistry.DeleteExactCurrent` | pkg/lease/lease.go:145-178 | it keeps the owners on the leases that are then current if and only if it retires the lease or no live handle owns that name |
| `LeaseRegistry.CurrentOwnersExact` | pkg/lease/lease.go:43-178 | the owners on the current leases stay members all along a run if and only if every deletion by name retires the lease or takes nobody's membership |
| `LeaseRegistry.DuplicateClaimDoesNothing` | pkg/lease/lease.go:98-117 | a duplicate claim changes no lease and its release does nothing |
| `LeaseRegistry.DeleteByNameEvicts` | pkg/lease/lease.go:145-160 | a run with two members in which acquiring and deleting an owned name leaves its owner without membership on a lease that stays current |
| `LeaseRegistry.LeaseManager.AddLocked` | pkg/lease/lease.go:119-129 | reuses the live current lease, else registers a new one; what it hands out is cancelled only if the parent context has ended |
| `LeaseRegistry.LeaseManager.AddWithVIPProvider` | pkg/lease/lease.go:284-292 | adds a new member only, and reports whether it was new |
| `LeaseRegistry.LeaseManager.Acquire` | pkg/lease/lease.go:63-70 | is the acquire step and keeps the registry consistent |
| `LeaseRegistry.LeaseManager.AddAll` | pkg/lease/lease.go:294-315 | registers all members of a batch or none |
| `LeaseRegistry.LeaseManager.AcquireRegistrations` | pkg/lease/lease.go:75-94 | is the batch step, retiring a lease left empty |
| `LeaseRegistry.LeaseManager.Delete` | pkg/lease/lease.go:145-178 | is the removal step, for the exact lease when one is given, and says whether the lease was retired |
| `Links.LinksConserved` | pkg/instance/instance.go:545-666 | over any interleaving of constructions with any number of addVLAN calls, detachments and cleanups, every link kube-vip created, unless leaked, has exactly one owner among the tracked instances and the one being cleaned up |
| `Links.ConstructExact` | pkg/instance/instance.go:148-163 | a construction on a missing link owns it exactly when some call added it, and does not use it exactly when the call that added it could not bring it up and no later call accepted it |
| `Links.DeletedExactly` | pkg/instance/instance.go:601-666 | in every run a step removes a link if and only if it ends, with a successful deletion, the cleanup of its owner while no instance that remained at the detachment uses it; links that were there before never go |
| `Links.CreateExactly` | pkg/instance/instance.go:545-596 | an instance with a new UID is tracked; it owns the link exactly when it was missing and a call added it, and uses it exactly when a call brought it up or accepted it |
| `Links.DetachExactly` | pkg/services/processor.go:1033-1051 | with no cleanup under way any tracked instance can be detached, and the others stay |
| `Links.FinishExactly` | pkg/instance/instance.go:601-648 | in every run the end of a cleanup puts the instance back exactly when something failed, and hands an owned link to the first remaining user |
| `Links.NewcomerLosesLink` | pkg/services/services.go:616-638 | a run in which an instance created during a cleanup adopts the link and loses it |
| `Links.FailedDeleteKeepsOwner` | pkg/services/services.go:616-638 | in every run a failed deletion keeps the link and puts its owner back, and a retry while nobody else uses the link deletes it |
| `Links.LeaksExactly` | pkg/instance/instance.go:545-596 | a link leaks exactly when a construction added it and left it down, never accepting it later, or failed and could not delete it |
| `Links.LinkKernel.DeleteOwnedLink` | pkg/instance/instance.go:650-666 | deletes the named link; a missing one is no error |
| `Links.LinkInstance.TransferLinkAttachmentOwnership` | pkg/instance/instance.go:630-648 | hands the ownership to the first user of the link and changes no other instance |
| `Links.LinkInstance.CleanupKind` | pkg/instance/instance.go:609-627 | one link is handed to its first other user, else deleted; it stays owned exactly when it has no other user, is there and cannot be deleted |
| `Links.LinkInstance.CleanupLinkAttachments` | pkg/instance/instance.go:601-628 | the macvlan and the VLAN link are each treated so, and the cleanup fails exactly when something is still owned |
| `Routes.TrackerRefinesPairs` | pkg/route/manager.go:43-113 | in every run the tracker is exactly the set of (route, owner) pairs the successful calls leave, without empty entries |
| `Routes.DeletionAtLastOwner` | pkg/route/manager.go:87-113 | in every run the kernel deletion is issued exactly when the last owner leaves |
| `Routes.AddExactly` | pkg/route/manager.go:43-84 | in every run an addition fails exactly when nobody holds the route and the kernel neither adds it, has it, nor updates it on request |
| `Routes.DeleteExactly` | pkg/route/manager.go:87-113 | a removal fails exactly when the last owner leaves and the kernel refuses; if it agrees the route is gone |
| `Routes.FailureKeepsTracker` | pkg/route/manager.go:43-113 | a failed call leaves the tracker as it was, on every error branch |
| `Routes.Manager.Add` | pkg/route/manager.go:43-84 | adds one owner, asking the kernel only for an untracked route |
| `Routes.Manager.Delete` | pkg/route/manager.go:87-113 | removes one owner and restores it when the kernel deletion fails |
| `Routes.Manager.Clear` | pkg/route/manager.go:115-124 | asks the kernel once per tracked route and forgets all of them |
| `BgpHosts.AgreementExact` | pkg/bgp/hosts.go:13-82 | tracker and advertisements agree after a call exactly unless it is a failing announcement of an untracked address |
| `BgpHosts.AdvertisedWhileWanted` | pkg/bgp/hosts.go:13-82 | over every series of calls that the BGP server accepts, an owner has a claim if and only if its last call announced, and an address is advertised if and only if some owner has one |
| `BgpHosts.AddHostExactly` | pkg/bgp/hosts.go:13-44 | an announcement succeeds exactly when its owner has a claim afterwards; only the first of an address makes the server advertise |
| `BgpHosts.DelHostExactly` | pkg/bgp/hosts.go:47-82 | a withdrawal takes its owner's claim, and the advertisement goes with the last claim if the server agrees |
| `BgpHosts.OthersInBetween` | pkg/cluster/service.go:324-349 | calls of other owners are carried out as they come, and their claim keeps the address advertised |
| `BgpHosts.FailedAnnouncementSticks` | pkg/bgp/hosts.go:13-44 | after a failed announcement the address stays unadvertised over any series of calls that does not withdraw its last owner |
| `BgpHosts.StuckExact` | pkg/bgp/hosts.go:13-82 | an entry without advertisement is repaired by a call exactly when it successfully withdraws the last owner |
| `BgpHosts.HysteresisExact` | pkg/cluster/service.go:307-361 | for every history, with failing calls and other owners, the route counts as announced exactly when some healthy round could announce it and no later round withdrew it at the threshold, and the address is owned exactly when the round that announced it anew was followed by no failing round at the threshold that dropped the claim |
| `BgpHosts.StandsByHysteresis` | pkg/cluster/service.go:324-349 | when all calls succeed this means: some check succeeded and fewer than max(1, threshold) have failed since |
| `BgpHosts.AnnouncedExactly` | pkg/cluster/service.go:324-349 | with a BGP server that does what it is asked, the claim is held exactly by that rule and the route is then advertised |
| `BgpHosts.FailedWithdrawalLosesClaim` | pkg/cluster/service.go:324-349 | from any state of the loop, a withdrawal at the threshold that fails after it dropped the claim leaves the route announced and not owned for as long as the checks succeed, whatever others do |
| `BgpHosts.ExitWithdraws` | pkg/cluster/service.go:351-358 | on exit, in every history, the claim remains exactly when it was held and the address does not parse, and the claims of others are as they were |
| `BgpHosts.BgpServer.AddHost` | pkg/bgp/hosts.go:13-44 | adds the owner, advertising an untracked address first; a failure leaves an empty entry |
| `BgpHosts.BgpServer.DelHost` | pkg/bgp/hosts.go:47-82 | refuses a malformed address, else drops the owner, withdrawing with the last one; a refused withdrawal and a missing path keep the entry |
| `BgpHosts.BgpHealthCheckLoop` | pkg/cluster/service.go:307-361 | over any series of checks and replies the announcement follows the rule after every round, and at the end the claim is gone unless the address does not parse |
| `Tunnels.TunnelIffOwned` | pkg/wireguard/tunnel_manager.go:239-373 | in every run a tunnel is up exactly while its owner set is non-empty |
| `Tunnels.Idempotent` | pkg/wireguard/tunnel_manager.go:239-332 | repeating an acquisition or a release of one owner changes nothing |
| `Tunnels.AcquirableExactly` | pkg/wireguard/tunnel_manager.go:239-310 | a named owner acquires exactly when the tunnel is up, or is configured and comes up |
| `Tunnels.ReleasedExactly` | pkg/wireguard/tunnel_manager.go:314-373 | the tunnel goes down exactly with its last owner |
| `Tunnels.CallsExactly` | pkg/wireguard/tunnel_manager.go:239-332 | in every run a call is about the address before the slash, makes or ends that one claim, and no other |
| `Tunnels.AcquireThenRelease` | pkg/wireguard/tunnel_manager.go:239-332 | acquiring and releasing restores the state exactly when the owner held nothing before |
| `Tunnels.FailedAcquisition` | pkg/endpoints/wireguard_tunnels.go:24-63 | a failed multi-VIP acquisition rolls back to its start if and only if the owner held none of the VIPs processed before the failing one |
| `Tunnels.SuccessfulAcquisition` | pkg/endpoints/wireguard_tunnels.go:24-52 | a successful one adds exactly the owner's claims, with every tunnel up |
| `Tunnels.FailsAtFirst` | pkg/endpoints/wireguard_tunnels.go:24-52 | the acquisition fails exactly at the first VIP whose tunnel is not up and does not come up |
| `Tunnels.ServiceAcquires` | pkg/endpoints/wireguard_tunnels.go:24-63 | in every run an owner without claims to the VIPs gets all tunnels, or none |
| `Tunnels.TurnsRunOut` | pkg/endpoints/wireguard_tunnels.go:24-63 | whatever others do, an unfinished acquisition comes nearer to its end with each of its turns |
| `Tunnels.InterleavedAcquisition` | pkg/endpoints/wireguard_tunnels.go:24-63 | among any calls of other owners in between, the owner holds at every moment exactly what its progress says: after a success all its VIPs besides, after a failure what it held without the VIPs processed before the failing one |
| `Tunnels.MineLeavesOthers` | pkg/endpoints/wireguard_tunnels.go:24-63 | no turn of an acquisition or its rollback touches the claims of others |
| `Tunnels.TunnelManager.AcquireTunnelForVIP` | pkg/wireguard/tunnel_manager.go:239-261 | is the acquire step, and succeeds exactly for a named owner when the tunnel is up, or is configured and can be brought up |
| `Tunnels.TunnelManager.EnsureTunnel` | pkg/wireguard/tunnel_manager.go:263-310 | brings up a configured tunnel, and changes nothing on failure |
| `Tunnels.TunnelManager.ReleaseTunnelForVIP` | pkg/wireguard/tunnel_manager.go:314-373 | is the release step, tearing the tunnel down with its last owner |
| `Tunnels.TunnelManager.AcquireServiceTunnels` | pkg/endpoints/wireguard_tunnels.go:24-52 | checks all VIPs before it acquires any, and rolls back on the first failure |
| `Tunnels.TunnelManager.RollBack` | pkg/endpoints/wireguard_tunnels.go:54-63 | releases what was acquired, in reverse order |
| `Recovery.Processor.RecoverAddresses` | pkg/services/processor.go:444-509 | touches nothing unless every question was answered and the control-plane VIPs are addresses; never loses an address with a claim, even when a deletion or a listing fails in the middle of the sweep; on success leaves exactly the addresses of another tag, without usable key, or with a claim; and succeeds when nothing fails |
| `Recovery.Decide` | pkg/services/processor.go:444-494 | the retained VIPs are exactly those this node has a claim to by the holders of the list and of single questions, without the memo |
| `Recovery.OneNodeKeeps` | pkg/services/processor.go:444-669 | two elected nodes that read the same answers keep a VIP whose claims run through one lease only when they are the same node |
| `Recovery.RetainedIffCanonical` | pkg/services/processor.go:671-676 | a Service held by this node keeps its VIP if and only if it spells the address as the kernel does |
| `Recovery.KeptWithoutElection` | pkg/services/processor.go:566-580 | where no lease decides, every VIP of a Service stays |
| `Recovery.HolderDecides` | pkg/services/processor.go:566-580 | where a lease decides all claims to a VIP, exactly its holder keeps it |
| `Recovery.MissingLease` | pkg/services/processor.go:650-669 | a lease that does not exist has no holder, which is an answer |
| `Recovery.OwnLeaseDecides` | pkg/services/processor.go:582-592 | with an election per Service and no annotation the deciding lease is the Service's own |
| `Recovery.ConfiguredLease` | pkg/lease/lease.go:522-538 | a configured lease without a slash is in the default namespace, one with a slash names its own |
| `Recovery.AnnotationKeeps` | pkg/services/processor.go:511-546 | an annotation keeps a VIP exactly when it is this node's, has not lapsed, is for this routing protocol and lists the VIP |
| `Recovery.ControlPlaneDecides` | pkg/services/processor.go:594-627 | the control plane's VIPs stay without an election, and with one exactly at the holder of its lease |
| `Recovery.PrefixLengthIgnored` | pkg/services/processor.go:629-640 | a control-plane VIP may be given with a prefix length |
| `Recovery.EtcdIgnoresLeases` | pkg/services/processor.go:444-494 | with etcd the Kubernetes leases make no difference |
| `Recovery.UnwantedGoes` | pkg/services/processor.go:455-494 | a VIP that no Service has and that is not the control plane's goes, whatever an old annotation says |
| `Recovery.CapitalsLoseVIP` | pkg/instance/instance.go:805-875 | a held Service with an IPv6 status address in capitals loses its VIP |
| `Recovery.KubernetesLeaseHolder` | pkg/services/processor.go:650-669 | the memo of lease holders answers what the list, else a single question, says, and what the single question says whenever the two agree |
| `Recovery.HolderIsAsked` | pkg/services/processor.go:511-527 | when nothing changes between the list and the single questions, the list makes no difference |
| `Recovery.RetainAnnotatedLeaseVIPs` | pkg/services/processor.go:511-546 | retains exactly the desired VIPs named by a current annotation of this node for this protocol; fails exactly on an unreadable one |
| `Recovery.DesiredServiceVIPs` | pkg/services/processor.go:455-464 | collects exactly the VIPs of eligible Services |
| `Recovery.ServiceAddressRetained` | pkg/services/processor.go:566-580 | answers as the direct lookup of the Service's lease does |
| `Recovery.RetainServiceVIPs` | pkg/services/processor.go:472-487 | adds exactly the VIPs of eligible Services kept here; fails exactly when a holder is unknown |
| `Recovery.ConfiguredVIPAddresses` | pkg/services/processor.go:629-640 | the parsed control-plane VIPs, or none when one of them is no address |
| `Recovery.RetainControlPlaneVIPs` | pkg/services/processor.go:594-627 | adds exactly the control-plane VIPs kept here, and forbids the sweep for a host name |
| `Recovery.RecoveryLeaseNames` | pkg/lease/lease.go:494-538 | a derived lease name has no slash, so that a memo key names one lease |
| `Recovery.KeyDetermines` | pkg/vip/address.go:1579-1585 | a usable address key determines link, address and prefix length |
| `Recovery.RetainedKubeVIPAddressKeys` | pkg/vip/address.go:1520-1532 | returns exactly the keys of tagged addresses with a retained IP |
| `Recovery.CleanupKubeVIPAddresses` | pkg/vip/address.go:1536-1577 | sweeps every link, succeeds exactly when all orphans can be deleted and every listing succeeds, and loses nothing else when it stops early |
| `Recovery.SweepExact` | pkg/vip/address.go:1513-1585 | an address is left alone exactly when it has another tag, no usable key or a retained IP |
| `LeaseVips.ComparesTotally` | pkg/kubevip/lease_annotations.go:107-124 | the comparison is zero only for equal strings and antisymmetric |
| `LeaseVips.LessTransitive` | pkg/kubevip/lease_annotations.go:107-124 | the comparison is transitive over addresses and names mixed |
| `LeaseVips.NormalFormCanonical` | pkg/kubevip/lease_annotations.go:74-102 | lists with the same candidates have the same normal form |
| `LeaseVips.NormalOrder` | pkg/kubevip/lease_annotations.go:107-124 | addresses come before names, the shorter family first and then by number; names are in alphabetical order |
| `LeaseVips.ListCandidates` | pkg/kubevip/lease_annotations.go:74-102 | a comma-separated list gives exactly its non-empty parts without the white space around them |
| `LeaseVips.PlainCandidate` | pkg/kubevip/lease_annotations.go:74-102 | a value without commas and outer white space is its own candidate |
| `LeaseVips.AnnotationRoundTrip` | pkg/kubevip/lease_annotations.go:34-72 | with an invertible codec the annotation is accepted, gives back the normal form, and is the same text for lists with the same candidates |
| `LeaseVips.CollectCandidates` | pkg/kubevip/lease_annotations.go:74-102 | collects each trimmed non-empty part once |
| `LeaseVips.NormalizeLeaseVIPs` | pkg/kubevip/lease_annotations.go:74-102 | sorts the candidates and numbers them by position with their kind |
| `LeaseVips.ParseLeaseVIPs` | pkg/kubevip/lease_annotations.go:53-72 | accepts exactly well-formed values of the known version |
| `LeaseVips.WithLeaseVIPs` | pkg/kubevip/lease_annotations.go:34-51 | sets its own annotation to the encoded normal form and keeps all others |
| `BgpPeers.PeerRoundTrip` | pkg/kubevip/config_bgp.go:59-232 | a peer whose fields avoid the delimiters, rendered in any form it fits with any number of trailing fields left out, parses back with the defaults for them |
| `BgpPeers.ConfigurableExactly` | pkg/kubevip/config_bgp.go:71-232 | some configuration gives a list with the peer if and only if its fields fit the layout in some form, and then it can be configured alone |
| `BgpPeers.NoIPv6NextHop` | pkg/kubevip/config_bgp.go:71-232 | no configuration gives a list with a peer that has an IPv6 MP-BGP address |
| `BgpPeers.ListsCompose` | pkg/kubevip/config_bgp.go:71-232 | a joined list parses exactly when both parts do, to the peers of both in order, and reports the first error |
| `BgpPeers.EmptyLists` | pkg/kubevip/config_bgp.go:71-232 | no text is an error, while a list of empty parts is an empty list |
| `BgpPeers.AcceptedExactly` | pkg/kubevip/config_bgp.go:71-232 | exactly which fields are accepted: numbers in range, boolean words, known options |
| `BgpPeers.RejectedWith` | pkg/kubevip/config_bgp.go:71-232 | a rejected peer gets the error of its first bad field |
| `BgpPeers.OmittedFields` | pkg/kubevip/config_bgp.go:71-232 | what an empty or missing field stands for, among them port 179, and 0 for an unnumbered peer without the field |
| `BgpPeers.GivenFields` | pkg/kubevip/config_bgp.go:71-232 | what the given fields stand for |
| `BgpPeers.ParsedFits` | pkg/kubevip/config_bgp.go:71-232 | whatever is parsed fits the layout |
| `BgpPeers.ParseOptionLoop` | pkg/kubevip/config_bgp.go:71-232 | the options loop computes the recursive option parser |
| `BgpPeers.AssembleLoop` | pkg/kubevip/config_bgp.go:71-232 | the field-by-field part computes the peer of the specification or its first error |
| `BgpPeers.ParseBGPPeerConfig` | pkg/kubevip/config_bgp.go:71-232 | the parser loop computes the specification for every input text |

## Left out

- Kubernetes, etcd, netlink, nftables, IPVS, gobgp and wgctrl calls: set and map updates with an outcome that is an input.
- The per-service election coordinator and the etcd election: their ordering rests on libraries that are not part of this model.
- DHCP, DNS, ARP and NDP packet sending, egress rules, UPnP, metrics, command line and manifests.
- The control plane's own VIP cleanup, which allows for one ARP claim of its own: whether that claim is still its own depends on timing.
- Fairness and real time: ticks, wakeups and lease expiry are steps or inputs.
- Overlapping debouncer workers of one object after a stop: the claims are about one worker's lifetime.
- Hostname and DHCP networks in the cleanup: the networks serve the literal addresses of the Service.
- Instances that `prepareServiceInstance` appends without a reservation (pkg/services/services.go:260-276): the admission runs start from `admitServiceInstance`.
- Admission.AdmissionSafe: admissions of one UID are serialized, because otherwise it is false, as UnserializedBreaksSafety shows; AdmissionExact says what the bypassing steps must meet.
- Refreshes in the middle of a check: a check reads the claims of all tracked instances when it begins.
- Link constructions are atomic, and a construction that is given up for a stale context is not a step of its own.
- The creation of macvlan links for DHCP: only their cleanup is modelled.
- LeaseVips.NormalizeLeaseVIPs: the library sort is an insertion sort, because only its result matters.
- Recovery.Processor.RecoverAddresses: the answers of the API server and the addresses in the kernel do not change during one pass.
- Recovery.RetainAnnotatedLeaseVIPs: lease names have no slash, as the API server demands.
