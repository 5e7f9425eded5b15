# Verified model of the platform's control loop and request-path cache

This project models the parts of a multi-tenant container platform whose correctness is hard to see
from any one function, and proves what they guarantee over whole runs.

- **The control loop.** The deployment controller compares desired with active replicas, the scheduler
  places containers and records statuses, workers start, stop and poll them. `Cluster` is one state
  machine over the tables, the message streams and the workers' in-memory maps, with messages that may be
  delivered again; `Agreement`, `QuotaSafety`, `Convergence`, `TickRound`, `Rollout` and `Placement` prove its
  properties; `Scenarios` holds the runs on which promises fail; `ControlPlane` holds the handlers as
  in-place loops, each proved to perform exactly the steps of the state machine.
- **The load balancer's registry.** `Registry` and `RegistryRuns` describe the cache and its runs,
  `LoadBalancer` performs its operations in place, `RoundRobin` is the balancing strategy, `Fairness` puts
  both together, and `CacheSync` proves that point updates and full resyncs lead to the same content.
- **The service-instance controller.** `ServiceInstances` reconciles running containers into instance
  rows and composes the result with the registry.
- **The API server's smaller state machines.** `Paging`, `ResourceQuota`, `DeploymentHistory`,
  `Membership` and `RefreshTokens`.

`dafny verify dfyconfig.toml` checks everything.

## Main results

1. *Convergence* (`TickRound.TickConverges`, `Convergence.RoundConverges`). One tick and the delivery of
   everything it causes, in any order, leave every target with exactly its desired number of active
   containers, and the next tick publishes nothing, even if starts and stops are delivered repeatedly while
   workers poll and restart. The proof is a conserved quantity: placements requested plus containers that
   will be active once the queues are drained. Delivery always ends (`DeliveryBounded`, `StuckIffIdle`). A
   tick that runs ahead of the placements is exact if and only if none is queued (`ScaleUpExactIff`).
   `Rollout.RolloutConverges` says the same of what a deploy asks for: its own deployment, its image.
2. *Quota safety, exactly* (`QuotaSafety.QuotaHoldsIff`). Over every interleaving, the container ceilings
   hold throughout a run if and only if no status message moves a terminal row of a full organization
   back to active. Rows are revived if and only if a worker starts a container it has reported gone or a
   poll reports such a container alive (`NoRevivalIff`); `Scenarios.LateStartBreaksQuota` is such a run.
3. *Workers and tables agree, exactly* (`Agreement.DrainedRowsAgree`). Once the status stream is read, every
   row holds the last report, and that is what its worker believes if and only if that report did not come
   from a redelivered assignment whose repeated start failed; `Scenarios.FailedRetryDiverges` is such a run.
4. *Incremental cache equals recompute* (`CacheSync.IncrementalEqualsResync`), for any order and duplication
   of events, with the fixed-service hypothesis shown to be exact (`EventAgreesIff`, `UpsertUniqueIff`).
5. *Registry structure, bounded staleness, ejection* over every run (`RegistryRuns`).
6. *Instance reconciliation* is correct and idempotent: the running containers of each application's last
   unfailed deployment are served, and no others are touched (`ServiceInstances.TickServesLatest`), which
   carries through to the registry (`ServiceInstances.RegistryFollowsTick`).
7. *Fair routing* over registry runs (`Fairness.FairRouting`).
8. *Balance, paging, quota arithmetic, revision history, last owner, token chains*, each over
   every run of its own state machine.

## Assumptions

- Each handler, each poll of one container and each controller decision is atomic; transactions are serial;
  the registry's lock makes each of its methods one step. There is one scheduler.
- Streams lose nothing and publishing succeeds, except a deploy's placement request, whose failure marks
  the deployment failed. A message is acknowledged after its handler returns, whatever came of it
  (`internal/eventbus/nats.go:69-85`), so placements, assignments and unassignments may be handled more than
  once: a step whose acknowledgement is lost or late leaves its message queued. Assignments and unassignments
  may be delivered in any order, placements in theirs. Statuses are consumed in order, each once.
- Database and lookup errors do not occur, other than the not-found, conflict and quota outcomes that are modelled.
- Rows are numbered in insertion order, standing for their opaque uuids. Tokens get fresh hashes.
- Time is an integer passed to each step; registry runs use a clock that never goes back. The runtime's answers
  (start outcome, observed status) are parameters. Iteration over a Go map is an arbitrary choice.
- The insert trigger on containers (`infrastructure/postgres/migrations/0013_quota_enforcement_trigger.sql:42-60`)
  repeats the container clause of the scheduler's check, so it is not a separate step. It does not
  look at updates, so it does not stop a revived row.

## Where the code and its comments disagree

The model follows the code.

- `services/apiserver/internal/server/handlers_applications.go:162-166` says only a net increase can be rejected.
  The projection replaces the *active* containers of the application by the *requested* replicas, so a scale-down
  can be rejected while containers are not up yet: `ResourceQuota.ScaleDownCanBeRejected`, and exactly when:
  `ResourceQuota.ScaleDownAcceptedIff`.
- `services/controller-manager/internal/controller/controller.go:106-110` says placements in flight from an earlier
  tick are accounted for. They are only once their rows exist; a tick that runs before that asks for them again:
  `Scenarios.EarlyTickOverplaces`, and exactly when: `Convergence.ScaleUpExactIff`.
- `services/controller-manager/internal/controller/serviceinstance.go:149-151` says a stopped container is never
  revived under the same id. `internal/db/container.go:96-113` updates a row whatever its old status:
  `Scenarios.LateStartBreaksQuota`, and exactly when: `QuotaSafety.NoRevivalIff`.

## Model

| member | source | states |
|---|---|---|
| `Cluster.BestNode` | services/scheduler/internal/scheduler/placement.go:239-267 | the node returned is eligible, no eligible node has a lower load, every earlier eligible node has a strictly higher one, and none is returned only if no node is eligible |
| `Placement.PlaceExactly` | services/scheduler/internal/scheduler/placement.go:100-284 | a pending row and its assignment appear iff some node is healthy with cpu and memory capacity and the quota has room; they lie on the first such node with the fewest pending and running containers |
| `Placement.TotalsAdd` | internal/db/quota.go:114-149 | every application of an organization adds its cpu and memory once per replica to the totals, and others add nothing |
| `Agreement.StepKeepsInv` | services/scheduler/internal/scheduler/placement.go:100-197 | every handler step, acknowledged or not, keeps: messages and tracked entries name existing rows on their own node, no two queued assignments name the same row, and rows follow the consumed status stream |
| `Agreement.RunKeepsInv` | services/worker/internal/nodeagent/assign.go:103-192 | that invariant holds in every state of every run that starts in it |
| `Agreement.BelievedIff` | services/worker/internal/nodeagent/assign.go:103-192 | in every state of every run, a worker believes the last status published for a tracked container iff that report did not come from a redelivered assignment whose repeated start failed |
| `Agreement.DrainedRowsAgree` | services/worker/internal/nodeagent/assign.go:103-192 | once the status stream is drained, every row holds the last status published for it, and every tracked container's row lies on its node and equals its worker's belief iff the last report was not a failed retry |
| `Agreement.PollPublishesOnlyChanges` | services/worker/internal/nodeagent/assign.go:163-192 | unless the last report was a failed retry, a poll publishes exactly when what it sees differs from the last status ever published for that assignment, and then publishes one message |
| `Agreement.StartsDeployedImage` | services/scheduler/internal/scheduler/placement.go:137-156 | every start request carries the image recorded for the row's deployment and reaches the row's node |
| `Rollout.DeployRecords` | services/apiserver/internal/server/handlers_deployments.go:121-187 | a deploy appends one deployment with the application, its organization, the image asked for and the outcome of publishing, requests its placement if published, and changes nothing else but the application's image |
| `Rollout.DeployTargets` | internal/db/reconcile.go:56-66 | after a deploy the deployment just appended is its application's only target if published, the application has none if not, and every other application keeps its targets |
| `Rollout.LastDeployIsTarget` | internal/db/reconcile.go:56-66 | in every later state up to the next deploy of the application, that stays so, with the record the deploy made |
| `Rollout.ScaleSetsDesired` | services/apiserver/internal/server/handlers_applications.go:145-181 | a scale request sets the desired count of the application's deployments to exactly the number asked for, and of no other |
| `Rollout.StartsRequestedImage` | services/worker/internal/nodeagent/assign.go:103-124 | every start of a container of the deployment a deploy appended carries the image that deploy asked for |
| `Rollout.RolloutConverges` | services/controller-manager/internal/controller/controller.go:111-228 | after an application's last published deploy, one tick and its deliveries leave exactly the application's replicas of that deployment active, with the image asked for, and nothing left to do |
| `Agreement.RowsRememberReports` | internal/db/container.go:96-113 | in every state, a row has a start stamp iff a running report was recorded, a stop stamp iff a terminal one was, and the last non-empty runtime id reported |
| `QuotaSafety.StepWithinIff` | services/scheduler/internal/scheduler/placement.go:100-230 | from within the ceilings, a step stays within them iff it does not revive a terminal row of a full organization |
| `QuotaSafety.QuotaHoldsIff` | services/scheduler/internal/scheduler/placement.go:100-230 | over every run, redeliveries included, the ceilings hold in all states iff no step is such a revival |
| `QuotaSafety.RevivalIff` | internal/db/container.go:96-113 | in every state of a run, no row has been revived so far iff the reports recorded so far never say active after a terminal one |
| `QuotaSafety.NeverBackIff` | services/worker/internal/nodeagent/assign.go:103-192 | the published stream never says active after a terminal report iff no step starts a container reported gone or reports it alive again |
| `QuotaSafety.NoRevivalIff` | services/controller-manager/internal/controller/serviceinstance.go:146-152 | over a run whose statuses are all recorded, no container is revived under its id iff no worker starts an assignment it has reported gone and no poll reports such a container alive |
| `QuotaSafety.QuotaHoldsWithoutLateStarts` | services/worker/internal/nodeagent/assign.go:103-192 | if no assignment starts after its own terminal report and no poll sees a dead container alive, no row is ever revived and all ceilings hold |
| `Scenarios.LateStartBreaksQuota` | services/controller-manager/internal/controller/controller.go:184-228 | the run, step by step: a pending container is scaled away and unassigned, stopped, replaced and started late; the late start and the revival are named, and the run ends over a ceiling |
| `Convergence.StepConserves` | services/controller-manager/internal/controller/controller.go:111-228 | every undisturbing step conserves a deployment's requested placements plus surviving containers |
| `Convergence.AwaitingPromise` | internal/db/container.go:139-149 | while only placements and first starts are in flight, the promise is the active containers plus the queued placements |
| `Convergence.SettledPromise` | internal/db/container.go:139-149 | with nothing in flight, the promised containers are exactly the active ones |
| `Convergence.ScaleUpExactIff` | services/controller-manager/internal/controller/controller.go:106-171 | a scale-up decided while only placements and first starts are in flight ends, once delivered, with the desired count plus one container per placement queued at the decision, so with the desired count iff none was |
| `Scenarios.EarlyTickOverplaces` | services/controller-manager/internal/controller/controller.go:106-120 | a run from the initial state in which one replica is desired, a tick runs ahead of the deploy's placement, and two containers are active |
| `Scenarios.FailedRetryDiverges` | services/worker/internal/nodeagent/assign.go:103-124 | a run in which an assignment is delivered twice and the second start fails: the row says crashed, the worker running, a poll that sees it running corrects nothing, and no replica counts as active |
| `Convergence.ReconcilePromises` | services/controller-manager/internal/controller/controller.go:128-141 | from a settled state, one decision promises exactly the desired count, up or down |
| `Convergence.RoundConserves` | services/controller-manager/internal/controller/controller.go:111-228 | a stretch of undisturbing steps conserves promise and desired count |
| `Convergence.RoundConverges` | services/controller-manager/internal/controller/controller.go:111-228 | after a decision and undisturbed traffic of any kind, whenever the deployment is settled again its active count is the desired one and another decision changes nothing |
| `TickRound.DeliveryShrinks` | internal/eventbus/nats.go:79-85 | each delivery strictly lowers a weight on what is still to be delivered |
| `TickRound.DeliveryBounded` | internal/eventbus/nats.go:79-85 | no run of deliveries is longer than the weight it starts from |
| `TickRound.StuckIffIdle` | internal/eventbus/nats.go:79-85 | no delivery is possible iff nothing is left to deliver |
| `TickRound.AdmittedKeepsFits` | services/scheduler/internal/scheduler/placement.go:207-230 | while requests fit the quotas and no revival is on its way, each delivery, redelivery, quiet poll and worker restart keeps it so |
| `TickRound.TickConverges` | services/controller-manager/internal/controller/controller.go:111-120 | from an idle cluster, one tick over all targets and the delivery of everything, with repeated starts and stops, quiet polls and worker restarts in between, leave every target at its desired count, and another decision changes nothing |
| `Placement.BalanceHolds` | services/scheduler/internal/scheduler/placement.go:239-284 | over every run on fixed nodes without terminations, the load spread of eligible nodes never exceeds the larger of one and the initial spread |
| `Placement.BalanceIsTight` | services/scheduler/internal/scheduler/placement.go:239-284 | on two equally loaded nodes the next placement makes the spread exactly one |
| `Placement.ComparatorIsStrictWeakOrder` | services/controller-manager/internal/controller/controller.go:197-206 | the sort comparator is irreflexive, asymmetric, transitive, and ties exactly equal start times |
| `Placement.ChosenAreOldest` | services/controller-manager/internal/controller/controller.go:184-228 | the chosen containers are k distinct active ones, none younger than one left, unstarted only if every one left is unstarted |
| `Placement.ScaleDownChoice` | services/controller-manager/internal/controller/controller.go:184-228 | the messages published stop exactly min(excess, active) distinct active containers, oldest first, each on its own node and with its own runtime id |
| `ControlPlane.PrefixIsOldest` | services/controller-manager/internal/controller/controller.go:184-228 | any prefix of the sorted active containers is a permitted choice |
| `ControlPlane.PollingIsRun` | services/worker/internal/nodeagent/assign.go:163-192 | polling a node's entries in any order is a run of poll steps, one per entry |
| `ControlPlane.Platform.LoadOf` | services/scheduler/internal/scheduler/placement.go:271-284 | the loop counts the node's pending and running containers |
| `ControlPlane.Platform.SelectNode` | services/scheduler/internal/scheduler/placement.go:239-267 | the scan returns the first least-loaded eligible node |
| `ControlPlane.Platform.HandlePlacement` | services/scheduler/internal/scheduler/placement.go:100-159 | performs exactly the placement step, acknowledged or not: a row and an assignment appear iff a node is eligible and the quota admits it |
| `ControlPlane.Platform.HandleStatus` | services/scheduler/internal/scheduler/placement.go:164-197 | performs exactly the status step: unknown assignments are dropped, others overwrite the row |
| `ControlPlane.Platform.CheckOne` | services/worker/internal/nodeagent/assign.go:172-191 | performs exactly one poll step against the snapshot taken before the loop |
| `ControlPlane.Platform.CheckTrackedContainers` | services/worker/internal/nodeagent/assign.go:163-192 | polls every entry tracked at the start exactly once, in the order the map yields |
| `ControlPlane.Platform.ScaleUp` | services/controller-manager/internal/controller/controller.go:148-171 | appends one placement request with the deployment's image per missing replica |
| `ControlPlane.Platform.SortByStart` | services/controller-manager/internal/controller/controller.go:197-206 | the result has the same distinct members, ordered by the comparator |
| `ControlPlane.Platform.ListActive` | services/controller-manager/internal/controller/controller.go:184-196 | the filtered slice holds each active container of the deployment once |
| `ControlPlane.Platform.PublishUnassigns` | services/controller-manager/internal/controller/controller.go:208-227 | appends one unassignment per chosen container, addressed to its node, with an empty runtime id if none is known |
| `ControlPlane.Platform.ScaleDown` | services/controller-manager/internal/controller/controller.go:184-228 | unassigns a permitted choice of min(excess, active) containers |
| `ControlPlane.Platform.ReconcileOne` | services/controller-manager/internal/controller/controller.go:128-141 | performs exactly one reconcile step |
| `ControlPlane.Platform.ListTargets` | internal/db/reconcile.go:56-88 | lists exactly the latest, unfailed deployment of each application, each once |
| `ControlPlane.Platform.Tick` | services/controller-manager/internal/controller/controller.go:111-120 | is a run that reconciles every target exactly once |
| `RoundRobin.Strategy.Next` | services/loadbalancer/internal/strategy/strategy.go:35-41 | returns the key's counter in range of n, advances and wraps it, and touches no other key |
| `RoundRobin.PicksCycle` | services/loadbalancer/internal/strategy/strategy.go:35-41 | while a key's n stays the same its picks run through 0 to n - 1 and around again, one step per call of that key, a new key from 0 |
| `RoundRobin.RoundRobinFair` | services/loadbalancer/internal/strategy/strategy.go:35-41 | in any interleaving of keys, a key's m calls with n unchanged give each index floor(m/n) or ceil(m/n) turns, from any counters |
| `RoundRobin.AnswersAreTurns` | services/loadbalancer/internal/strategy/strategy.go:35-41 | over a repetition-free list, answers naming an instance are the turns of its position |
| `RoundRobin.InstancesShareEvenly` | services/loadbalancer/internal/strategy/strategy.go:35-41 | calls over an unchanged list of distinct instances give each floor or ceiling of its even share |
| `Fairness.FairRouting` | services/loadbalancer/internal/registry/registry.go:191-212 | in any stretch of any registry run in which every request for a service finds the same unejected instances, each of them answers floor or ceiling of its even share, whatever else happens |
| `Registry.RemovalIsEviction` | services/loadbalancer/internal/registry/registry.go:152-163 | when ids are unique, removing the first occurrence met equals evicting that container everywhere, whatever service the map yields first |
| `Registry.RemovalsAreEviction` | services/loadbalancer/internal/registry/registry.go:236-250 | removing distinct registered containers one by one equals evicting the set at once |
| `Registry.SweepIsEviction` | services/loadbalancer/internal/registry/registry.go:236-250 | a sweep evicts exactly the stale instances and keeps every list otherwise in order, in whatever order the stale ids are collected |
| `Registry.SweepKeepsFresh` | services/loadbalancer/internal/registry/registry.go:236-250 | after a sweep at now, an instance is listed iff it was and was last seen at or after now - ttl |
| `Registry.SweepKeepsOrder` | services/loadbalancer/internal/registry/registry.go:236-250 | the instances that stay keep their order |
| `Registry.UpsertInPlace` | services/loadbalancer/internal/registry/registry.go:125-139 | an upsert puts the address where the container was, or at the end of the service's list, and moves nothing |
| `Registry.AvailableConcat` | services/loadbalancer/internal/registry/registry.go:191-212 | the instances to choose from are those of the list, in its order, whose mark is absent or expired |
| `LoadBalancer.ServiceRegistry.constructor` | services/loadbalancer/internal/registry/registry.go:60-68 | a new registry is empty and uses the given strategy |
| `LoadBalancer.ServiceRegistry.SeenIn` | services/loadbalancer/internal/registry/registry.go:77-97 | the nested loops stamp exactly the ids of the listing |
| `LoadBalancer.ServiceRegistry.DropMarks` | services/loadbalancer/internal/registry/registry.go:77-97 | the marks left are those of listed ids, unchanged |
| `LoadBalancer.ServiceRegistry.ReplaceAll` | services/loadbalancer/internal/registry/registry.go:77-97 | swaps in the listing, stamps it, and keeps the marks of listed ids only |
| `LoadBalancer.ServiceRegistry.Upsert` | services/loadbalancer/internal/registry/registry.go:125-139 | replaces the container's entry in place within its service, or appends it, and stamps it |
| `LoadBalancer.ServiceRegistry.Remove` | services/loadbalancer/internal/registry/registry.go:146-163 | drops the first occurrence in some service holding the container with its bookkeeping, or changes nothing if there is none |
| `LoadBalancer.ServiceRegistry.MarkUnhealthy` | services/loadbalancer/internal/registry/registry.go:171-175 | sets the mark to now plus the duration and changes nothing else |
| `LoadBalancer.ServiceRegistry.MarkHealthy` | services/loadbalancer/internal/registry/registry.go:179-183 | clears the mark and changes nothing else |
| `LoadBalancer.ServiceRegistry.Next` | services/loadbalancer/internal/registry/registry.go:191-212 | fails iff every registered instance of the name has a mark later than now; otherwise returns the instance without one whose turn it is and advances only that name's counter |
| `LoadBalancer.ServiceRegistry.Sweep` | services/loadbalancer/internal/registry/registry.go:236-250 | removes the ids last seen before the cutoff, one by one, in some order |
| `RegistryRuns.StepKeepsStructure` | services/loadbalancer/internal/registry/registry.go:77-183 | every operation fed from a table with fixed services keeps ids unique, under their own service, with bookkeeping for exactly the registered ids |
| `RegistryRuns.StructureHolds` | services/loadbalancer/internal/registry/registry.go:77-183 | in every state of every run each id occurs once and the keys of lastSeen are the registered ids; after a resync marks cover only registered ids |
| `RegistryRuns.UpsertUniqueIff` | services/loadbalancer/internal/registry/registry.go:125-139 | an upsert keeps ids unique iff no other service holds the container |
| `RegistryRuns.MovedInstanceLingers` | services/loadbalancer/internal/registry/registry.go:152-163 | a container held by two services survives its removal without a lastSeen entry, so no sweep finds it stale |
| `RegistryRuns.FreshAfterSweep` | services/loadbalancer/internal/registry/registry.go:236-250 | in every later state nothing registered was last seen before the sweep's cutoff |
| `RegistryRuns.BoundedStaleness` | services/loadbalancer/main.go:104-123 | with sweeps every third of the ttl, any instance available at t was confirmed with this address and service no earlier than t - ttl - ttl/3 |
| `RegistryRuns.MarkedIff` | services/loadbalancer/internal/registry/registry.go:171-183 | in every state of every run a container carries a mark iff a call that set it still stands: not re-marked, marked healthy, removed, swept or left out of a resync since |
| `RegistryRuns.AvailableIff` | services/loadbalancer/internal/registry/registry.go:191-212 | a registered instance is available at a time iff no standing call marked it for longer |
| `RegistryRuns.EjectionHolds` | services/loadbalancer/internal/registry/registry.go:171-212 | a marked container, registered at the time or not, is not available before its mark expires, whatever else happens, unless it is re-marked, marked healthy, or dropped and then registered again |
| `RegistryRuns.EjectionEnds` | services/loadbalancer/internal/registry/registry.go:191-212 | from the time its last mark names, a container is available wherever it is registered |
| `RegistryRuns.UnmarkedAvailable` | services/loadbalancer/internal/registry/registry.go:191-212 | a container never marked is available wherever and whenever it is registered |
| `CacheSync.Resync` | services/loadbalancer/main.go:210-236 | the loop groups the listed rows by name and swaps the result in |
| `CacheSync.HandleServiceUpdated` | services/loadbalancer/main.go:249-275 | an event upserts the container's healthy row, or removes the container if there is none |
| `CacheSync.AgreementMeans` | internal/db/loadbalancer.go:55-93 | agreement on a container means that its healthy row's address is listed under the row's name and nothing else of it, and that without a healthy row it is not registered |
| `CacheSync.ResyncFollowsRows` | services/loadbalancer/main.go:210-236 | after a resync exactly the healthy rows are listed, under their own name with their own address |
| `CacheSync.EventFollowsRow` | services/loadbalancer/main.go:249-275 | after an event its container's healthy row is listed under the row's name; without one the container is not registered |
| `CacheSync.GroupedInOrder` | services/loadbalancer/main.go:210-236 | each service lists its rows in the order in which the query returned them |
| `CacheSync.ResyncAgrees` | internal/db/loadbalancer.go:61-80 | after a resync the registry says about every container exactly what the table says |
| `CacheSync.EventAgrees` | internal/db/loadbalancer.go:82-93 | after an event about c the registry agrees with the table on c, and its agreement on every other container is unchanged |
| `CacheSync.EventAgreesIff` | services/loadbalancer/main.go:249-275 | with unique ids, an event about a healthy container makes the registry agree on it iff no other service already holds it |
| `CacheSync.CacheAgrees` | services/loadbalancer/main.go:210-275 | over any history of changes, events, resyncs, sweeps and marks, if each change or sweep of c is followed by an event about c or a resync, the registry agrees with the table on c |
| `CacheSync.IncrementalEqualsResync` | services/loadbalancer/main.go:210-275 | if that holds of every container, the registry holds exactly the entries a fresh resync would build |
| `ServiceInstances.Controller.HandleStatus` | services/controller-manager/internal/controller/serviceinstance.go:124-137 | only a running report with a port updates the port cache, with the first port |
| `ServiceInstances.Controller.GetOrCreate` | internal/db/service.go:57-68 | an existing service wins; creation fails iff another service has the name; names stay unique |
| `ServiceInstances.Controller.ReconcileCandidate` | services/controller-manager/internal/controller/serviceinstance.go:183-204 | refreshes and publishes iff a port is known and the service exists, and changes no other row |
| `ServiceInstances.Controller.ReconcileAll` | services/controller-manager/internal/controller/serviceinstance.go:152-160 | every candidate is handled once, in any order, and exactly the published ones are refreshed |
| `ServiceInstances.Controller.DeleteOrphans` | services/controller-manager/internal/controller/serviceinstance.go:162-181 | exactly the rows whose container is not running lose row and cached port |
| `ServiceInstances.Controller.Tick` | services/controller-manager/internal/controller/serviceinstance.go:152-181 | performs one tick: candidates refreshed, orphans removed, and exactly these published |
| `ServiceInstances.TickReconciles` | services/controller-manager/internal/controller/serviceinstance.go:152-204 | after a tick every row's container is running, and every running container of a live deployment with a port has a healthy row with its node's address and that port, unless its service name belongs to another service |
| `ServiceInstances.TickRow` | services/controller-manager/internal/controller/serviceinstance.go:152-204 | a tick, container by container: served if running, live and with a port; untouched and unannounced if running but not live; without row and port if not running |
| `ServiceInstances.TickServices` | internal/db/service.go:57-68 | a tick keeps every service and adds only those of running, live containers with a port, under their own name |
| `ServiceInstances.TickServesLatest` | internal/db/service_reconcile.go:54-111 | over the cluster's tables: a running container of its application's last unfailed deployment is served, one of an earlier or failed deployment keeps what it had, one that does not run is not served |
| `ServiceInstances.ReconciledTick` | services/controller-manager/internal/controller/serviceinstance.go:152-204 | a tick over reconciled tables changes only last_seen_at of the candidates' rows |
| `ServiceInstances.SecondTickIdempotent` | services/controller-manager/internal/controller/serviceinstance.go:152-204 | a second tick over the same containers changes nothing but last_seen_at, name clashes included |
| `ServiceInstances.TickPublishesChanges` | services/controller-manager/internal/controller/serviceinstance.go:152-215 | what the load balancer would look up changes only for published containers |
| `ServiceInstances.RegistryFollowsTick` | services/loadbalancer/main.go:249-275 | in any history in which the tick's rows are written one by one while events are handled, a container with an event or resync after its last write and sweep is listed under its service with its node's address and port if it is running, live and has a port and a service, and is not listed at all unless it is running |
| `Paging.RevisionsSuffice` | internal/db/deployment.go:114-149 | with distinct revisions, comparing revisions alone is comparing (revision, id) |
| `Paging.RestOfListing` | internal/db/audit_log.go:68-116 | the query after the n-th row returns exactly the rest of the original listing, whatever newer rows were added |
| `Paging.PagesAreChunks` | internal/db/build.go:125-171 | the pages of a reader who follows cursors are consecutive chunks of the original listing |
| `Paging.PagingComplete` | internal/db/audit_log.go:68-116 | following cursors to the end yields every row present at the start, once, strictly descending, and exactly the last page has no cursor |
| `Paging.PagingTerminates` | services/apiserver/internal/server/handlers_deployments.go:369-373 | the exact number of pages under both cursor rules, including the empty last page of the full-page rule |
| `Paging.ReadAll` | internal/db/audit_log.go:68-116 | a loop over the pages ends and returns every row of the scope in descending order |
| `ResourceQuota.ScaleMatchesCheck` | services/apiserver/internal/server/quota.go:92-129 | after an accepted scale, recomputing usage gives exactly the cpu and memory totals that were checked |
| `ResourceQuota.ScaleAcceptedIff` | services/apiserver/internal/server/quota.go:92-129 | a replica count is stored iff the other containers leave room for it and the declared cpu and memory recomputed with it are within their ceilings; otherwise nothing changes |
| `ResourceQuota.DeclaredPerReplica` | internal/db/quota.go:114-149 | an application alone declares cpu and memory times replicas, and doubling its replicas adds that again |
| `ResourceQuota.ProjectionCountsOthers` | services/apiserver/internal/server/quota.go:92-129 | if only latest deployments have active containers, the projection is the other applications' containers plus the replicas asked for |
| `ResourceQuota.DeclaredStaysWithin` | services/apiserver/internal/server/handlers_applications.go:145-181 | over every serial run of creates, scales, deploys and deletes, declared cpu and memory stay within the ceilings |
| `ResourceQuota.ScaleDownAcceptedIff` | services/apiserver/internal/server/quota.go:92-129 | a scale-down is accepted iff the organization's other active containers leave room for the requested count; in particular when usage is within its ceiling and the count is at most the active one |
| `ResourceQuota.ScaleDownCanBeRejected` | services/apiserver/internal/server/handlers_applications.go:162-168 | a run of create, scale to five, other containers filling the organization, and scale to three, in which the last is rejected although nothing is over its ceiling |
| `DeploymentHistory.HistoryHolds` | services/apiserver/internal/server/handlers_deployments.go:121-139 | in every reachable state each application's revisions are 1..n in order, its image is that of revision n, and every build is unfinished and empty, succeeded with an image, or failed with only an error |
| `DeploymentHistory.SuccessDeploys` | services/apiserver/internal/server/builds.go:86-176 | a success message appends exactly the next revision with the built image, and changes no other build or image |
| `DeploymentHistory.CreatedAppends` | services/apiserver/internal/server/handlers_deployments.go:121-139 | a deploy appends the next revision with the image given, or the current one if none is, which becomes the application's image |
| `DeploymentHistory.FailureRecorded` | services/apiserver/internal/server/builds.go:86-176 | a completion that does not deploy changes no revision and no image; a failure, or a success without an image, marks exactly its own build failed with the reported reason |
| `DeploymentHistory.DuplicateCompletionDeploysTwice` | services/apiserver/internal/server/builds.go:86-176 | the same success handled twice appends two revisions with the same image while build row and image end as after the first |
| `DeploymentHistory.Store.NextRevision` | internal/db/deployment.go:84-98 | the loop computes the largest revision of the application plus one |
| `DeploymentHistory.Store.CreateDeployment` | services/apiserver/internal/server/handlers_deployments.go:121-139 | sets the image if it changes and appends the next revision with it |
| `Membership.OwnersRemain` | services/apiserver/internal/server/handlers_members.go:98-265 | over every serial run of signup, invite, role change, removal and organization deletion, each organization has an owner and each user at most one row in it |
| `Membership.GuardIsExact` | services/apiserver/internal/server/handlers_members.go:186-259 | a permitted removal or demotion is refused as last owner iff carrying it out would leave no owner |
| `Membership.RequestsExactly` | services/apiserver/internal/server/handlers_members.go:98-265 | a request is accepted iff its actor may make it and no organization loses its last owner; then exactly the named member gets or loses the named role, and every other role stays |
| `Membership.Roster.CountOwners` | internal/db/membership.go:201-211 | the loop counts the organization's owner rows |
| `Membership.Roster.ChangeMemberRole` | services/apiserver/internal/server/handlers_members.go:161-217 | performs exactly the role-change transaction, with its refusals |
| `Membership.Roster.RemoveMember` | services/apiserver/internal/server/handlers_members.go:222-265 | performs exactly the removal transaction, with its refusals |
| `RefreshTokens.LoginsAreIssued` | services/apiserver/internal/server/handlers_auth.go:191-267 | every token was added by a request of the run, and it starts a chain iff that request was a signup or login |
| `RefreshTokens.OneLiveTokenPerLogin` | services/apiserver/internal/server/handlers_auth.go:191-267 | in every reachable state the unrevoked tokens descending from a login are exactly one, the end of its acyclic replaced_by chain, all of one user |
| `RefreshTokens.RedeemedOnce` | services/apiserver/internal/server/handlers_auth.go:191-245 | once a token is redeemed, presenting it again is refused and changes nothing, at any later time |
| `RefreshTokens.RedeemedIff` | services/apiserver/internal/server/handlers_auth.go:191-245 | a token is redeemed iff it is unrevoked and at most the ttl has passed since the request that added it; then a token of the same user replaces it, and otherwise nothing changes |
| `RefreshTokens.LiveTokensConserved` | services/apiserver/internal/server/handlers_auth.go:191-245 | there are always as many unrevoked tokens as logins, so a refresh conserves their number |
| `RefreshTokens.TokenStore.GetByHash` | internal/db/refresh_token.go:74-86 | the search returns the first token with the hash, or reports none |
| `RefreshTokens.TokenStore.HandleRefresh` | services/apiserver/internal/server/handlers_auth.go:191-245 | succeeds iff the token is known, unrevoked and unexpired, and then creates the replacement and links it |

## Left out

- HTTP routing, JSON and cursor decoding, error envelopes, the CLI: requests and messages are taken as decoded; malformed ones and unrecognised status strings are dropped by the source and have no step here.
- The container runtime, the NATS client, git, TLS, bcrypt and JWT: their outcomes are parameters of the steps.
- Host routes (`ReplaceHostRoutes`, `ResolveHost`), `All` and the load balancer's own health probing: only the marks it sets are modelled.
- Deleting applications and organizations in the cluster state machine: their containers' rows are never removed there. `ResourceQuota`, `DeploymentHistory` and `Membership` do model deletion.
- Image ports, environment and commands in placement and assignment messages.
- Redelivery of status messages: each is recorded once, in order. A worker that stops between starting a container and publishing its status leaves no trace in this model.
- The project and daily-deployment quotas and the refusals of the deploy route: they only make a request not happen.
- The permission matrix beyond the member and organization routes, row-level security, audit entries.
- Interleavings inside one handler, such as an event between a resync's query and its swap, and two concurrent refreshes of one token.
- ControlPlane.Platform.SortByStart: the library sort is an insertion into a new sequence, not an in-place permutation of the slice; it is stable, which no caller relies on.
- Scale, signup, invite and token issue are functions on values, not methods of a class; what they lose is only update in place. Straight-line handlers that are methods but add nothing to their step have no row above.
- SQL queries are functions or relations on the tables, not plans; `ListRunningCandidates` sees each container with its join already made.
