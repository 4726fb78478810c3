# KubeAI: a Dafny model of its control loops

KubeAI serves ML models on Kubernetes. This project models the parts of it that decide things
over time, and proves what they keep and what they reach:

- **Rollout planner** (`DeletionOrder`, `PodCounts`, `PodPlan`, `Planner`, `Rollout`): from a
  listing of Pods to the Pods to create, delete and keep, and what repeated planning converges to.
- **Load balancer** (`HashRing`, `RingHistory`, `LoadBounds`, `Group`, `InFlight`, `Fallback`,
  `Refinement`): the hash ring kept in step with the endpoints, consistent hashing with bounded
  loads, least load, and in-flight leases, whose operations are steps of a state machine.
- **Autoscaler** (`MovingAverage`, `Scaling`, `Autoscaler`): circular-buffer averages, the ceiling
  target, the streak counter that delays scale-downs, and replica bounds under three writers.
- **Protocols** (`Cache`, `Adapters`, `Proxy`): cache loading and eviction behind a finalizer with
  a crash at any point, adapter labels, and the retrying proxy that nests its leases.

Code that updates state in the original is a class or an array method here, proved against a
specification function; concurrent and crash-prone code is a state machine over its atomic steps.
The properties are lemmas about those functions and runs.

## Assumptions

- Hash functions (xxhash, FNV, the Pod-template hash) are parameters. The ring is canonical when
  virtual nodes of the names in play hash injectively (`HashRing.InjectiveOn`). The hash *input*
  is the endpoint name followed directly by the replica number, so names can collide before any
  hashing; `HashRing.InputsCollideIff` says exactly when. That no array entry ever lacks an owner
  needs less: it holds exactly when different names never collide (`RingHistory.NeverDanglesIff`).
  That no lookup panics needs less still (`RingHistory.NeverPanicsIff`).
- Endpoint names, which are Pod names, are not empty; a missing map entry reads as the empty name.
- Pod keys in a listing are distinct and the listing is accurate; the API server grants the first,
  and pod_plan.go:21-22 states the second.
- Floating-point values are reals and Go's fixed-width integers are unbounded; both agree as long
  as no product or sum leaves the 32- or 64-bit range (53 bits for floats).
- `sort.SliceStable` is modelled as a stable insertion sort. With one stale hash the comparator is
  a strict weak order and every stable sort gives the same list
  (`DeletionOrder.EveryStableSortAgrees`); the planner theorems need only the rank order, so they
  do not depend on the choice.
- `StringHash` never returns the empty string.

## What turned out different from the obvious statement

- Deletion order: the comparator contradicts itself when two different stale hashes meet
  (`DeletionOrder.ComparatorIsStrictWeakOrderIff`); readiness, scheduling and staleness are
  ordered correctly all the same.
- Availability holds for every surge of at least one; with no surge it fails in exactly one
  situation (`PodPlan.AvailabilityIff`, and `PodPlan.NoSurgeExample` for an input).
- The bounded-load test can miss every endpoint while releases are half done. The state says
  exactly when: the live loads, read off the total, the half-done updates and the leases on
  removed endpoints, reach the number of endpoints times one more than the floored threshold
  (`Fallback.FallbackIff`).
- Removing an endpoint whose virtual nodes collide with another's leaves an entry without an
  owner, and a lookup panics on such an entry unless the map is empty. No lookup can panic exactly
  when different names never collide or all names have the same points
  (`RingHistory.NeverPanicsIff`, `Group.LookupPanics`).
- The retrying proxy leaves a request unanswered when the context ends just after
  a retryable response arrived (`Proxy.AnsweredIff`, `Proxy.UnansweredExample`).
- A changed adapter URL costs one extra pass: the pass that sees it removes the label
  (`Adapters.OnePassConvergesIff`, `Adapters.ChangedUrlExample`).
- `ScaleAtLeastOneReplica` can leave the bounds from unset replicas when the minimum exceeds one
  (`Scaling.UnsetReplicasIff`, `Scaling.UnsetReplicasExample`).
- A retained endpoint keeps its old address when a reconcile observes a new one: the address in
  use is always the one observed when the name was last added (`Group.AddressIsFromLastJoin`,
  `Group.StaleAddress`).

## Model

| member | source | states |
|---|---|---|
| DeletionOrder.SortPodsByDeletionOrder | internal/modelcontroller/pod_plan.go:224-252 | sorts the Pods in place, by stable insertion with the source's comparator |
| DeletionOrder.SortedIsPermutation | internal/modelcontroller/pod_plan.go:224-252 | sorting loses and duplicates no Pod, for any hashes |
| DeletionOrder.SortedByRank | internal/modelcontroller/pod_plan.go:225-245 | for any hashes, unready Pods come before ready ones, then unscheduled, then stale |
| DeletionOrder.SortedIsStable | internal/modelcontroller/pod_plan.go:225 | Pods with no reason to differ keep their order, for any hashes |
| DeletionOrder.ComparatorIsStrictWeakOrderIff | internal/modelcontroller/pod_plan.go:225-251 | the comparator is a strict weak order on a list exactly when Pods alike in readiness and scheduling show at most one stale hash |
| DeletionOrder.ComparatorCanContradictItself | internal/modelcontroller/pod_plan.go:240-245 | two Pods with different stale hashes each come before the other |
| DeletionOrder.SortedYoungestFirst | internal/modelcontroller/pod_plan.go:247-250 | with one stale hash, younger Pods are given up first among equals |
| DeletionOrder.SortedInOwnTerms | internal/modelcontroller/pod_plan.go:225-251 | the order in the Pods' own fields: unready before ready, then unscheduled, then stale; with one stale hash younger before older |
| PodCounts.CountsInOwnTerms | internal/modelcontroller/pod_plan.go:71-83 | what the planner counts, as sets of Pods by readiness and hash |
| DeletionOrder.EveryStableSortAgrees | internal/modelcontroller/pod_plan.go:225 | with one stale hash every stable sort by the comparator gives this list |
| PodPlan.ReadyAfterPlan | internal/modelcontroller/pod_plan.go:95-151 | exactly how many ready Pods a plan leaves: the lesser of ready and desired, less one exactly when a ready stale Pod is drained |
| PodPlan.AvailabilityIff | internal/modelcontroller/pod_plan.go:95-151 | min(ready, replicas) ready Pods survive, exactly unless there is no surge, ready equals replicas, and a ready Pod is stale |
| PodPlan.NoSurgeExample | internal/modelcontroller/pod_plan.go:134-148 | without surge, a plan for one ready stale Pod leaves no ready Pod |
| PodPlan.SurgeKeepsAvailability | internal/modelcontroller/pod_plan.go:21-27 | with a surge no snapshot makes a plan drop below min(ready, replicas) ready Pods |
| PodPlan.CountAfterPlan | internal/modelcontroller/pod_plan.go:95-151 | the exact Pod count after a plan, with the correction for Pods deleted by both scale-down and rollout |
| PodPlan.CountBounds | internal/modelcontroller/pod_plan.go:95-151 | the count ends between the replicas and max(count, replicas + surge), and at the replicas when nothing is stale |
| PodPlan.SurgeEndsWithRollout | internal/modelcontroller/pod_plan.go:134-148 | the plan that recycles the last stale Pods does not recreate the surge Pods |
| PodPlan.SettledCount | internal/modelcontroller/pod_plan.go:95-127 | with no stale Pod exactly .spec.replicas Pods remain, none when it is unset |
| PodPlan.Partition | internal/modelcontroller/pod_plan.go:90-93 | every live Pod is deleted or kept and never both, although the deletion list may repeat a Pod |
| PodPlan.PlanProgress | internal/modelcontroller/pod_plan.go:95-151 | no plan loses ground on the measure of plans left, and every plan gains unless done or waiting for readiness |
| PodPlan.NoActionIff | internal/modelcontroller/pod_plan.go:175-177 | a plan is empty exactly when the rollout is complete or waits for readiness |
| Planner.PodList.DropTerminating | internal/modelcontroller/pod_plan.go:60-67 | keeps each Pod that is not terminating as often as it was listed and no other, in order, in the same backing array |
| Planner.Scan | internal/modelcontroller/pod_plan.go:71-83 | counts the ready, collects the stale in order, indexes all by key |
| Planner.ScaleTo | internal/modelcontroller/pod_plan.go:103-127 | creates the missing Pods or deletes the surplus from the front of the deletion order |
| Planner.Recreate | internal/modelcontroller/pod_plan.go:129-151 | deletes every unready stale Pod and one ready one when all are ready, replacing all but the surge |
| Planner.PlanSorted | internal/modelcontroller/pod_plan.go:71-164 | the loops produce the plan the theorems are about, and the kept Pods each once |
| Planner.CalculatePodPlan | internal/modelcontroller/pod_plan.go:28-165 | filter, sort and plan compose to that plan for every listing: each listed Pod that is not terminating is deleted or kept, never both, and no other Pod is either |
| Rollout.PodApi.Execute | internal/modelcontroller/pod_plan.go:180-220 | deletes before it creates; on an error the cluster is exactly as after the calls so far, and the result says whether anything was attempted |
| Rollout.TakenNamesStay | internal/modelcontroller/pod_plan.go:205-217 | creating leaves every Pod that was there as it is, also one whose name is asked for again |
| Rollout.CreatedPods | internal/modelcontroller/pod_plan.go:205-217 | the Pods added are those with the given names, each with its hash |
| Rollout.EveryPrefixIsSafe | internal/modelcontroller/pod_plan.go:188-217 | after every prefix of the API calls the count is within max(count, replicas + surge) and, with a surge, min(ready, replicas) ready Pods remain |
| Rollout.PrefixLosesNoGround | internal/modelcontroller/pod_plan.go:180-220 | no prefix of the API calls of a plan adds to the plans left |
| Rollout.RoundProgress | internal/modelcontroller/pod_plan.go:95-220 | one list-plan-execute round, in any listing order and readiness and with any number of calls made, never adds to the plans left, and takes one off when all calls are made and it does not wait |
| Rollout.RolloutConverges | internal/modelcontroller/pod_plan.go:21-27 | any run with 2k+1 finished rounds that did not wait ends with no stale Pod and exactly the replicas, whatever readiness does and however many rounds fail partway in between |
| Rollout.ReadyRolloutConverges | internal/modelcontroller/pod_plan.go:21-27 | with every Pod ready before each plan, 2k+1 finished plans complete the rollout |
| Rollout.CompleteIsFixpoint | internal/modelcontroller/pod_plan.go:95-151 | a complete rollout plans nothing and stays as it is |
| HashRing.InputsCollideIff | internal/loadbalancer/balance_chwbl.go:148-150 | two names share a hash input exactly when one is the other followed by the decimal of some m >= 1 with 10m below the replication |
| HashRing.DecimalIsNotation | internal/loadbalancer/balance_chwbl.go:148-150 | the replica number is hashed in decimal notation, without leading zeros |
| HashRing.DistanceIsClockwise | internal/loadbalancer/balance_chwbl.go:108-117 | distances are clockwise on a ring of 2^64 hashes |
| HashRing.CollisionExample | internal/loadbalancer/balance_chwbl.go:144-150 | "a" and "a1" collide under every hash function |
| HashRing.CollisionLeavesDanglingPoint | internal/loadbalancer/balance_chwbl.go:86-106 | after adding two colliding names and removing one, a point of the other is in the array but has no owner |
| RingHistory.NeverDanglesIff | internal/loadbalancer/balance_chwbl.go:86-106 | no history of joins and leaves leaves an array entry without an owner in the group, if and only if virtual nodes of different names never share a hash |
| RingHistory.NeverPanicsIff | internal/loadbalancer/balance_chwbl.go:15-41 | no history reaches a ring with a map that is not empty and an entry without an owner, the only rings a lookup panics on, if and only if virtual nodes of different names never share a hash or all names have the same points |
| RingHistory.BackedAlways | internal/loadbalancer/balance_chwbl.go:86-106 | after every history, whatever the hash, what the map holds is in the array and belongs to a present name that has that point |
| RingHistory.SoundAlways | internal/loadbalancer/balance_chwbl.go:86-106 | then every history leaves the map with exactly the owners of the present names, and the array with their points as often as each name has them |
| HashRing.RingIsCanonical | internal/loadbalancer/balance_chwbl.go:86-138 | the ring is determined by the set of names |
| HashRing.RingGrows | internal/loadbalancer/balance_chwbl.go:86-97 | adding a name turns the ring of a set into the ring of the larger set |
| HashRing.RingShrinks | internal/loadbalancer/balance_chwbl.go:99-106 | removing a name turns the ring of a set into the ring of the smaller set |
| HashRing.NearestIsUnique | internal/loadbalancer/balance_chwbl.go:108-117 | at most one name owns the nearest virtual node |
| HashRing.WalkIncreasesDistance | internal/loadbalancer/balance_chwbl.go:33-70 | the walk with wrap-around visits virtual nodes by strictly increasing clockwise distance, so none twice |
| HashRing.FirstOnWalkIsNearest | internal/loadbalancer/balance_chwbl.go:33-70 | the first admissible owner met on the walk owns the nearest admissible virtual node |
| HashRing.FullWalkMeetsAll | internal/loadbalancer/balance_chwbl.go:33-83 | a full walk that meets no admissible owner proves there is none |
| HashRing.MovesOnlyOnChange | internal/loadbalancer/balance_chwbl.go:33-83 | between any two sets of candidates a key moves only to a name that was no candidate or away from one that is none any more |
| HashRing.MinimalDisruption | internal/loadbalancer/balance_chwbl.go:86-117 | when an endpoint joins, a key moves only to it; when one leaves, only its keys move |
| Group.EndpointGroup.ChwblAddEndpoint | internal/loadbalancer/balance_chwbl.go:86-97 | whatever the hash, the map gains the hashes of the name followed by each replica number, as owned by the name, and the array gains them in order, as many as the replication |
| Group.EndpointGroup.ChwblRemoveEndpoint | internal/loadbalancer/balance_chwbl.go:99-106 | whatever the hash, the map loses the name's points and the array one occurrence of each |
| Group.EndpointGroup.ChwblDeleteSortedHash | internal/loadbalancer/balance_chwbl.go:119-138 | the binary search removes exactly one occurrence of a value that is present and nothing otherwise |
| Group.EndpointGroup.ChwblSearch | internal/loadbalancer/balance_chwbl.go:108-117 | finds the clockwise successor of a key, wrapping around |
| Group.EndpointGroup.ChwblInitial | internal/loadbalancer/balance_chwbl.go:15-26 | the entry a lookup starts at, and on the ring of the endpoints its owner: the endpoint the key belongs to at any load |
| Group.EndpointGroup.ChwblGetAddr | internal/loadbalancer/balance_chwbl.go:14-84 | an endpoint found has the adapter asked for; on the ring of the endpoints one is found exactly when some endpoint has it, and it owns the nearest virtual node among those with the adapter and within the load bound, else among those with the adapter; on any other ring it panics only where `CanPanic` says, and there for every adapter no endpoint has |
| Group.EndpointGroup.NoPanic | internal/loadbalancer/balance_chwbl.go:36-41 | after every history of the ring no lookup panics, under the exact condition |
| Group.Replay | internal/loadbalancer/balance_chwbl.go:86-106 | every history of joins and leaves happens to a group |
| Group.LookupPanics | internal/loadbalancer/balance_chwbl.go:36-41 | where a history reaches a ring that can panic, the lookup of the group does, for any key |
| Group.EndpointGroup.WalkRing | internal/loadbalancer/balance_chwbl.go:33-83 | the loop alone, on any ring from any start: the first endpoint on the walk within the bound, else the first with the adapter, else none, or the panic at the first entry without an owner before that |
| Group.EndpointGroup.GetAddrLeastLoad | internal/loadbalancer/balance_least_load.go:3-23 | an endpoint with the adapter asked for and the fewest requests in flight among those that have it, in any map order, and nothing exactly when none has it |
| Group.EndpointGroup.WhoIsWithinLoad | internal/loadbalancer/balance_chwbl.go:43-63 | the endpoints within the bound, in whole numbers: those with the adapter whose load is at most the percentage of the mean with the new request, or all of them when nothing is in flight |
| Group.EndpointGroup.SelectAddr | internal/loadbalancer/group.go:66-76 | the selection by strategy: an endpoint found has the adapter asked for, and one is found exactly when some endpoint has it; without an adapter it is a pick the load theorems are about |
| Group.EndpointGroup.LeaseBestAddr | internal/loadbalancer/group.go:66-87 | leases the selected endpoint, which has the adapter asked for, exactly when some endpoint has it: its load and the total grow by one and no other load changes |
| Group.EndpointGroup.Release | internal/loadbalancer/group.go:83-85 | gives back one unit of the leased counter and of the total |
| Group.EndpointGroup.NoFallback | internal/loadbalancer/balance_chwbl.go:57-83 | without an adapter some endpoint is within the bound while the live loads sum to less than the endpoints times one more than the floored threshold |
| Group.EndpointGroup.AddNew | internal/loadbalancer/group.go:114-121 | a new name gets its address, a counter at zero and its points: the ring changes by exactly one join |
| Group.EndpointGroup.DropOne | internal/loadbalancer/group.go:123-130 | a name no longer observed goes with its points: the ring changes by exactly one leave |
| Group.EndpointGroup.ReconcileEndpoints | internal/loadbalancer/group.go:108-130 | endpoints become the observed ones; retained ones keep address and counter, new ones start a counter of their own at zero; the ring stays canonical in any iteration order |
| Group.ReconcileInTurn | internal/loadbalancer/group.go:108-130 | after every sequence of reconciles, in any order of names, the ring is exactly that of the last observed endpoints if hashing is injective, is one that a history reaches whatever the hash, and the addresses are those the specification gives |
| Group.AddressIsFromLastJoin | internal/loadbalancer/group.go:110-121 | after every sequence of reconciles an address is the one observed when its name was last added |
| Group.StaleAddress | internal/loadbalancer/group.go:110-113 | a name observed at one address and then at another stays at the first |
| Group.AddressOrigin | internal/loadbalancer/group.go:110-121 | an endpoint no observation has added was there from the start, under its old address |
| Group.OwnerAcrossReconcile | internal/loadbalancer/balance_chwbl.go:86-138 | through reconcile, add, binary-search delete and search, at any loads and for any number of joins and leaves: a key moves only to an endpoint that joined or away from one that left |
| Group.LookupAcrossReconcile | internal/loadbalancer/balance_chwbl.go:14-138 | the lookup itself across any reconcile, for any adapter and loads: it changes only to an endpoint that was no candidate before or away from one that is none any more |
| LoadBounds.SomeEndpointPasses | internal/loadbalancer/balance_chwbl.go:152-163 | pigeonhole: some endpoint passes the load test while the loads sum to less than the endpoints times one more than the floored threshold |
| LoadBounds.FallbackUnreachableIff | internal/loadbalancer/balance_chwbl.go:152-163 | that is exact: every spread of a sum over the endpoints leaves one that passes if and only if the sum leaves that room |
| LoadBounds.RoomWithinTotal | internal/loadbalancer/balance_chwbl.go:152-163 | at 100 percent or more there is room while the loads sum to at most the total plus one |
| LoadBounds.LoadTestInPercent | internal/loadbalancer/balance_chwbl.go:152-163 | the load test in whole numbers: 100 * load * n <= percentage * (total + 1), or nothing in flight |
| LoadBounds.BoundedLoadRun | internal/loadbalancer/balance_chwbl.go:50-83 | in every acquire-only run from idle each load stays within factor times mean plus one, and the total is the sum |
| LoadBounds.BoundedLoads | internal/loadbalancer/balance_chwbl.go:50-83 | the same bound written out for each endpoint |
| LoadBounds.LeastLoadFair | internal/loadbalancer/balance_least_load.go:3-23 | in every acquire-only run from idle loads differ by at most one |
| LoadBounds.LeastLoadEvensOut | internal/loadbalancer/balance_least_load.go:3-23 | from any loads, as many acquisitions as the gap below the highest load even them out for good |
| InFlight.InvAlways | internal/loadbalancer/group.go:53-88 | under every interleaving of atomic additions, releases and reconciles each counter counts its users |
| InFlight.InFlightConserved | internal/loadbalancer/group.go:147-150 | the total is the sum of all counters, live and removed, plus half-done acquires minus half-done releases, and nothing is negative |
| InFlight.QuiescentIsZero | internal/loadbalancer/group.go:82-88 | with no request under way all counters and the total are zero |
| InFlight.FreshCounterIsUntouched | internal/loadbalancer/group.go:114-127 | a name that is added again gets a counter no earlier lease ever touches |
| InFlight.BoundAlwaysMet | internal/loadbalancer/balance_chwbl.go:50-83 | in every reachable state some endpoint is within the bound while the total, corrected by half-done updates and removed leases, leaves room |
| InFlight.FewHalfReleasesAreHarmless | internal/loadbalancer/balance_chwbl.go:50-83 | at 100 percent or more half-done releases up to one more than half-done acquires and removed leases leave room |
| Fallback.FallbackIff | internal/loadbalancer/balance_chwbl.go:50-83 | for any number of endpoints, total, half-done updates, removed leases and factor: every reachable state showing them has an endpoint within the bound if and only if they leave room; the same over the runs in which every request chooses by least load, or by bounded load |
| Fallback.NoRoomIsReached | internal/loadbalancer/group.go:147-150 | for any numbers without room, a run of arrivals, selections, additions and reconciles that shows them and has every endpoint above the bound, each selection being one the strategy makes |
| Fallback.HalfReleasesDefeatTheBound | internal/loadbalancer/group.go:147-150 | at 100 percent, with any half-done acquires and removed leases, two more half-done releases than these can make every endpoint fail |
| InFlight.AtomicBoundAlwaysMet | internal/loadbalancer/balance_chwbl.go:50-83 | with atomic release the fallback is unreachable, even with leases on removed endpoints |
| Fallback.TwoHalfReleasesDefeatTheBound | internal/loadbalancer/group.go:147-150 | a run in which two half-done releases make every endpoint fail the test |
| Refinement.NewGroupShowsStart | internal/loadbalancer/group.go:13-23 | a new group is the start state, so every run of the operations below is a run of the state machine |
| Refinement.Lease | internal/loadbalancer/group.go:66-87 | leasing is the four steps of an acquire in the state machine, and without an adapter its selection is a pick of the strategy |
| Refinement.Release | internal/loadbalancer/group.go:83-85 | the release closure is the two steps of a release, for a removed endpoint too |
| Refinement.Reconcile | internal/loadbalancer/group.go:108-130 | reconciling is one step of the state machine, with new counters for new names, while no request holds the read lock |
| Refinement.SameBound | internal/loadbalancer/balance_chwbl.go:152-163 | the bound is met in the state exactly when the group has an endpoint within it |
| Refinement.GroupDoesNotFallBack | internal/loadbalancer/balance_chwbl.go:50-83 | a group that a run has led to has an endpoint within the bound while the numbers leave room |
| MovingAverage.Simple.Next | internal/movingaverage/simple.go:31-39 | overwriting the slot at the index drops the oldest sample and appends the new one |
| MovingAverage.Simple.Calculate | internal/movingaverage/simple.go:50-60 | the mean of the buffer is the mean of the window and lies between two of its samples |
| MovingAverage.AverageBetween | internal/movingaverage/simple.go:50-60 | an average lies between any two bounds of the samples |
| MovingAverage.AverageRaised | internal/movingaverage/simple.go:50-60 | raising one sample by d raises the average by d over the length |
| MovingAverage.AverageOfOneValue | internal/modelautoscaler/autoscaler.go:59-66 | a window filled with one value averages to that value |
| MovingAverage.Simple.History | internal/movingaverage/simple.go:41-48 | a copy of the buffer |
| MovingAverage.WindowIsLastSamples | internal/movingaverage/simple.go:31-39 | the window holds the last values of the seed followed by all samples |
| MovingAverage.ZeroSamplesZeroAverage | internal/movingaverage/simple.go:9-10 | the average can go to zero: a window of zero samples makes it exactly zero |
| Scaling.RequiredCoversDelay | internal/config/system.go:161-166 | the required number of intervals is the least that covers the scale-down delay |
| Scaling.WindowCoversTimeWindow | internal/config/system.go:168-172 | the window is the least number of intervals that covers the time window |
| Scaling.EnforcedIsNearest | internal/modelclient/scale.go:88-100 | the enforced value is within bounds and nearest to the one asked for |
| Scaling.ModelClient.Scale | internal/modelclient/scale.go:43-86 | decides by streak and bounds for one model and leaves the streaks of others alone |
| Scaling.ModelClient.ScaleAtLeastOneReplica | internal/modelclient/scale.go:14-39 | asks for one replica exactly when there is none and autoscaling is on |
| Scaling.StreakNeverExceedsTrailingDowns | internal/modelclient/scale.go:56-73 | the streak counter never exceeds the uninterrupted requests for a decrease |
| Scaling.StreakIsTrailingDowns | internal/modelclient/scale.go:54-73 | with one required number the counter is exactly the uninterrupted requests for a decrease up to that number, also after a decrease is written |
| Scaling.WrittenIff | internal/modelclient/scale.go:54-83 | an increase is written at once, a decrease exactly when as many uninterrupted requests for one came before as are required, and nothing else |
| Scaling.ScaleDownDelayed | internal/modelclient/scale.go:49-83 | in every run of calls an interval apart a decrease is written only after the scale-down delay of uninterrupted requests for one |
| Scaling.ClampAgreesWithEnforceIff | internal/modelcontroller/model_controller.go:438-453 | the two bound checks agree on every value exactly when no value is above the maximum and below the minimum |
| Scaling.ClampIsIdempotent | internal/modelcontroller/model_controller.go:438-453 | the clamp reaches its fixpoint, within bounds, in one step |
| Scaling.ClampedInOwnTerms | internal/modelcontroller/model_controller.go:438-453 | set replicas end up as near as the bounds allow, unset ones at the minimum, and only a change is written |
| Scaling.ClampKeepsScaleWrites | internal/modelcontroller/model_controller.go:438-453 | the clamp never undoes a write of Scale |
| Scaling.ReplicasStayInBounds | internal/modelclient/scale.go:14-100 | under every interleaving of the three writers, stale reads included, set and bounded replicas stay bounded |
| Scaling.UnsetReplicasIff | internal/modelclient/scale.go:24-31 | from unset replicas the scale-from-zero write is within bounds exactly when the minimum is at most one |
| Scaling.UnsetReplicasExample | internal/modelclient/scale.go:24-31 | minimum two, replicas unset: the write of one is out of bounds |
| Autoscaler.Autoscaler.constructor | internal/modelautoscaler/autoscaler.go:59-66 | saved averages fill the windows of their models, so each model starts from exactly the average saved |
| Autoscaler.Autoscaler.GetMovingAvgActiveReqPerModel | internal/modelautoscaler/autoscaler.go:171-180 | a model not seen before starts from an idle window; no window changes |
| Autoscaler.Autoscaler.ScaleModel | internal/modelautoscaler/autoscaler.go:145-158 | one sample and one decision for one model, from its own window and streak |
| Autoscaler.Autoscaler.TickModels | internal/modelautoscaler/autoscaler.go:139-163 | a tick treats every enabled model by its own history alone and leaves the others as they are |
| Autoscaler.WantedIsFewest | internal/modelautoscaler/autoscaler.go:151-154 | the target is the fewest replicas that keep the average load per replica within the target requests |
| Autoscaler.DecidesByTheFewest | internal/modelautoscaler/autoscaler.go:151-158 | the decision of a tick is the one for the fewest replicas that cover the average of the window with the new sample in it |
| Autoscaler.LoadInOwnTerms | internal/modelautoscaler/autoscaler.go:145-148 | each instance's report counts once and in full, and a model no instance reports has no load |
| Autoscaler.LoadFromParts | internal/modelautoscaler/autoscaler.go:145-148 | the reports of two groups of instances add up |
| Autoscaler.IdleReachesMinimum | internal/modelautoscaler/autoscaler.go:151-158 | without load the replicas are at the minimum after window + required ticks and stay there |
| Cache.InvAlways | internal/modelcontroller/cache.go:30-217 | the invariant of the cache protocol holds after every run, with a crash or an error anywhere |
| Cache.LoadJobOnlyAfterFinalizer | internal/modelcontroller/cache.go:67-111 | a load job is created only while the eviction finalizer is persisted |
| Cache.ListedOnlyWithFinalizer | internal/modelcontroller/cache.go:116-121 | a claim that is not being deleted lists the model only while its finalizer is persisted |
| Cache.PodsPlannedOnlyWhenListed | internal/modelcontroller/model_controller.go:140-151 | Pods are planned only once the model's entry is written to the claim |
| Cache.ListedOnlyAfterLoading | internal/modelcontroller/cache.go:99-122 | in every reachable state, the claim newly lists the model only by a controller step of a pass that read the load job as completed |
| Cache.JobsAreReadFromServer | internal/modelcontroller/cache.go:79-92 | the job a pass acts on is the one the server showed it |
| Cache.JobsAreCreatedOrRemoved | internal/modelcontroller/cache.go:99-133 | the controller never replaces a job that is there nor finishes one |
| Cache.PodsAfterLoadJob | internal/modelcontroller/cache.go:125-133 | a pass goes on to the Pods having read no load job or by removing it; one that has vanished stops the pass |
| Cache.UnlistedOnlyAfterEviction | internal/modelcontroller/cache.go:165-204 | the controller drops the entry only in a pass that read the eviction job as completed |
| Cache.OtherEntriesUntouched | internal/modelcontroller/cache.go:251-273 | no step of the controller changes another model's entry or replaces the claim |
| Cache.FinalizerGoesLast | internal/modelcontroller/cache.go:150-210 | the finalizer goes only from a model being deleted, and only when no lasting claim lists it |
| Cache.LoadingPasses | internal/modelcontroller/cache.go:52-131 | a first pass makes sure of claim, finalizer and load job; once it has completed, a second writes the entry, removes the job and goes on to the Pods |
| Cache.UnfinishedLoadWaits | internal/modelcontroller/cache.go:113-115 | a pass that finds the load job unfinished stops, with the job and all entries unchanged |
| Cache.LoadedPass | internal/modelcontroller/cache.go:94-133 | a pass for a model already listed removes the load job, finished or not, and goes on to the Pods |
| Cache.EvictionPasses | internal/modelcontroller/cache.go:164-214 | a first pass creates the eviction job; once it has completed, a second drops the entry and lets the model go |
| Cache.UnfinishedEvictionWaits | internal/modelcontroller/cache.go:190-193 | a pass that finds the eviction job unfinished stops and changes nothing |
| Cache.NothingToEvict | internal/modelcontroller/cache.go:150-214 | a model being deleted without the finalizer loses its jobs and nothing else changes |
| Cache.FinalizeWithoutClaim | internal/modelcontroller/cache.go:150-162 | without a lasting claim one pass removes the jobs and lets the model go |
| Adapters.Candidates | internal/modelcontroller/adapters.go:48-61 | the loop computes the adapters that do not match and the labels no adapter matches |
| Adapters.ReconcileAdapters | internal/modelcontroller/adapters.go:24-118 | with every loader ready and enough calls that succeed each vLLM Pod gets one pass and no other Pod changes, and else it fails; it stops early only at a loader that is not ready; in every outcome labels not about adapters stay |
| Adapters.TargetInOwnTerms | internal/modelcontroller/adapters.go:36-46 | which Pods get a pass, by the value of their engine label |
| Adapters.PassListed | internal/modelcontroller/adapters.go:48-114 | a listed adapter ends labelled with its hash, except that one labelled with another hash loses its label |
| Adapters.PassUnlisted | internal/modelcontroller/adapters.go:59-114 | an unlisted adapter loses its label |
| Adapters.OnePassConvergesIff | internal/modelcontroller/adapters.go:48-114 | one pass suffices exactly when no labelled adapter changed its URL |
| Adapters.ConvergedInOwnTerms | internal/modelcontroller/adapters.go:48-61 | converged, key by key: a label under the adapter prefix for exactly the listed adapters, holding the hash of the URL |
| Adapters.ChangedUrlExample | internal/modelcontroller/adapters.go:48-114 | a labelled adapter whose URL changed: one pass does not converge |
| Adapters.TwoPassesConverge | internal/modelcontroller/adapters.go:19-115 | from any labels two passes make them exactly name to hash of URL |
| Adapters.FixpointIff | internal/modelcontroller/adapters.go:48-114 | converged labels are exactly the fixpoints |
| Adapters.SettlesIff | internal/modelcontroller/adapters.go:50-57 | labels can come to rest exactly when no name is listed with two hashes |
| Proxy.ProxyRequest.ProxyHTTP | internal/modelproxy/handler.go:96-159 | the recursion through the error handler does exactly the specified events and ends with the specified status |
| Proxy.ExchangeShape | internal/modelproxy/handler.go:96-159 | every exchange is leases acquired in turn, at most one response, leases released in reverse |
| Proxy.ExchangeCounts | internal/modelproxy/handler.go:127-154 | at most maxRetries + 1 attempts, at most one response, every lease released exactly once |
| Proxy.RetriedInOwnTerms | internal/modelproxy/handler.go:131-145 | with a live context and a retry left, a response is retried exactly when its code is 500, 502, 503 or 504, or in the configured set if there is one, and a connection error always |
| Proxy.AttemptMadeIff | internal/modelproxy/handler.go:96-150 | an attempt reaches a backend exactly when all before it were retried and it found an address |
| Proxy.OtherResponsesAreWritten | internal/modelproxy/handler.go:127-138 | every other response is written unchanged by its own attempt |
| Proxy.SwallowedInOwnTerms | internal/modelproxy/handler.go:140-155 | a retryable response met by a finished context is not written |
| Proxy.StatusFromLastReply | internal/modelproxy/handler.go:99-155 | the final status is the code of the last response, 502 for a connection error, 500 for a cancelled wait and 504 for any other failure to find an address |
| Proxy.AnsweredIff | internal/modelproxy/handler.go:140-155 | a request goes unanswered exactly when a retryable response met a finished context; otherwise there is one response |
| Proxy.UnansweredExample | internal/modelproxy/handler.go:140-155 | a 503 met by a context that is done by then: no response is written |

## Left out

- PodPlan.CountBounds: assumes that .spec.replicas and the surge are not negative, which the resource schema does not enforce; 32-bit wrap-around of their sum is not modelled.
- Rollout.RolloutConverges: between rounds readiness and scheduling change at will, but nothing else creates or deletes Pods of the model, and a call that fails has not taken effect.
- InFlight.BoundAlwaysMet: reads all counters at one instant; the original reads them one by one while other requests change them.
- Scaling.ScaleDownDelayed: covers one process; the streak counters are lost on restart and not shared between leaders, and a late ticker can fire less than an interval after the tick before.
- Autoscaler.IdleReachesMinimum: assumes that updates succeed and that no other writer changes the replicas meanwhile.
- Adapters.ReconcileAdapters: decides for each Pod just before acting on it, where the original decides for all Pods first; the Pods are distinct and each decision reads one Pod only.
- Cache.InvAlways: one incarnation of the model, and reads return what the server holds at that step; what is on the shared volume is not modelled, in particular a load job still running during eviction.
- Blocking and waking in getBestAddr: an attempt that finds no endpoint returns None; no claim is made that a waiter wakes up.
- The branch for an unknown load-balancing strategy, which returns with the read lock held.
- Pod templates of the engines, JSON patches to them, the headless service, model files and self labels.
- Cache profiles other than the shared filesystem, which the original does not support.
- Request parsing and ServeHTTP around the proxy, the response body, metrics, leader election, informers, and the messenger.
- The state ConfigMap of the autoscaler beyond preloading the averages it holds.
