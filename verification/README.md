# nix-compose: a verified model of the orchestration core

nix-compose decides what to create, destroy, start and stop, and in which order. This project models that
decision code in Dafny and proves what it promises over every input, every run and every reachable state.

The modules follow the program's structure.

- **Plan and apply.** `Requests`, `Store` (the database class with its two link buckets), `Kahn`, `InDegrees` and
  `TopoSort` (ordering a batch), `Deployments` (the reference check), `Events` and `Safety` (whole runs as event traces),
  `Engine` (the imperative apply loop), `Planning` and `PlanLaws` (the diff and what it leads to), `Conditions`,
  `Traversal` (breadth-first search over the links).
- **Worker pool.** `Pool`: the channels, the scheduler's hand, the workers and the cancelled ids as a step relation.
- **Services.** `Compositions`, `StartOrder` (levelled Kahn), `CycleCheck` (depth-first colouring), `Filter`
  (profiles), `InitContainers` (expansion), `Up` (bringing services up level by level).
- **Conversion.** `Convert` (resources, edges and the bridge to a deployment), `Orchestration` (convert, bridge, plan and
  apply from end to end), `Ports` (the port printer and parser),
  `Colons` (splitting).
- **Kubernetes volumes.** `Names` (labels in the sense of section 2.1 of RFC 1123), `VolumePlans` (the planner class),
  `VolumeLaws` (what every plan satisfies), `Rendering` (a whole composition).
- **Shared.** `Ordering` (string order, sorting), `Slices`, `Graphs` (walks, cycles, reachability), `Options`.

Code that works by changing things is a method or a class here, proved against a function or a relation; the laws are
lemmas about those. A resource's `Apply` and `Delete`, a condition wait and a cancelled context become
nondeterministic choices, so a statement about a run holds whatever fails. Maps that Go iterates in an arbitrary order
are iterated in an arbitrary order (`:|`) unless the code sorts.

## What the proofs turned up

Each of these is a lemma; where a promised property fails, another gives the exact condition under which it holds.

- A delete request for an id without a rollout makes the reference check dereference a missing record
  (`CheckReferences`, `ApplySync`); plans computed from the rollouts never contain one (`PlanNeverCrashes`).
- Changing or dropping a resource is refused while any recorded dependent with a rollout is unchanged
  (`PlanAllowedIffDependentsLeave`).
- Two requests under one id: sorting drops one unless the id reaches a cycle (`NothingLostIff`), and replanning always
  finds something to create (`ReplanIsStable`). The project and its network share an id, so any networked composition
  does this (`NetworkNeverSettles`). The diff itself still leads to exactly the desired bodies (`PlanReachesDesired`).
- Links are written before the deletes run, so an updated resource's outgoing links are gone afterwards
  (`LinksAfterRun`).
- A rollback restores the live set exactly when nothing it had created was live before (`RollbackRestores`).
- The pool can come to a complete halt at 2051 outstanding requests, and at no fewer (`StuckIsReachable`,
  `StuckIffAllSending`, `SlackMeansProgress`).
- "Healthy" outranks "completed", so the condition waited for may not be the one a dependent asked for
  (`AnotherConditionWaited`, `OwnConditionWaitedIff`).
- Expanding init containers can turn an acyclic composition into a cyclic one, in three ways: two inits of one service
  called alike (`TwoInitsAlike`, `RepeatedInitLoops`), an existing service called like a generated init
  (`ServiceCalledLikeInit`, `ReplacedInitLoops`), and two services that generate one name (`TwoServicesOneName`,
  `SharedNameLoops`). For every composition the result is acyclic exactly when no new names go round in a circle and,
  passing through them, no service leads back to itself (`AcyclicIff`); what each new name leads to is read off the
  composition (`ExpandedPairs`). With distinct init names new names never go round (`DistinctAcyclicIff`). With new names
  generated for one service each it comes down to no repeated init name (`AcyclicPreserved`).
- A service that mounts a declared volume of its own name depends on itself (`OwnNamedVolumeLoops`): ids are compared
  without kind. The resource graph is acyclic exactly when services do not lead back to themselves through any resource
  that carries a service's id (`ResourcesAcyclicIff`).
- A volume already called what the suffix makes of another's name is mounted in its place (`SuffixAlreadyTaken`). Names
  are one-to-one exactly when no source comes after others that hold both names it could get (`NamesOneToOneIff`), a
  condition on the volume strings alone; suffixed names that no other source could get are enough
  (`SuffixesFreeSuffices`).
- ConfigMap names are kept apart within one service only: two services can ask for the same one and both get it
  (`SameConfigMapName`, `ConfigMapsApartIff`).
- A named port survives printing and parsing exactly when it is printable or its protocol hides that very mapping
  (`RoundTripIff`); a slash in the host address is harmless only when a protocol is printed after it.

## Model

| member | source | states |
|---|---|---|
| `Ordering.LessMeans` | pkg/orchestrate/apply.go:201-227 | the order that decides ties: a proper prefix first, otherwise the smaller character where two ids part |
| `Kahn.KahnEmitsExactly` | pkg/orchestrate/apply.go:201-227 | Kahn's order holds exactly the batch ids from which no cycle is reachable along in-batch links |
| `Kahn.KahnComplete` | pkg/orchestrate/apply.go:201-227 | on an acyclic batch it is a topological order of the whole batch |
| `Kahn.KahnIsLexLeast` | pkg/orchestrate/apply.go:201-227 | it is lexicographically least among all topological orders, so it does not depend on map iteration order |
| `TopoSort.BuildRequestSet` | pkg/orchestrate/apply.go:168-174 | one request per id, the last one of that id in the batch |
| `TopoSort.BuildGraph` | pkg/orchestrate/apply.go:177-198 | each in-degree counts the id's in-batch links with repetition; each adjacency list is the in-batch sources in link order |
| `InDegrees.ZeroDegree` | pkg/orchestrate/apply.go:202-208 | the ids with in-degree zero, from any map order, sorted, each once |
| `TopoSort.Relax` | pkg/orchestrate/apply.go:216-224 | the loop over the neighbours computes `AfterRelax` |
| `TopoSort.RelaxSound` | pkg/orchestrate/apply.go:216-224 | each degree drops by the number of occurrences; exactly the neighbours that reach zero join the queue, which stays sorted and without repeats |
| `TopoSort.Emit` | pkg/orchestrate/apply.go:210-225 | one round takes the least ready id, and the queue then holds exactly what is ready without it |
| `TopoSort.KahnSort` | pkg/orchestrate/apply.go:201-227 | the queue-driven loop computes the set-theoretic Kahn order |
| `TopoSort.AppendCycleOrphans` | pkg/orchestrate/apply.go:230-244 | what Kahn left over follows in batch order |
| `TopoSort.TopoSortRequests` | pkg/orchestrate/apply.go:150-165 | the whole sort is `TopoOrder`, reversed when asked |
| `Slices.ReverseSlice` | pkg/orchestrate/apply.go:247-251 | the in-place swap loop reverses the array |
| `TopoSort.AcyclicOrder` | pkg/orchestrate/apply.go:150-227 | an acyclic batch comes out in Kahn's order with nothing left over |
| `TopoSort.SortIsPermutation` | pkg/orchestrate/apply.go:150-251 | with distinct ids the result is a permutation of the batch, cycles or not |
| `TopoSort.NothingLostIff` | pkg/orchestrate/apply.go:150-251 | nothing is lost if and only if every repeated id reaches a cycle inside the batch |
| `TopoSort.NothingLostIffDistinct` | pkg/orchestrate/apply.go:168-174 | so on an acyclic batch nothing is lost if and only if the ids are distinct |
| `TopoSort.CyclicBatchOrder` | pkg/orchestrate/apply.go:150-251 | with cycles: first exactly the ids that reach none, each after its in-batch targets, then the rest in batch order |
| `TopoSort.OrderIndependent` | pkg/orchestrate/apply.go:150-227 | with distinct ids on an acyclic batch the order of the batch does not matter |
| `TopoSort.TargetsFirst` | pkg/orchestrate/apply.go:146-165 | every request comes after its in-batch targets |
| `TopoSort.DependentsFirst` | pkg/orchestrate/apply.go:146-165 | reversed, every request comes after its in-batch dependents |
| `Requests.SplitRequests` | pkg/orchestrate/apply.go:55-65 | deletes and creates in request order, other requests dropped |
| `Store.Unique` | pkg/orchestrate/typing/reference.go:85-99 | the loop with a seen set computes `UniqueRefs` |
| `Store.UniqueRefsSound` | pkg/orchestrate/typing/reference.go:85-99 | same ids, each once |
| `Store.UniqueRefsAppend` | pkg/orchestrate/typing/reference.go:85-99 | appending to a list of distinct references and removing duplicates adds at most the new one, at the end |
| `Store.AddTo` | pkg/orchestrate/state/dependencies.go:11-37 | as a relation the bucket gains exactly that pair; lists stay non-empty and without repeats |
| `Store.CleanReverseLinks` | pkg/orchestrate/state/dependencies.go:147-187 | exactly the pairs of that source with a listed target go; lists that become empty are dropped |
| `Store.DB.AddLink` | pkg/orchestrate/state/dependencies.go:40-56 | both buckets hold the same relation before and after, and it gains exactly the link |
| `Store.DB.RemoveLink` | pkg/orchestrate/state/dependencies.go:111-131 | both buckets lose exactly the links that leave the resource |
| `Store.DB.GetDependencies` | pkg/orchestrate/state/dependencies.go:59-82 | the image of the relation, each id once |
| `Store.DB.GetDepending` | pkg/orchestrate/state/dependencies.go:85-108 | the preimage of the relation, each id once |
| `Store.DB.GetReferencesTo` | pkg/orchestrate/provider/cri_provider.go:52-71 | exactly the dependents that have a rollout |
| `Store.DB.LoadLinks` | pkg/orchestrate/apply.go:128-145 | all links on record |
| `Traversal.BfsTraverse` | pkg/orchestrate/graph.go:67-104 | terminates; each id reachable from the root once, never the root, even on a cycle; no id comes before one that can be reached in fewer steps; a node shows the key and success on record, and without a rollout it is unknown, under a key some link names it by |
| `Traversal.TransitiveDeps` | pkg/orchestrate/graph.go:52-56 | exactly the other ids the resource reaches along links, nearest first |
| `Traversal.TransitiveDependents` | pkg/orchestrate/graph.go:59-63 | exactly the other ids that reach the resource along the same links, so y is in the one of x iff x is in the other of y |
| `Deployments.Deployment.AddCreation` | pkg/orchestrate/deploy/deployment.go:35-48 | one create more, and one link from it per listed dependency, in order |
| `Deployments.Deployment.AddDeletion` | pkg/orchestrate/deploy/deployment.go:51-57 | one delete more, nothing else |
| `Deployments.Deployment.HasCreate` | pkg/orchestrate/deploy/deployment.go:60-67 | the id is among the creates' ids, whatever its kind |
| `Deployments.Deployment.HasDelete` | pkg/orchestrate/deploy/deployment.go:70-77 | the id is among the deletes' ids, whatever its kind |
| `Deployments.Deployment.CheckCreateReferences` | pkg/orchestrate/deploy/deployment.go:95-114 | no error iff every dependency of the resource has a rollout or is created too |
| `Deployments.Deployment.CheckDeleteReferences` | pkg/orchestrate/deploy/deployment.go:117-144 | no error iff every recorded dependent with a rollout is deleted too |
| `Deployments.Deployment.CheckReferences` | pkg/orchestrate/deploy/deployment.go:80-92 | passes iff both hold for all requests; crashes iff some delete has no rollout |
| `Deployments.Deployment.PersistLinks` | pkg/orchestrate/deploy/deployment.go:155-170 | the relation on record gains exactly the deployment's pairs |
| `Engine.Engine.ProcessCreate` | pkg/orchestrate/deploy/request.go:76-108 | a create that applies is recorded with its id, key and body as succeeded, one that fails to apply as not succeeded, one that cannot load not at all; and which resources exist after each |
| `Engine.Engine.ProcessDelete` | pkg/orchestrate/deploy/request.go:135-147 | outgoing links go once the delete has succeeded, and only then; the rollout stays; and which resources exist after each outcome |
| `Engine.Engine.WaitCondition` | pkg/orchestrate/conditions.go:22-54 | waits for the strictest condition imposed on the resource and changes nothing |
| `Engine.Engine.ExecuteDeletes` | pkg/orchestrate/apply.go:68-78 | attempts a prefix of the given order, carrying on past failures; the whole of it unless cancelled |
| `Engine.Engine.ExecuteCreates` | pkg/orchestrate/apply.go:83-111 | each create is followed by its wait; on the first failure a rollback follows and nothing else |
| `Engine.Engine.Rollback` | pkg/orchestrate/apply.go:114-125 | deletes attempted for exactly the successful creates, last one first |
| `Engine.Engine.ApplySync` | pkg/orchestrate/apply.go:18-52 | refused iff the check fails, and then nothing changes; otherwise deletes in reverse dependency order, then creates, then a rollback if those fail; deletes and creates are safe whenever the links are acyclic on the batch |
| `Safety.DeletesAreSafe` | pkg/orchestrate/apply.go:18-78 | in every run no delete is attempted until one has been attempted for every recorded dependent that has a rollout |
| `Safety.CreatesAreSafe` | pkg/orchestrate/apply.go:83-111 | in every run, when a create is attempted each in-batch link target was created successfully and the wait for its strictest condition succeeded |
| `Safety.RollbackIsSafe` | pkg/orchestrate/apply.go:114-125 | no rolled-back resource goes before one created in this run that depends on it |
| `Safety.RollbackRestores` | pkg/orchestrate/apply.go:83-125 | when the rollback's deletes succeed and the failed create had no effect, the live set loses exactly what was created; it is restored iff none of that was live before |
| `Safety.RemovedEffect` | pkg/orchestrate/deploy/request.go:135-147 | the net effect of any sequence of deletes on links, live set and rollouts |
| `Conditions.Strictest` | pkg/orchestrate/conditions.go:22-54 | the running maximum is the same in every iteration order |
| `Conditions.StrictestDominates` | pkg/orchestrate/conditions.go:22-68 | at least as strict as what each dependent asks, and one of the conditions asked unless none is recognised |
| `Planning.BodyEqualLaws` | pkg/orchestrate/plan.go:120-146 | symmetric and transitive; reflexive exactly on empty and valid bodies; which bodies are equal is what DeletedIffTextDiffers and ActionMeans say |
| `Planning.ByIdIsLast` | pkg/orchestrate/plan.go:42-46 | of several rollouts of one id the last listed counts |
| `Planning.ComputePlan` | pkg/orchestrate/plan.go:39-117 | the loop that deletes from the current map yields the planned actions and requests, orphans last in id order; links are handed on |
| `Planning.WalkDesired` | pkg/orchestrate/plan.go:54-97 | each desired create is decided against what earlier ones have left unclaimed |
| `Planning.DestroyOrphans` | pkg/orchestrate/plan.go:99-114 | one destroy per unclaimed rollout, in id order |
| `Planning.Summary` | pkg/orchestrate/plan.go:149-163 | counts of each kind of action |
| `PlanLaws.PlanReachesDesired` | pkg/orchestrate/plan.go:39-117 | for any desired list, deletes then creates leave exactly the desired ids with the body last desired; what is created again is exactly what is new, changed or repeated, and the rest is untouched and equal |
| `PlanLaws.DeletedIffTextDiffers` | pkg/orchestrate/plan.go:120-146 | a resource on record is deleted iff it is not desired or its text and the one first desired are not both empty nor valid with the same normal form |
| `PlanLaws.UpdatedIffTextDiffers` | pkg/orchestrate/plan.go:145 | for non-empty bodies desired once, valid on record: iff the normal forms differ |
| `PlanLaws.PatchedTexts` | pkg/orchestrate/plan.go:39-117 | under every desired id the patched map holds the text last desired or one with the same normal form |
| `PlanLaws.ActionMeans` | pkg/orchestrate/plan.go:54-97 | per desired resource: its id and key; a create iff it is not on record or its id was desired before; a no-op iff the texts have the same normal form; an update otherwise |
| `PlanLaws.DestroyMeans` | pkg/orchestrate/plan.go:99-114 | then one destroy for each rollout nobody desires, in id order, under the key on record |
| `PlanLaws.UpdatedInTurn` | pkg/orchestrate/plan.go:72-83 | an update is a delete of the resource directly followed by its create |
| `PlanLaws.PlannedKeys` | pkg/orchestrate/plan.go:54-114 | a plan creates only desired requests; a delete carries the key on record if the resource is dropped, the desired one if it is replaced |
| `PlanLaws.PlanNeverCrashes` | pkg/orchestrate/plan.go:39-117 | every delete of a plan has a rollout |
| `PlanLaws.PlannedIds` | pkg/orchestrate/plan.go:39-117 | the ids a plan deletes are those dropped or whose first desired body differs, those it creates are new, changed or repeated |
| `PlanLaws.PlanAllowedIffDependentsLeave` | pkg/orchestrate/deploy/deployment.go:117-144 | the check allows a plan's deletes iff every dependent with a rollout of something that changes or goes also changes or goes |
| `PlanLaws.PlanCheckPassesIff` | pkg/orchestrate/deploy/deployment.go:80-144 | the whole check passes for a plan iff that holds and every dependency of a resource made again is recorded or desired |
| `PlanLaws.SuccessRecordsAll` | pkg/orchestrate/apply.go:18-52 | a successful run leaves under each id of a create the record of the last one, and every other rollout as it was |
| `PlanLaws.SuccessIsRecorded` | pkg/orchestrate/deploy/request.go:95-98 | that record says succeeded, and has the key and body of the last create of the id in the deployment |
| `PlanLaws.FailureIsRecorded` | pkg/orchestrate/deploy/request.go:76-98 | a run that stops at a create leaves it on record as not succeeded if it could not be applied and unrecorded if it could not be loaded; what was created before stays on record through the rollback |
| `PlanLaws.LastForSorted` | pkg/orchestrate/apply.go:150-251 | the last request of an id in the batch is its last in the sorted order, cycles or not |
| `PlanLaws.AppliedIsPatched` | pkg/orchestrate/deploy/request.go:76-108 | after a successful run the bodies on record under the desired ids are those of the patched map, repeated ids or not |
| `PlanLaws.TopoOrderIds` | pkg/orchestrate/apply.go:150-165 | sorting keeps the ids of the batch and invents no request |
| `PlanLaws.RepeatedIdLooksNew` | pkg/orchestrate/plan.go:54-97 | under a repeated id the later resource is always planned as new |
| `PlanLaws.ReplanIsStable` | pkg/orchestrate/plan.go:39-117 | after a fully successful apply, replanning is all no-ops iff ids are distinct and bodies valid; it destroys exactly the earlier orphans |
| `PlanLaws.SummaryAccountsForAll` | pkg/orchestrate/plan.go:149-163 | every desired request and every recorded rollout is counted exactly once, repeated ids or not |
| `PlanLaws.LinksAfterRun` | pkg/orchestrate/apply.go:26-40 | the links left are those written, minus every link leaving a resource whose delete succeeded |
| `Pool.EveryRequestInOnePlace` | pkg/orchestrate/deploy/pool.go:160-189 | in every reachable state each added request is in exactly one of feedback, scheduler's hand, queue, a worker's hands, done, dropped |
| `Pool.FeedbackInOrder` | pkg/orchestrate/deploy/pool.go:160-189 | over any run the scheduler takes requests in the order they were added or sent back |
| `Pool.QueueInOrder` | pkg/orchestrate/deploy/worker.go:25-41 | over any run the workers receive requests in the order they were dispatched |
| `Pool.DoneIffSucceeded` | pkg/orchestrate/deploy/worker.go:48-62 | over any run a request is finished exactly as often as processing it has succeeded |
| `Pool.AttemptsRecorded` | pkg/orchestrate/deploy/worker.go:48-62 | every attempt, failed or not, is recorded in order |
| `Pool.DroppedAreCancelled` | pkg/orchestrate/deploy/pool.go:172-175 | only requests whose id was cancelled are dropped |
| `Pool.NoSendBlocks` | pkg/orchestrate/deploy/pool.go:38-71 | with at most 1024 outstanding, every send can go ahead at once |
| `Pool.CapacityIsTight` | pkg/orchestrate/deploy/pool.go:38-71 | with 1025 outstanding a reachable state has the scheduler's send blocked |
| `Pool.StuckIffAllSending` | pkg/orchestrate/deploy/worker.go:48-62 | the pool is stuck iff both channels are full, the scheduler is sending and every worker is resending: 2051 outstanding |
| `Pool.SlackMeansProgress` | pkg/orchestrate/deploy/pool.go:160-189 | with fewer outstanding than that something can always move |
| `Pool.StuckIsReachable` | pkg/orchestrate/deploy/worker.go:48-62 | failing requests can bring the pool into that state |
| `Pool.CancelledIdsDrain` | pkg/orchestrate/deploy/pool.go:74-88 | after a cancel the id is processed at most as often as there were copies past the scheduler's check |
| `StartOrder.BuildGraph` | pkg/depgraph/order.go:11-25 | in-degrees count dependencies, dependents lists invert them |
| `StartOrder.RemoveLevel` | pkg/depgraph/order.go:44-53 | the degrees are those of the graph without the level; no deleted entry comes back |
| `StartOrder.StartOrder` | pkg/depgraph/order.go:30-62 | succeeds iff every target exists and the graph is acyclic; its levels are the longest-chain levels, each sorted |
| `StartOrder.StopOrder` | pkg/depgraph/order.go:66-78 | the same levels in reverse, under the same condition |
| `StartOrder.LevelsExhausted` | pkg/depgraph/order.go:30-62 | when no further level exists, everything has been placed iff targets exist and there is no cycle |
| `StartOrder.LowIffShortChains` | pkg/depgraph/order.go:30-62 | a service is placed within k levels iff every dependency chain from it stays among services and has at most k names |
| `StartOrder.LevelIsLongestChain` | pkg/depgraph/order.go:30-62 | a service's level is the length of its longest dependency chain |
| `StartOrder.LevelsPartition` | pkg/depgraph/order.go:30-62 | every service is in exactly one level |
| `StartOrder.LevelInNameOrder` | pkg/depgraph/order.go:34-43 | no level is empty, and within one services come in name order |
| `StartOrder.DependencyStartsEarlier` | pkg/depgraph/order.go:27-62 | a dependency is in a strictly earlier start level |
| `StartOrder.DependentStopsEarlier` | pkg/depgraph/order.go:64-78 | a dependent is in a strictly earlier stop level |
| `CycleCheck.CycleDetector.DfsVisit` | pkg/depgraph/depgraph.go:57-74 | terminates on the names still white, services or not; reports an error only on a cycle, otherwise blackens the node |
| `CycleCheck.GrayMeansCycle` | pkg/depgraph/depgraph.go:57-74 | meeting a gray name closes a cycle |
| `CycleCheck.AllBlackIsAcyclic` | pkg/depgraph/depgraph.go:39-54 | once every service is black there is no cycle |
| `CycleCheck.DetectCycles` | pkg/depgraph/depgraph.go:39-54 | no error iff the dependency graph is acyclic |
| `CycleCheck.ValidateReferences` | pkg/depgraph/depgraph.go:19-29 | no error iff every depends_on target is a service |
| `CycleCheck.Validate` | pkg/depgraph/depgraph.go:11-16 | no error iff `StartOrder` succeeds |
| `Up.HighestConditionOf` | pkg/cli/up.go:367-383 | the running maximum is the same in every iteration order |
| `Up.HighestMeans` | pkg/cli/up.go:367-396 | in the words of the compose file: healthy if any service asks for that, else completed, else started, which an empty condition asks for too |
| `Up.HighestDominates` | pkg/cli/up.go:367-396 | it ranks at least as high as what any dependent asks |
| `Up.OwnConditionWaitedIff` | pkg/cli/up.go:367-396 | it is the dependent's own condition iff that is recognised and nobody asks for more |
| `Up.AnotherConditionWaited` | pkg/cli/up.go:367-396 | two dependents asking "completed" and "healthy": the former is not waited for |
| `Up.CriUp` | pkg/cli/up.go:149-178 | in every run the services are brought up level by level, each followed by the wait for its highest condition, up to the first failure; so each only after every dependency was up and waited for; nothing is called when setting up or ordering fails |
| `Up.InitCompletesFirst` | pkg/cli/up.go:149-178 | on an expanded composition, no service is brought up before its last init was and a wait for it to complete, or to be healthy, has succeeded |
| `Filter.ServiceMatchesProfile` | pkg/composition/filter.go:103-117 | no profiles, or a common one |
| `Filter.MatchesMeans` | pkg/composition/filter.go:78-117 | the extension's profiles count only where a service has no others; without either it is always selected |
| `Filter.IncludeDepsTransitive` | pkg/composition/filter.go:52-75 | the queue loop reaches exactly what is reachable over existing dependencies, and the result is closed |
| `Filter.PruneDanglingDeps` | pkg/composition/filter.go:121-138 | each service keeps exactly the dependencies that name a service present |
| `Filter.FilterByProfiles` | pkg/composition/filter.go:24-48 | the result is the kept services, pruned |
| `Filter.FilteredKeepsEntries` | pkg/composition/filter.go:24-48 | a kept service keeps every field and the condition of every dependency on an existing service, and loses no other dependency |
| `Filter.KeptIsLeastClosed` | pkg/composition/filter.go:24-75 | the kept services are the least set with the matched ones, closed under existing dependencies |
| `Filter.PruneAgrees` | pkg/composition/filter.go:121-138 | pruning removes only references to services absent from the original composition |
| `Filter.FilteredIsClosed` | pkg/composition/filter.go:24-138 | every reference in the result resolves; no cycle is introduced |
| `Filter.FilterMonotone` | pkg/composition/filter.go:24-48 | more profiles never remove a service |
| `Filter.FilterIdempotent` | pkg/composition/filter.go:24-48 | filtering again changes nothing |
| `InitContainers.SynthesizeForService` | pkg/composition/initcontainers.go:59-109 | the loop that threads the previous name yields the chain of init services, and the main service depends on the last alone; what they wait for is what the three rows below say |
| `InitContainers.SynthesizeInitContainers` | pkg/composition/initcontainers.go:18-55 | services are expanded in name order, later writes winning |
| `InitContainers.MainWaitsForLast` | pkg/composition/initcontainers.go:30-46 | a service with inits depends on its last one with service_completed_successfully; every other entry and field is as before |
| `InitContainers.InitWaitsForPrevious` | pkg/composition/initcontainers.go:59-109 | an init has its own image and mounts and restart "no"; the first takes over the service's dependencies, each later one has just the one before it, with service_completed_successfully |
| `InitContainers.WithoutInitsUnchanged` | pkg/composition/initcontainers.go:30-34 | a service without inits is unchanged |
| `InitContainers.AcyclicIff` | pkg/composition/initcontainers.go:18-109 | for every composition, the result is acyclic iff no new names go round in a circle and, passing through them, no service leads back to itself |
| `InitContainers.DistinctAcyclicIff` | pkg/composition/initcontainers.go:18-109 | with distinct init names the second half decides, however many services generate a name |
| `InitContainers.AcyclicPreserved` | pkg/composition/initcontainers.go:18-109 | the case of new names, each generated for one service: acyclic iff the original was and no service repeats an init name |
| `InitContainers.AcyclicIffDetours` | pkg/composition/initcontainers.go:18-109 | the case of distinct init names of one owner each, some of them services: acyclic iff dependencies and the detours through those services together are |
| `InitContainers.CyclesStay` | pkg/composition/initcontainers.go:18-55 | expansion never removes a cycle, whatever the names |
| `InitContainers.RepeatedInitLoops` | pkg/composition/initcontainers.go:59-109 | two inits of one service called alike give a cycle, as long as the names after the first are not written by a service or for a greater one |
| `InitContainers.SharedNameLoops` | pkg/composition/initcontainers.go:27-46 | two services that generate one name: the greater one's entry replaces the other's last init, and depending on it closes a cycle |
| `InitContainers.TwoServicesOneName` | pkg/composition/initcontainers.go:27-46 | two services with new and distinct init names that can be started, until they are expanded |
| `InitContainers.ReplacedInitLoops` | pkg/composition/initcontainers.go:30-46 | an existing service under the last init's name that depends on the main service gives a cycle |
| `InitContainers.TwoInitsAlike` | pkg/composition/initcontainers.go:59-109 | one service without dependencies that can be started, until it is expanded |
| `InitContainers.ServiceCalledLikeInit` | pkg/composition/initcontainers.go:30-46 | two services that can be started, until they are expanded |
| `InitContainers.SynthesizedMain` | pkg/composition/initcontainers.go:21-46 | an existing service always keeps its name, because generated names sort after their service's |
| `InitContainers.ExpandedPairs` | pkg/composition/initcontainers.go:18-109 | the dependency pairs of the result for every composition: the greatest service that generates a new name, and the last of its inits of that name, decide it |
| `InitContainers.TransformedStartable` | pkg/cli/up.go:443-452 | filtered then expanded, any composition can be started iff it expands without a cycle |
| `InitContainers.TargetsPreserved` | pkg/composition/initcontainers.go:18-109 | all targets exist iff they did before, unless something depends on a name about to be generated |
| `InitContainers.StartableIff` | pkg/depgraph/order.go:30-62 | the result can be ordered iff all targets exist and it expands without a cycle, unless something depends on a name about to be generated |
| `InitContainers.StartablePreserved` | pkg/depgraph/order.go:30-62 | the case of new names, each generated for one service: iff the original can be ordered and no service repeats an init name |
| `InitContainers.InitsStartInOrder` | pkg/composition/initcontainers.go:59-109 | original dependencies start before the first init, inits in strictly increasing levels as declared, the service after the last |
| `InitContainers.ExpansionIdempotent` | pkg/composition/initcontainers.go:18-55 | expanding twice is expanding once, whatever the names |
| `Convert.BuildServiceEdges` | pkg/orchestrate/convert/convert.go:222-264 | its edges spelled out: to the project, the image, the network unless the service is on the host's, each declared volume it mounts and each dependency, under literal ids and keys; only the last carry conditions, under the run's names |
| `Convert.MountedVolumeIff` | pkg/orchestrate/convert/convert.go:275-290 | a volume is mounted iff it is declared, no path, and some mount is it or begins with it and a colon |
| `Convert.Convert` | pkg/orchestrate/convert/convert.go:40-76 | the manifests as a list: project, network iff a service is not on the host's, images, volumes and services by name; the edges are exactly those of the services and every edge leaves a manifest; an empty project is refused |
| `Convert.ManifestsOnce` | pkg/orchestrate/convert/convert.go:40-76 | no manifest is listed twice, unless two declared images resolve to one id |
| `Convert.IndexEdges` | pkg/orchestrate/convert/bridge.go:17-61 | the index is the edge relation |
| `Convert.CollectConditions` | pkg/orchestrate/convert/bridge.go:17-61 | the loop computes `ConditionsOf` |
| `Convert.LastConditionCounts` | pkg/orchestrate/convert/bridge.go:17-61 | of several edges between two resources that carry a condition the last counts |
| `Convert.ConditionsReachApply` | pkg/orchestrate/convert/bridge.go:17-61 | a recognised depends_on condition is in the map the apply run waits by, under both ids, and the wait is at least as strict |
| `Convert.ConditionWaited` | pkg/orchestrate/convert/convert.go:293-304 | what is waited for, in literals: "healthy" iff some service asks service_healthy of it, else "completed" iff one asks service_completed_successfully, else "started" iff one asks service_started, else nothing |
| `Convert.Bridge` | pkg/orchestrate/convert/bridge.go:17-61 | one create per manifest in order, with its name, its kind's key and its body; links exactly the edges as id pairs; or it fails at the first manifest that cannot be marshalled or instantiated |
| `Convert.ServiceTarget` | pkg/orchestrate/convert/convert.go:222-264 | between services the resource graph is depends_on, when service ids differ from all others |
| `Convert.ResourcesAcyclicIff` | pkg/orchestrate/convert/convert.go:222-264 | the resource graph is acyclic iff no service leads back to itself through the resources that carry service ids |
| `Convert.ApartAcyclicIff` | pkg/orchestrate/convert/convert.go:222-264 | when service ids differ from all others, it is acyclic iff depends_on is |
| `Convert.OwnNamedVolumeLoops` | pkg/orchestrate/convert/convert.go:240-247 | a service mounting a declared volume of its own name makes the resource graph cyclic |
| `Convert.DatabaseWithOwnVolume` | pkg/orchestrate/convert/convert.go:240-247 | service db mounting db:/data, without any dependency |
| `Convert.NoCycleOrphans` | pkg/orchestrate/apply.go:230-244 | sorting by stored and desired links leaves no orphans iff they are acyclic on the batch; stored links that are the composition's own change nothing |
| `Convert.NetworkNeverSettles` | pkg/orchestrate/convert/convert.go:79-93 | with a networked service one create is dropped by sorting, and replanning always finds something to create |
| `Orchestration.UpAllowedIff` | pkg/cli/up.go:187-239 | with all targets present, bringing a composition up is refused iff something that changes or goes has a dependent on record that stays as it is |
| `Orchestration.OrchestrateUp` | pkg/cli/up.go:187-239 | convert, bridge, plan and apply: the creates are those of the manifests; nothing changes unless a run takes place, which it does iff some action is not a no-op; when it is refused; after a success every desired text, or one with the same normal form, is on record, as succeeded if it was made again; deletes and creates are safe while stored and desired links are acyclic; each service is waited for as ConditionWaited says; a networked composition always finds something to do |
| `Orchestration.HealthyFirst` | pkg/cli/up.go:187-239 | when a service's create is attempted, each service it depends on that is created in the run was created before, and found "healthy" in between if anyone asked for its health, else "completed" if anyone asked for that |
| `Ports.ParseFormatted` | pkg/cri/convert.go:105-140 | a printed number is read back iff it fits in 32 bits |
| `Ports.FormatIntMeans` | pkg/orchestrate/convert/convert.go:307-319 | decimal notation, digit by digit, with a minus sign in front |
| `Ports.FormatMeans` | pkg/orchestrate/convert/convert.go:307-319 | the address is printed only with a host port, the protocol unless it is empty or tcp |
| `Ports.Int32Means` | pkg/cri/convert.go:105-140 | what is not a sign and digits is no number |
| `Ports.FormatsRead` | pkg/cri/convert.go:61-140 | the documented formats: container port; host and container port; the two behind an address; over TCP, or the protocol named after a slash |
| `Ports.OthersUnread` | pkg/cri/convert.go:92-140 | more than three fields or another protocol is an error |
| `Ports.LowerMeans` | pkg/cri/convert.go:85-90 | a protocol may be named in capitals |
| `Ports.DirectMeans` | pkg/cri/convert.go:154-187 | a named port's own mapping: ports clamped to 0 through 65535, its address, TCP unless it names UDP or SCTP |
| `Ports.RoundTripIff` | pkg/orchestrate/convert/convert.go:307-319 | for every named port, printing and parsing gives the mapping built directly iff the port is printable or its protocol hides that very mapping |
| `Ports.RoundTrip` | pkg/cri/convert.go:68-140 | every printable named port survives printing and parsing |
| `Ports.SlashedProtocolCoincidence` | pkg/cri/convert.go:85-90 | ports of the second kind exist |
| `Ports.ParsePorts` | pkg/cri/convert.go:143-175 | nothing if one port string fails, otherwise the parsed strings followed by the direct mappings |
| `Ports.BuildPorts` | pkg/orchestrate/convert/convert.go:194-205 | the port strings followed by the printed named ports |
| `Ports.NamedPortsEitherWay` | pkg/cri/convert.go:143-175 | printed into the strings or passed beside them, printable named ports give the same mappings |
| `Colons.SplitJoined` | pkg/cri/convert.go:78-80 | splitting at colons takes joining apart |
| `Names.SanitizeName` | pkg/k8s/names.go:24-47 | the loop with a flag computes `Sanitized`, and the result is a label |
| `Names.SanitizedIsLabel` | pkg/k8s/names.go:24-60 | any string becomes a label of at most 63 characters, with no two dashes in a row |
| `Names.SanitizedMeans` | pkg/k8s/names.go:18-47 | the name is the runs of letters and digits joined by single dashes; beyond 63 characters its first 54, or 53 before a dash, a dash and the digest of the string; with no such run "v-" and the digest |
| `Names.SanitizedFixesLabels` | pkg/k8s/names.go:24-47 | the strings left alone are exactly the labels without double dashes |
| `Names.WithSuffixIsLabel` | pkg/k8s/names.go:51-60 | a suffixed name is a label, wherever the cut lands |
| `Names.WithSuffixMeans` | pkg/k8s/names.go:51-60 | the name, cut in the same way if there is no room, a dash and the suffix |
| `VolumePlans.ParsePrinted` | pkg/k8s/volumes.go:406-416 | a printed volume string is read back; all after the second colon is options |
| `VolumePlans.ServiceVolumeStrings` | pkg/k8s/volumes.go:97-105 | own volumes, then those of the init containers in order |
| `VolumePlans.VolumeStringsJoined` | pkg/k8s/volumes.go:97-105 | own strings come first, then those of each init container in its place |
| `VolumePlans.BySourceListed` | pkg/k8s/volumes.go:70-79 | exactly the declared sources are indexed, each by an entry that names it |
| `VolumePlans.BySourceIsLast` | pkg/k8s/volumes.go:70-79 | the last one declared for its source |
| `VolumePlans.VolumePlan.ClaimName` | pkg/k8s/volumes.go:245-253 | the name handed out, the owners afterwards, and whether another source owned it |
| `VolumePlans.VolumePlan.AddPodVolume` | pkg/k8s/volumes.go:256-263 | appended unless one of that name is declared |
| `VolumePlans.VolumePlan.HasConfigMap` | pkg/k8s/volumes.go:266-273 | whether one of that name is planned |
| `VolumePlans.VolumePlan.RecordRefusal` | pkg/k8s/volumes.go:211-223 | the refusal is appended; its flag is recorded once, or the plan must be fixed |
| `VolumePlans.VolumePlan.AddNamedVolume` | pkg/k8s/volumes.go:135-145 | mounted on a claim if declared, an empty directory if not; where and how is what PrintedMount says |
| `VolumePlans.VolumePlan.AddSecretMount` | pkg/k8s/volumes.go:150-165 | mounted read-only from the Secret, without reading the file; the secret counts as used |
| `VolumePlans.VolumePlan.AddConfigMap` | pkg/k8s/volumes.go:169-207 | mounted from a ConfigMap, or refused if it carries a key and that is not allowed; the name is claimed either way |
| `VolumePlans.VolumePlan.AddUnrepresentable` | pkg/k8s/volumes.go:227-239 | refused, or an empty directory with a warning; where and how is what PrintedMount says |
| `VolumePlans.VolumePlan.Add` | pkg/k8s/volumes.go:108-131 | the branches together do what the decision on the source alone says |
| `VolumePlans.VolumePlan.ReportUnmatchedSecretMounts` | pkg/k8s/volumes.go:84-93 | one refusal without a flag per unused secret mount, in any order |
| `VolumePlans.VolumePlan.MountsFor` | pkg/k8s/volumes.go:277-295 | the mounts of the mounted strings, each at its first occurrence |
| `VolumePlans.FirstMountedInOrder` | pkg/k8s/volumes.go:277-295 | in the order in which the strings are first mentioned |
| `VolumePlans.PlanVolumes` | pkg/k8s/volumes.go:55-66 | the plan is one of the states described by `Planned` |
| `VolumeLaws.EveryVolumeSettled` | pkg/k8s/volumes.go:55-239 | every string with a destination ends mounted or refused, never both; overrides are exactly the flags of the refusals; no fallback without a warning; a secret mount covering no volume is refused, and only that must be fixed |
| `VolumeLaws.PrintedSettled` | pkg/k8s/volumes.go:108-239 | read off the string source:dest: mounted iff it has a destination and its source is a secret, no path, a file without a private key or with leave, or an unreadable path with leave; else refused with the flag that gives leave; the last two with leave are warned of |
| `VolumeLaws.PrintedMount` | pkg/k8s/volumes.go:133-239 | its path is dest; a secret or a file read is read-only under the declared key or the one made of the file name; anything else is mounted whole, read-only iff the options say so |
| `VolumeLaws.PrintedBacking` | pkg/k8s/volumes.go:133-239 | unless names are taken, behind it is the Secret of its entry, the claim on a declared volume, the ConfigMap with that file, or an empty directory |
| `VolumeLaws.PrintedName` | pkg/k8s/volumes.go:133-253 | it is named after the Secret, the service and the file, or the source, with the source's digest if that name is held; the first source gets its name as it is |
| `VolumeLaws.BareMount` | pkg/k8s/volumes.go:406-416 | a string without a colon is mounted at itself |
| `VolumeLaws.BindMountMeans` | pkg/k8s/volumes.go:297-303 | a path begins with a slash, a tilde, ./ or .. |
| `VolumeLaws.AddingAppends` | pkg/k8s/volumes.go:108-223 | refusals, warnings, flags, pod volumes and ConfigMaps are appended in the order of the strings |
| `VolumeLaws.UnmatchedComeLast` | pkg/k8s/volumes.go:55-93 | refused strings come before unused secret mounts |
| `VolumeLaws.ReportedOnce` | pkg/k8s/volumes.go:84-239 | a refused string is refused once per mention, an unused secret mount once, and no string is warned of twice |
| `VolumeLaws.ReplanClears` | pkg/k8s/volumes.go:209-239 | replanning with the reported flags clears every refusal iff nothing must be fixed |
| `VolumeLaws.RefusalsShrink` | pkg/k8s/volumes.go:209-239 | given some flags, exactly the refusals that name another flag remain |
| `VolumeLaws.OverridesSuffice` | pkg/k8s/volumes.go:209-239 | with the reported flags no mount is refused |
| `VolumeLaws.NamesAreLabels` | pkg/k8s/volumes.go:241-253 | every name of a mount, pod volume or ConfigMap is a label |
| `VolumeLaws.NamesOneToOneIff` | pkg/k8s/volumes.go:241-253 | two claims share a name exactly when they share a source, if and only if no source comes after others that hold both names it could get |
| `VolumeLaws.SuffixesFreeSuffices` | pkg/k8s/volumes.go:241-253 | it is enough that no suffixed name is the base or suffixed name of another source |
| `VolumeLaws.PrecededShares` | pkg/k8s/volumes.go:241-253 | a source after another of the same base name and after one given its suffixed name shares that name |
| `VolumeLaws.MountsNameOneVolume` | pkg/k8s/volumes.go:26-31 | a mount names exactly one declared pod volume, and no pod volume is unused |
| `VolumeLaws.MountsOwnSource` | pkg/k8s/volumes.go:133-189 | under the same condition on the sources, the pod volume behind a mount is the one for its own source |
| `VolumeLaws.MountsOwnContent` | pkg/k8s/volumes.go:167-189 | under that condition the ConfigMap behind a mounted file holds that file, within one service's plan |
| `VolumeLaws.ConfigMapNamedIff` | pkg/k8s/volumes.go:167-189 | and the names of a plan's ConfigMaps are those given to the sources whose files are rendered |
| `VolumeLaws.SuffixAlreadyTaken` | pkg/k8s/volumes.go:245-253 | three volumes, for any digest, of which the third is mounted on the second's claim |
| `VolumeLaws.ContainerMountsDeclared` | pkg/k8s/volumes.go:277-295 | every mount of a container is on a declared pod volume, and no mountable string is left out |
| `Rendering.MergeOverrides` | pkg/k8s/convert.go:104-111 | the union, in order of first report, each flag once |
| `Rendering.MergedInTurn` | pkg/k8s/convert.go:104-111 | flags are merged one by one, in the order reported |
| `Rendering.ReportsInTurn` | pkg/k8s/convert.go:77-100 | refusals and warnings of the services follow one another in the order of the services |
| `Rendering.OneReports` | pkg/k8s/convert.go:77-100 | a service reports exactly what its plan holds |
| `Rendering.PlanCompositionVolumes` | pkg/k8s/convert.go:77-100 | a plan for every service with all warnings in name order, or an error with all refusals in that order, each flag once and whether one must be fixed |
| `Rendering.RerenderSucceedsIff` | pkg/k8s/convert.go:77-111 | rendering the whole composition again with the reported flags succeeds iff nothing must be fixed |
| `Rendering.ConfigMapsApartIff` | pkg/k8s/convert.go:127-135 | ConfigMap names differ across services iff no two services' files are given one name |
| `Rendering.SameConfigMapName` | pkg/k8s/convert.go:127-135 | service p with file q-r and service p-q with file r generate ConfigMaps of one name |
| `Rendering.AllowingMoreKeepsPlans` | pkg/k8s/convert.go:77-100 | a service that renders keeps rendering, with the same strings mounted, when more is allowed |

## Left out

- gRPC, CRI and containerd calls, exec, vsock, microVM control, proxies and CNI: a resource's `Apply` and `Delete` are arbitrary outcomes.
- bbolt and JSON: buckets are maps, and no storage operation fails; in the code a failing `loadLinks` silently drops the ordering. A body is a text with an abstract normal form.
- Empty ids, which bbolt rejects as keys.
- PlanLaws.ReplanIsStable: an empty body is modelled as recorded empty; the store would hold it as `null`, so it would look changed. Marshalled specs are never empty.
- `Pool.Stop`, `Pool.Track` and closing of channels: runs are modelled up to `Stop`.
- Real time: tickers, timeouts and back-off sleeps; a wait just succeeds or fails.
- Deployment history and `Engine.Rollback` to an earlier deployment: the stored deployment is the diff, so what it restores is not decided by this code.
- More than one provider behind `GetReferencesTo`: one store answers.
- InitContainers.SynthesizeInitContainers: does not model that the last init is also written into the dependency map of the input's own main service, because maps are values here; nor the fields of a service beyond image, restart, network mode, volumes, profiles, inits and dependencies.
- Convert.Bridge: a manifest's body and whether the registry instantiates it are arbitrary functions; error texts are dropped.
- Traversal.BfsTraverse: keeps a node's key where the code extracts the kind from it, and does not model that a malformed key panics there.
- Up.CriUp: setting up is a parameter that says whether it succeeded; image preparation and the foreground loop are not modelled.
- String order is Dafny's on characters, where Go compares bytes; the two agree on valid UTF-8 text.
- VolumePlans.PlanVolumes: reading a bind source, the base name, the ConfigMap key, the option field and lower-casing are fixed functions; the digest is any function to eight letters and digits; namespaces, labels and message texts are dropped.
- Ports.ParsePorts: lower-casing covers ASCII letters; error texts are dropped.
- The manifests rendered after the volumes are planned, compose import, environment files, doctor, tables and log tailing: they would only add easy members.
