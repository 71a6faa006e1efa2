/** Bringing a composition up through the plan and apply engine, from end to end. */
module Orchestration {
  import opened Options
  import opened Graphs
  import opened Requests
  import opened Store
  import opened Deployments
  import opened Conditions
  import opened Events
  import opened Safety
  import opened Engine
  import opened Planning
  import opened PlanLaws
  import opened Compositions
  import opened Convert

  datatype UpResult =
    | NotConverted
    | SetUpFailed
    | NotBridged(at: nat)
    | NoChanges
    | RunEnded(outcome: Outcome)

  /** All rollouts on record, in whatever order. */
  method State(db: DB) returns (rs: seq<Rollout>)
    requires forall id :: id in db.rollouts ==> db.rollouts[id].id == id
    ensures ById(rs) == db.rollouts
  {
    rs := [];
    var rest := db.rollouts.Keys;
    while rest != {}
      invariant rest <= db.rollouts.Keys && ById(rs) == db.rollouts - rest
      decreases rest
    {
      var id :| id in rest;
      ByIdSnoc(rs, db.rollouts[id]);
      OneMoreListed(db.rollouts, rest, id);
      rest := rest - {id};
      rs := rs + [db.rollouts[id]];
    }
  }

  lemma {:induction false} OneMoreListed(m: map<Id, Rollout>, rest: set<Id>, id: Id)
    requires id in rest && rest <= m.Keys
    ensures (m - rest)[id := m[id]] == m - (rest - {id})
  { }

  lemma {:induction false} ByIdSnoc(rs: seq<Rollout>, r: Rollout)
    ensures ById(rs + [r]) == ById(rs)[r.id := r]
  {
    assert (rs + [r])[..|rs|] == rs;
  }

  lemma {:induction false} CountZero(actions: seq<Action>)
    ensures AllNoOp(actions) <==>
      CountKind(actions, ToCreate) + CountKind(actions, ToUpdate) + CountKind(actions, ToDestroy) == 0
  {
    if actions != [] {
      var n := |actions| - 1;
      CountZero(actions[..n]);
      assert actions == actions[..n] + [actions[n]];
    }
  }

  lemma {:induction false} CreatesForIds(ms: seq<Manifest>, spec: Manifest -> Body)
    ensures IdSet(CreatesFor(ms, spec)) == ManifestNames(ms) && AllCreates(CreatesFor(ms, spec))
    ensures Creates(CreatesFor(ms, spec)) == CreatesFor(ms, spec)
  {
    if ms != [] { CreatesForIds(ms[..|ms| - 1], spec); }
  }

  /** Every dependency leaves a resource of the composition, and with all targets present leads to one. */
  lemma {:induction false} PairsWithin(comp: Composition, project: string, resolve: Resolver)
    ensures forall a, b :: (a, b) in ResourcePairs(comp, project, resolve) ==> a in ResourceIds(comp, project, resolve)
    ensures TargetsExist(comp.services) ==>
      forall a, b :: (a, b) in ResourcePairs(comp, project, resolve) ==> b in ResourceIds(comp, project, resolve)
  {
    forall a, b | (a, b) in ResourcePairs(comp, project, resolve)
      ensures a in ResourceIds(comp, project, resolve)
      ensures TargetsExist(comp.services) ==> b in ResourceIds(comp, project, resolve)
    {
      ResourcePair(comp, project, resolve, a, b);
      var s :| s in comp.services && a == ScopedId(project, s) && b in Targets(comp, project, resolve, comp.services[s]);
      if TargetsExist(comp.services) {
        TargetWithin(comp, project, resolve, s, b);
      }
    }
  }

  lemma {:induction false} TargetWithin(comp: Composition, project: string, resolve: Resolver, s: Name, b: Id)
    requires TargetsExist(comp.services) && s in comp.services && b in Targets(comp, project, resolve, comp.services[s])
    ensures b in ResourceIds(comp, project, resolve)
  {
    var svc := comp.services[s];
    MountedDeclared(comp, svc.volumes);
    assert svc.image != "" ==> resolve(svc.image) in ImageIds(comp.services, resolve);
    assert forall v :: v in MountedVolumes(comp, svc.volumes) ==> ScopedId(project, v) in VolumeIds(comp, project);
    assert forall d :: d in svc.dependsOn ==> ScopedId(project, d) in ServiceIds(comp.services, project);
  }

  /**
   * With all targets present, bringing a composition up is refused exactly when something that would change or
   * go has a dependent on record that would stay as it is.
   */
  lemma {:induction false} UpAllowedIff(comp: Composition, project: string, resolve: Resolver, norm: Normaliser,
                                        current: Rollouts, creates: seq<Request>, links: Relation)
    requires TargetsExist(comp.services) && AllCreates(creates) && IdSet(creates) == ResourceIds(comp, project, resolve)
    ensures CheckPasses(PlannedRequests(norm, current, creates), ResourcePairs(comp, project, resolve), links, current) <==>
      DependentsLeave(norm, current, creates, links)
  {
    PairsWithin(comp, project, resolve);
    PlanCheckPassesIff(norm, current, creates, ResourcePairs(comp, project, resolve), links);
  }

  /** What the resources of a composition come to, as creates. */
  ghost predicate Desires(comp: Composition, project: string, resolve: Resolver, creates: seq<Request>) {
    AllCreates(creates) && IdSet(creates) == ResourceIds(comp, project, resolve)
  }

  /**
   * Under each desired id the text asked for last is on record, or the same text normalised that was left alone;
   * what was made again is marked as succeeded.
   */
  ghost predicate Recorded(norm: Normaliser, before: Rollouts, creates: seq<Request>, after: Rollouts) {
    && AllCreates(creates)
    && forall x :: x in IdSet(creates) ==>
         && x in after && x in BodiesOf(creates)
         && (after[x].body == BodiesOf(creates)[x] || SameText(norm, after[x].body, BodiesOf(creates)[x]))
         && (after[x].succeeded || (x in before && after[x] == before[x]))
  }

  lemma {:induction false} SuccessRecords(norm: Normaliser, w: World, creates: seq<Request>, links: Relation,
                                          conditions: ConditionMap, run: RunRecord)
    requires AllCreates(creates)
    requires ApplyRun(PlannedRequests(norm, w.rollouts, creates), links, conditions, Succeeded, run)
    ensures Recorded(norm, w.rollouts, creates, Run(Run(Run(w.(links := links), run.dels), run.fwd), run.back).rollouts)
  {
    var after := Run(Run(Run(w.(links := links), run.dels), run.fwd), run.back).rollouts;
    SuccessRecordsAll(w.(links := links), PlannedRequests(norm, w.rollouts, creates), links, conditions, run);
    AppliedIsPatched(norm, w.rollouts, creates, after);
    BodiesKeys(creates);
    forall x | x in IdSet(creates)
      ensures after[x].body == BodiesOf(creates)[x] || SameText(norm, after[x].body, BodiesOf(creates)[x])
      ensures after[x].succeeded || (x in w.rollouts && after[x] == w.rollouts[x])
    {
      PatchedTexts(norm, w.rollouts, creates, x);
      if x in IdSet(Creates(PlannedRequests(norm, w.rollouts, creates))) {
        SuccessIsRecorded(w.rollouts, PlannedRequests(norm, w.rollouts, creates), after, x);
      }
    }
  }

  lemma {:induction false} AcyclicWithin(links: Relation, ids: set<Id>)
    requires Acyclic(links)
    ensures Acyclic(Restrict(links, ids))
  {
    AcyclicMonotone(Restrict(links, ids), links);
  }

  /** A deployment that asks for a composition's resources. */
  ghost predicate Deploys(comp: Composition, project: string, resolve: Resolver, requests: seq<Request>, links: Relation) {
    && Desires(comp, project, resolve, requests) && Creates(requests) == requests
    && links == ResourcePairs(comp, project, resolve)
    && (AnyNetworked(comp.services) ==> !DistinctIds(requests))
  }

  lemma {:induction false} BridgeDeploys(comp: Composition, project: string, resolve: Resolver, ms: seq<Manifest>,
                                         edges: Relation, links: Relation, spec: Manifest -> Body)
    requires edges == ResourcePairs(comp, project, resolve) && ManifestNames(ms) == ResourceIds(comp, project, resolve)
    requires StartsWithProject(comp, project, ms)
    requires forall a, b :: (a, b) in links <==> (a, b) in edges && a in ManifestNames(ms)
    ensures Deploys(comp, project, resolve, CreatesFor(ms, spec), links)
  {
    CreatesForIds(ms, spec);
    PairsWithin(comp, project, resolve);
    SameLinks(edges, links, ManifestNames(ms));
    if AnyNetworked(comp.services) {
      FirstTwoAlike(ms, spec);
    }
  }

  lemma {:induction false} SameLinks(edges: Relation, links: Relation, ids: set<Id>)
    requires forall a, b :: (a, b) in links <==> (a, b) in edges && a in ids
    requires forall a, b :: (a, b) in edges ==> a in ids
    ensures links == edges
  {
    forall e ensures e in links <==> e in edges { assert e == (e.0, e.1); }
  }

  lemma {:induction false} FirstTwoAlike(ms: seq<Manifest>, spec: Manifest -> Body)
    requires |ms| >= 2 && ms[0].name == ms[1].name
    ensures !DistinctIds(CreatesFor(ms, spec))
  {
    assert Ids(CreatesFor(ms, spec))[0] == Ids(CreatesFor(ms, spec))[1];
  }

  /** What a run waits for, service by service. */
  ghost predicate ConditionsKept(services: Services, project: string, conditions: ConditionMap) {
    forall d :: WaitsFor(services, project, conditions, d)
  }

  /** Every manifest of the composition can be marshalled and instantiated. */
  ghost predicate AllUsable(comp: Composition, project: string, resolve: Resolver, spec: Manifest -> Option<Body>,
                            accepts: (Key, Body) -> bool)
  {
    forall m :: IsManifest(comp, project, resolve, m) ==>
      spec(m).Some? && accepts("cri.orchestrator.io/v1/" + m.kind, spec(m).value)
  }

  /** The creates are those of the composition's manifests, each under its name, its kind's key and its body. */
  ghost predicate AsksForAll(comp: Composition, project: string, resolve: Resolver, spec: Manifest -> Option<Body>,
                             creates: seq<Request>)
  {
    forall r :: r in creates <==> exists m :: IsManifest(comp, project, resolve, m) && IsCreateOf(m, spec, r)
  }

  lemma {:induction false} UsableMeans(m: Manifest, spec: Manifest -> Option<Body>, accepts: (Key, Body) -> bool)
    ensures Usable(m, spec, accepts) <==> spec(m).Some? && accepts("cri.orchestrator.io/v1/" + m.kind, spec(m).value)
  {
    assert KeyOf(m.kind) == "cri.orchestrator.io/v1/" + m.kind;
  }

  lemma {:induction false} Bridges(comp: Composition, project: string, resolve: Resolver, ms: seq<Manifest>,
                                   spec: Manifest -> Option<Body>, accepts: (Key, Body) -> bool)
    requires forall m :: m in ms <==> IsManifest(comp, project, resolve, m)
    requires forall i :: 0 <= i < |ms| ==> Usable(ms[i], spec, accepts)
    requires |CreatesFor(ms, BodyOf(spec))| == |ms|
    requires forall i :: 0 <= i < |ms| ==> IsCreateOf(ms[i], spec, CreatesFor(ms, BodyOf(spec))[i])
    ensures AllUsable(comp, project, resolve, spec, accepts)
    ensures AsksForAll(comp, project, resolve, spec, CreatesFor(ms, BodyOf(spec)))
  {
    var rs := CreatesFor(ms, BodyOf(spec));
    forall m | IsManifest(comp, project, resolve, m)
      ensures spec(m).Some? && accepts("cri.orchestrator.io/v1/" + m.kind, spec(m).value)
    {
      var i :| 0 <= i < |ms| && ms[i] == m;
      UsableMeans(m, spec, accepts);
    }
    forall r ensures r in rs <==> exists m :: IsManifest(comp, project, resolve, m) && IsCreateOf(m, spec, r) {
      if r in rs {
        var i :| 0 <= i < |rs| && rs[i] == r;
        assert ms[i] in ms && IsCreateOf(ms[i], spec, r);
      }
      if m :| IsManifest(comp, project, resolve, m) && IsCreateOf(m, spec, r) {
        var i :| 0 <= i < |ms| && ms[i] == m;
        assert rs[i] == r;
      }
    }
  }

  /** Converts and bridges. */
  method DesireUp(comp: Composition, project: string, setUp: bool, resolve: Resolver, spec: Manifest -> Option<Body>,
                  accepts: (Key, Body) -> bool)
    returns (failed: Option<UpResult>, desired: Deployment, conditions: ConditionMap)
    ensures fresh(desired)
    ensures failed.Some? ==> failed.value.NotConverted? || failed.value.SetUpFailed? || failed.value.NotBridged?
    ensures failed == Some(NotConverted) <==> project == ""
    ensures failed == Some(SetUpFailed) <==> project != "" && !setUp
    ensures failed.Some? && failed.value.NotBridged? <==> project != "" && setUp && !AllUsable(comp, project, resolve, spec, accepts)
    ensures failed.None? ==> AsksForAll(comp, project, resolve, spec, desired.requests)
    ensures failed.None? ==> Deploys(comp, project, resolve, desired.requests, LinkPairs(desired.dependencies))
    ensures failed.None? ==> ConditionsKept(comp.services, project, conditions)
  {
    desired := new Deployment();
    conditions := map[];
    var converted := Convert.Convert(comp, project, resolve);
    if converted.ProjectRequired? {
      return Some(NotConverted), desired, conditions;
    }
    if !setUp {
      return Some(SetUpFailed), desired, conditions;
    }
    var bridged := Bridge(converted.manifests, converted.edges, spec, accepts);
    if bridged.BridgeFailed? {
      UsableMeans(converted.manifests[bridged.at], spec, accepts);
      assert converted.manifests[bridged.at] in converted.manifests;
      return Some(NotBridged(bridged.at)), desired, conditions;
    }
    Bridges(comp, project, resolve, converted.manifests, spec, accepts);
    BridgeDeploys(comp, project, resolve, converted.manifests, EdgePairs(converted.edges),
                  LinkPairs(bridged.deployment.dependencies), BodyOf(spec));
    forall d ensures WaitsFor(comp.services, project, bridged.conditions, d) {
      ConditionWaited(comp.services, project, converted.edges, d);
    }
    return None, bridged.deployment, bridged.conditions;
  }

  /** With a repeated id there is always something to do. */
  lemma {:induction false} RepeatedActs(norm: Normaliser, current: Rollouts, creates: seq<Request>)
    requires AllCreates(creates) && !DistinctIds(creates)
    ensures !AllNoOp(PlannedActions(norm, current, creates))
  {
    RepeatedIdLooksNew(norm, current, creates);
    NetworkedActs(norm, current, creates);
  }

  lemma {:induction false} NetworkedActs(norm: Normaliser, current: Rollouts, creates: seq<Request>)
    requires AllCreates(creates) && exists i :: 0 <= i < |creates| && ActionsFor(norm, current, creates)[i].kind == ToCreate
    ensures !AllNoOp(PlannedActions(norm, current, creates))
  {
    var i :| 0 <= i < |creates| && ActionsFor(norm, current, creates)[i].kind == ToCreate;
    assert PlannedActions(norm, current, creates)[i] == ActionsFor(norm, current, creates)[i];
  }

  /** What a run of the engine on a plan amounts to. */
  ghost predicate UpRun(comp: Composition, project: string, resolve: Resolver, norm: Normaliser, before: World, after: World,
                        creates: seq<Request>, conditions: ConditionMap, outcome: Outcome, run: RunRecord)
  {
    var pairs := ResourcePairs(comp, project, resolve);
    && Desires(comp, project, resolve, creates)
    && (Refused(outcome) <==>
          !(NeedsMet(norm, before.rollouts, creates, pairs) && DependentsLeave(norm, before.rollouts, creates, before.links)))
    && (TargetsExist(comp.services) ==> (Refused(outcome) <==> !DependentsLeave(norm, before.rollouts, creates, before.links)))
    && (Refused(outcome) ==> after == before)
    && (outcome.Succeeded? ==> Recorded(norm, before.rollouts, creates, after.rollouts))
    && (Acyclic(before.links + pairs) ==>
          && DeleteSafe(run.dels, before.links, before.rollouts)
          && CreateSafe(run.fwd, before.links + pairs, IdSet(Creates(PlannedRequests(norm, before.rollouts, creates))), conditions))
  }

  /**
   * In a run on acyclic links, when a service's create is attempted, each service it depends on that is created in
   * the same run has been created before, and if anyone asked for its health, it was found healthy in between.
   */
  lemma {:induction false} HealthyFirst(comp: Composition, project: string, resolve: Resolver, norm: Normaliser, before: World,
                                        after: World, creates: seq<Request>, conditions: ConditionMap, outcome: Outcome,
                                        run: RunRecord, i: nat, s: Name, d: Name)
    requires UpRun(comp, project, resolve, norm, before, after, creates, conditions, outcome, run)
    requires ConditionsKept(comp.services, project, conditions) && Acyclic(before.links + ResourcePairs(comp, project, resolve))
    requires s in comp.services && d in comp.services[s].dependsOn
    requires i < |run.fwd| && run.fwd[i].Created? && run.fwd[i].request.id == project + "/" + s
    requires project + "/" + d in IdSet(Creates(PlannedRequests(norm, before.rollouts, creates)))
    ensures exists j :: 0 <= j < i && CreatedAt(run.fwd, j, project + "/" + d)
    ensures AskedOf(comp.services, d, "service_healthy") ==>
      exists k :: 0 <= k < i && run.fwd[k] == Waited(project + "/" + d, "healthy", true)
    ensures AskedOf(comp.services, d, "service_completed_successfully") && !AskedOf(comp.services, d, "service_healthy") ==>
      exists k :: 0 <= k < i && run.fwd[k] == Waited(project + "/" + d, "completed", true)
  {
    var a, b := project + "/" + s, project + "/" + d;
    assert b in Targets(comp, project, resolve, comp.services[s]) by { assert b == ScopedId(project, d); }
    ResourcePair(comp, project, resolve, a, b);
    assert WaitsFor(comp.services, project, conditions, d);
    assert ReadyBefore(run.fwd, i, b, conditions);
    ReadyMeans(comp.services, project, conditions, run.fwd, i, d);
  }

  lemma {:induction false} ReadyMeans(services: Services, project: string, conditions: ConditionMap, es: seq<Event>, i: nat, d: Name)
    requires WaitsFor(services, project, conditions, d) && ReadyBefore(es, i, project + "/" + d, conditions) && i < |es|
    ensures exists j :: 0 <= j < i && CreatedAt(es, j, project + "/" + d)
    ensures AskedOf(services, d, "service_healthy") ==> exists k :: 0 <= k < i && es[k] == Waited(project + "/" + d, "healthy", true)
    ensures AskedOf(services, d, "service_completed_successfully") && !AskedOf(services, d, "service_healthy") ==>
      exists k :: 0 <= k < i && es[k] == Waited(project + "/" + d, "completed", true)
  {
    var b := project + "/" + d;
    var j :| 0 <= j < i && j < |es| && es[j].Created? && es[j].request.id == b && es[j].created.Applied?
      && (b in conditions ==> WaitedBetween(es, j, i, b, StrictestOf(conditions[b])));
    assert CreatedAt(es, j, b);
  }

  predicate CreatedAt(es: seq<Event>, j: nat, id: Id) {
    j < |es| && es[j].Created? && es[j].request.id == id && es[j].created.Applied?
  }

  /** Applies a plan for the composition's resources. */
  method ApplyUp(engine: Engine, plan: Deployment, waits: ConditionMap, ghost comp: Composition, ghost project: string,
                 ghost resolve: Resolver, ghost norm: Normaliser, ghost creates: seq<Request>)
    returns (outcome: Outcome, ghost run: RunRecord)
    requires engine.Valid() && Desires(comp, project, resolve, creates)
    requires plan.requests == PlannedRequests(norm, engine.db.rollouts, creates) && plan.depending == []
    requires LinkPairs(plan.dependencies) == ResourcePairs(comp, project, resolve)
    modifies engine, engine.db
    ensures engine.Valid()
    ensures UpRun(comp, project, resolve, norm, old(engine.Now()), engine.Now(), creates, waits, outcome, run)
  {
    assert engine.db.links + LinkPairs(plan.dependencies) + LinkPairs(plan.depending)
        == engine.db.links + ResourcePairs(comp, project, resolve);
    outcome, run := engine.ApplySync(plan, waits);
    Amounts(comp, project, resolve, norm, old(engine.Now()), engine.Now(), creates, waits, outcome, run);
  }

  /**
   * Convert, bridge, plan and apply. Nothing changes unless something is applied. It is refused exactly when a
   * resource to be made again lacks a dependency, or one that changes or goes has a dependent that stays; when it
   * succeeds every desired body is on record; and as long as stored and desired links are acyclic, everything was
   * deleted and created in a safe order. A composition with a networked service always finds something to do.
   */
  method OrchestrateUp(engine: Engine, comp: Composition, project: string, setUp: bool, resolve: Resolver,
                       spec: Manifest -> Option<Body>, accepts: (Key, Body) -> bool, norm: Normaliser)
    returns (r: UpResult, ghost creates: seq<Request>, ghost conditions: ConditionMap, ghost run: RunRecord)
    requires engine.Valid()
    modifies engine, engine.db
    ensures engine.Valid()
    ensures r.NotConverted? <==> project == ""
    ensures r.SetUpFailed? <==> project != "" && !setUp
    ensures r.NotBridged? <==> project != "" && setUp && !AllUsable(comp, project, resolve, spec, accepts)
    ensures r.NoChanges? || r.RunEnded? ==> AsksForAll(comp, project, resolve, spec, creates)
    ensures !r.RunEnded? ==> engine.Now() == old(engine.Now()) && engine.trace == old(engine.trace)
    ensures r.NoChanges? ==>
      && Desires(comp, project, resolve, creates)
      && AllNoOp(PlannedActions(norm, old(engine.db.rollouts), creates)) && !AnyNetworked(comp.services)
    ensures r.RunEnded? ==> UpRun(comp, project, resolve, norm, old(engine.Now()), engine.Now(), creates, conditions, r.outcome, run)
    ensures r.RunEnded? ==>
      AllCreates(creates) && !AllNoOp(PlannedActions(norm, old(engine.db.rollouts), creates))
    ensures r.RunEnded? ==> ConditionsKept(comp.services, project, conditions)
  {
    run := RunRecord([], [], [], 0, Cancelled);
    var failed, desired, waits := DesireUp(comp, project, setUp, resolve, spec, accepts);
    creates, conditions := desired.requests, waits;
    if failed.Some? {
      return failed.value, creates, conditions, run;
    }
    var rollouts := State(engine.db);
    var actions, plan := ComputePlan(desired, rollouts, norm);
    var made, changed, destroyed, same := Summary(actions);
    CountZero(actions);
    if made + changed + destroyed == 0 {
      if !DistinctIds(creates) {
        RepeatedActs(norm, engine.db.rollouts, creates);
      }
      return NoChanges, creates, conditions, run;
    }
    var outcome;
    outcome, run := ApplyUp(engine, plan, waits, comp, project, resolve, norm, creates);
    return RunEnded(outcome), creates, conditions, run;
  }

  lemma {:induction false} Amounts(comp: Composition, project: string, resolve: Resolver, norm: Normaliser, before: World,
                                   after: World, creates: seq<Request>, conditions: ConditionMap, outcome: Outcome,
                                   run: RunRecord)
    requires Desires(comp, project, resolve, creates)
    requires var rs, pairs := PlannedRequests(norm, before.rollouts, creates), ResourcePairs(comp, project, resolve);
      var links := before.links + pairs;
      && (Refused(outcome) <==> !CheckPasses(rs, pairs, before.links, before.rollouts))
      && (Refused(outcome) ==> after == before)
      && (!Refused(outcome) ==>
            && after == Run(Run(Run(before.(links := links), run.dels), run.fwd), run.back)
            && ApplyRun(rs, links, conditions, outcome, run))
      && (Acyclic(Restrict(links, IdSet(Deletes(rs)))) ==> DeleteSafe(run.dels, before.links, before.rollouts))
      && (Acyclic(Restrict(links, IdSet(Creates(rs)))) ==> CreateSafe(run.fwd, links, IdSet(Creates(rs)), conditions))
    ensures UpRun(comp, project, resolve, norm, before, after, creates, conditions, outcome, run)
  {
    var rs, pairs := PlannedRequests(norm, before.rollouts, creates), ResourcePairs(comp, project, resolve);
    var links := before.links + pairs;
    PlanCheckPassesIff(norm, before.rollouts, creates, pairs, before.links);
    if TargetsExist(comp.services) {
      UpAllowedIff(comp, project, resolve, norm, before.rollouts, creates, before.links);
    }
    if outcome.Succeeded? {
      SuccessRecords(norm, before, creates, links, conditions, run);
    }
    if Acyclic(links) {
      AcyclicWithin(links, IdSet(Deletes(rs)));
      AcyclicWithin(links, IdSet(Creates(rs)));
    }
  }
}
