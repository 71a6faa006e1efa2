/** Diffing desired resources against recorded rollouts. */
module Planning {
  import opened Options
  import opened Ordering
  import opened Slices
  import opened Graphs
  import opened Kahn
  import opened Requests
  import opened Store
  import opened Deployments

  /** JSON normalisation: the canonical text of a valid body, nothing for an invalid one. */
  type Normaliser = Body -> Option<Body>

  predicate BodyEqual(norm: Normaliser, a: Body, b: Body) {
    if |a| == 0 && |b| == 0 then true
    else if |a| == 0 || |b| == 0 then false
    else norm(a).Some? && norm(b).Some? && norm(a).value == norm(b).value
  }

  /** A body is equal to itself exactly when it is empty or valid JSON. */
  predicate SelfEqual(norm: Normaliser, a: Body) {
    |a| == 0 || norm(a).Some?
  }

  lemma {:induction false} BodyEqualLaws(norm: Normaliser, a: Body, b: Body, c: Body)
    ensures BodyEqual(norm, a, a) <==> SelfEqual(norm, a)
    ensures BodyEqual(norm, a, b) ==> BodyEqual(norm, b, a) && SelfEqual(norm, a) && SelfEqual(norm, b)
    ensures BodyEqual(norm, a, b) && BodyEqual(norm, b, c) ==> BodyEqual(norm, a, c)
  { }

  datatype ActionType = ToCreate | ToUpdate | ToDestroy | NoOp

  datatype Action = Action(kind: ActionType, id: Id, key: Key)

  type Rollouts = map<Id, Rollout>

  /** What to do about one desired resource, given the rollouts not yet accounted for. */
  function Decide(norm: Normaliser, current: Rollouts, r: Request): ActionType
    requires r.Create?
  {
    if r.id !in current then ToCreate
    else if !BodyEqual(norm, r.body, current[r.id].body) then ToUpdate
    else NoOp
  }

  /** The rollouts left once the given resources are accounted for. */
  function Unclaimed(current: Rollouts, creates: seq<Request>): Rollouts {
    current - IdSet(creates)
  }

  predicate AllCreates(rs: seq<Request>) {
    forall i :: 0 <= i < |rs| ==> rs[i].Create?
  }

  function ActionsFor(norm: Normaliser, current: Rollouts, creates: seq<Request>): (actions: seq<Action>)
    requires AllCreates(creates)
    ensures |actions| == |creates|
  {
    if creates == [] then []
    else
      var n := |creates| - 1;
      var r := creates[n];
      ActionsFor(norm, current, creates[..n]) + [Action(Decide(norm, Unclaimed(current, creates[..n]), r), r.id, r.key)]
  }

  /** What an action asks for: a create, a delete and a create, or nothing. */
  function RequestsOf(kind: ActionType, r: Request): seq<Request>
    requires r.Create?
  {
    match kind
    case ToCreate => [r]
    case ToUpdate => [Delete(r.id, r.key), r]
    case _ => []
  }

  function RequestsFor(norm: Normaliser, current: Rollouts, creates: seq<Request>): seq<Request>
    requires AllCreates(creates)
  {
    if creates == [] then []
    else
      var n := |creates| - 1;
      var r := creates[n];
      RequestsFor(norm, current, creates[..n]) + RequestsOf(Decide(norm, Unclaimed(current, creates[..n]), r), r)
  }

  function DestroyActions(current: Rollouts, ids: seq<Id>): (actions: seq<Action>)
    requires forall id :: id in ids ==> id in current
    ensures |actions| == |ids|
  {
    if ids == [] then []
    else
      var id := ids[|ids| - 1];
      DestroyActions(current, ids[..|ids| - 1]) + [Action(ToDestroy, id, current[id].key)]
  }

  function DestroyRequests(current: Rollouts, ids: seq<Id>): seq<Request>
    requires forall id :: id in ids ==> id in current
  {
    if ids == [] then []
    else
      var id := ids[|ids| - 1];
      DestroyRequests(current, ids[..|ids| - 1]) + [Delete(id, current[id].key)]
  }

  ghost function Orphans(current: Rollouts, creates: seq<Request>): (ids: seq<Id>)
    ensures forall id :: id in ids <==> id in current && id !in IdSet(creates)
    ensures NoDuplicates(ids)
  {
    InOrderElements(Unclaimed(current, creates).Keys);
    InOrder(Unclaimed(current, creates).Keys)
  }

  ghost function PlannedActions(norm: Normaliser, current: Rollouts, creates: seq<Request>): seq<Action>
    requires AllCreates(creates)
  {
    ActionsFor(norm, current, creates) + DestroyActions(current, Orphans(current, creates))
  }

  ghost function PlannedRequests(norm: Normaliser, current: Rollouts, creates: seq<Request>): seq<Request>
    requires AllCreates(creates)
  {
    RequestsFor(norm, current, creates) + DestroyRequests(current, Orphans(current, creates))
  }

  // ---- The planner ----

  function ById(rs: seq<Rollout>): Rollouts {
    if rs == [] then map[] else ById(rs[..|rs| - 1])[rs[|rs| - 1].id := rs[|rs| - 1]]
  }

  /** Of several rollouts of one id the last counts, and no id has any that is not listed. */
  lemma {:induction false} ByIdIsLast(rs: seq<Rollout>, x: Id)
    ensures x in ById(rs) <==> exists i: nat :: IsLastRollout(rs, i, x)
    ensures forall i: nat :: IsLastRollout(rs, i, x) ==> x in ById(rs) && ById(rs)[x] == rs[i]
  {
    if rs != [] {
      var n := |rs| - 1;
      ByIdIsLast(rs[..n], x);
      if rs[n].id == x {
        assert IsLastRollout(rs, n, x);
      } else {
        assert forall i: nat :: IsLastRollout(rs, i, x) <==> IsLastRollout(rs[..n], i, x);
      }
    }
  }

  predicate IsLastRollout(rs: seq<Rollout>, i: nat, x: Id) {
    i < |rs| && rs[i].id == x && forall j :: i < j < |rs| ==> rs[j].id != x
  }

  method IndexRollouts(rs: seq<Rollout>) returns (current: Rollouts)
    ensures current == ById(rs)
  {
    current := map[];
    for i := 0 to |rs|
      invariant current == ById(rs[..i])
    {
      assert rs[..i + 1][..i] == rs[..i];
      current := current[rs[i].id := rs[i]];
    }
    assert rs[..|rs|] == rs;
  }

  lemma {:induction false} CreatesAreCreates(rs: seq<Request>)
    ensures AllCreates(Creates(rs))
  {
    SplitElements(rs);
    forall i | 0 <= i < |Creates(rs)| ensures Creates(rs)[i].Create? {
      assert Creates(rs)[i] in Creates(rs);
    }
  }

  method ComputePlan(desired: Deployment, currentRollouts: seq<Rollout>, norm: Normaliser)
    returns (actions: seq<Action>, plan: Deployment)
    ensures AllCreates(Creates(desired.requests)) && fresh(plan)
    ensures actions == PlannedActions(norm, ById(currentRollouts), Creates(desired.requests))
    ensures plan.requests == PlannedRequests(norm, ById(currentRollouts), Creates(desired.requests))
    ensures plan.dependencies == desired.dependencies && plan.depending == []
  {
    CreatesAreCreates(desired.requests);
    var all := IndexRollouts(currentRollouts);
    plan := new Deployment();
    var current;
    actions, current := WalkDesired(desired.requests, all, norm, plan);
    var destroys := DestroyOrphans(all, current, plan);
    assert current.Keys == Unclaimed(all, Creates(desired.requests)).Keys;
    actions := actions + destroys;
    plan.dependencies := desired.dependencies;
  }

  /** Decides each desired create in turn, claiming the rollout it finds. */
  method WalkDesired(requests: seq<Request>, all: Rollouts, norm: Normaliser, plan: Deployment)
    returns (actions: seq<Action>, current: Rollouts)
    requires plan.requests == [] && AllCreates(Creates(requests))
    modifies plan`requests
    ensures current == Unclaimed(all, Creates(requests))
    ensures actions == ActionsFor(norm, all, Creates(requests))
    ensures plan.requests == RequestsFor(norm, all, Creates(requests))
  {
    current, actions := all, [];
    ghost var seen: seq<Request> := [];
    for i := 0 to |requests|
      invariant seen == Creates(requests[..i]) && AllCreates(seen)
      invariant current == Unclaimed(all, seen)
      invariant actions == ActionsFor(norm, all, seen)
      invariant plan.requests == RequestsFor(norm, all, seen)
    {
      NextCreate(requests, i);
      if requests[i].Create? {
        var action;
        action, current := PlanOne(requests[i], all, seen, current, norm, plan);
        PlanNext(norm, all, seen, requests[i]);
        actions := actions + [action];
        seen := seen + [requests[i]];
      }
    }
    assert requests[..|requests|] == requests;
  }

  /** Creates what is new, deletes and creates what changed, leaves alone what matches. */
  method PlanOne(r: Request, ghost all: Rollouts, ghost seen: seq<Request>, current0: Rollouts, norm: Normaliser, plan: Deployment)
    returns (action: Action, current: Rollouts)
    requires r.Create? && AllCreates(seen) && current0 == Unclaimed(all, seen)
    requires plan.requests == RequestsFor(norm, all, seen)
    modifies plan`requests
    ensures AllCreates(seen + [r]) && current == Unclaimed(all, seen + [r])
    ensures action == Action(Decide(norm, current0, r), r.id, r.key)
    ensures plan.requests == RequestsFor(norm, all, seen + [r])
  {
    PlanNext(norm, all, seen, r);
    current := current0;
    if r.id !in current {
      action := Action(ToCreate, r.id, r.key);
      plan.requests := plan.requests + [r];
    } else if !BodyEqual(norm, r.body, current[r.id].body) {
      action := Action(ToUpdate, r.id, r.key);
      TwoMore(plan.requests, Delete(r.id, r.key), r);
      plan.AddDeletion(Reference(r.id, r.key));
      plan.requests := plan.requests + [r];
      current := current - {r.id};
    } else {
      action := Action(NoOp, r.id, r.key);
      current := current - {r.id};
    }
  }

  lemma {:induction false} TwoMore<T>(s: seq<T>, a: T, b: T)
    ensures s + [a] + [b] == s + [a, b]
  { }

  /** Whatever was not claimed is destroyed, in id order. */
  method DestroyOrphans(ghost all: Rollouts, current: Rollouts, plan: Deployment) returns (actions: seq<Action>)
    requires forall id :: id in current ==> id in all && current[id] == all[id]
    modifies plan`requests
    ensures forall id :: id in InOrder(current.Keys) ==> id in all
    ensures actions == DestroyActions(all, InOrder(current.Keys))
    ensures plan.requests == old(plan.requests) + DestroyRequests(all, InOrder(current.Keys))
  {
    var orphans := SortedKeys(current);
    InOrderUnique(orphans, current.Keys);
    actions := [];
    for i := 0 to |orphans|
      invariant forall id :: id in orphans[..i] ==> id in all
      invariant actions == DestroyActions(all, orphans[..i])
      invariant plan.requests == old(plan.requests) + DestroyRequests(all, orphans[..i])
    {
      var id := orphans[i];
      assert id in orphans;
      DestroyNext(all, orphans, i);
      ConcatAssoc(old(plan.requests), DestroyRequests(all, orphans[..i]), [Delete(id, all[id].key)]);
      actions := actions + [Action(ToDestroy, id, current[id].key)];
      plan.AddDeletion(Reference(id, current[id].key));
    }
    assert orphans[..|orphans|] == orphans;
  }

  lemma {:induction false} DestroyNext(all: Rollouts, ids: seq<Id>, i: nat)
    requires i < |ids| && ids[i] in all && forall id :: id in ids[..i] ==> id in all
    ensures forall id :: id in ids[..i + 1] ==> id in all
    ensures DestroyActions(all, ids[..i + 1]) == DestroyActions(all, ids[..i]) + [Action(ToDestroy, ids[i], all[ids[i]].key)]
    ensures DestroyRequests(all, ids[..i + 1]) == DestroyRequests(all, ids[..i]) + [Delete(ids[i], all[ids[i]].key)]
  {
    assert ids[..i + 1] == ids[..i] + [ids[i]];
    assert ids[..i + 1][..i] == ids[..i];
  }

  lemma {:induction false} NextCreate(rs: seq<Request>, i: nat)
    requires i < |rs| && AllCreates(Creates(rs[..i]))
    ensures Creates(rs[..i + 1]) == Creates(rs[..i]) + (if rs[i].Create? then [rs[i]] else [])
    ensures AllCreates(Creates(rs[..i + 1]))
  {
    assert rs[..i + 1][..i] == rs[..i];
  }

  lemma {:induction false} PlanNext(norm: Normaliser, current: Rollouts, creates: seq<Request>, r: Request)
    requires AllCreates(creates) && r.Create?
    ensures AllCreates(creates + [r])
    ensures ActionsFor(norm, current, creates + [r])
         == ActionsFor(norm, current, creates) + [Action(Decide(norm, Unclaimed(current, creates), r), r.id, r.key)]
    ensures RequestsFor(norm, current, creates + [r])
         == RequestsFor(norm, current, creates) + RequestsOf(Decide(norm, Unclaimed(current, creates), r), r)
    ensures Unclaimed(current, creates + [r]) == Unclaimed(current, creates) - {r.id}
  {
    assert (creates + [r])[..|creates|] == creates;
    IdSetSnoc(creates, r);
  }

  function CountKind(actions: seq<Action>, kind: ActionType): nat {
    if actions == [] then 0
    else CountKind(actions[..|actions| - 1], kind) + (if actions[|actions| - 1].kind == kind then 1 else 0)
  }

  method Summary(actions: seq<Action>) returns (creates: nat, updates: nat, destroys: nat, noops: nat)
    ensures creates == CountKind(actions, ToCreate) && updates == CountKind(actions, ToUpdate)
    ensures destroys == CountKind(actions, ToDestroy) && noops == CountKind(actions, NoOp)
  {
    creates, updates, destroys, noops := 0, 0, 0, 0;
    for i := 0 to |actions|
      invariant creates == CountKind(actions[..i], ToCreate) && updates == CountKind(actions[..i], ToUpdate)
      invariant destroys == CountKind(actions[..i], ToDestroy) && noops == CountKind(actions[..i], NoOp)
    {
      assert actions[..i + 1][..i] == actions[..i];
      match actions[i].kind
      case ToCreate => creates := creates + 1;
      case ToUpdate => updates := updates + 1;
      case ToDestroy => destroys := destroys + 1;
      case NoOp => noops := noops + 1;
    }
    assert actions[..|actions|] == actions;
  }
}
