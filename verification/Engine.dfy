/** Applying a deployment synchronously, in dependency order, with rollback. */
module Engine {
  import opened Slices
  import opened Graphs
  import opened Kahn
  import opened Requests
  import opened TopoSort
  import opened Store
  import opened Conditions
  import opened Events
  import opened Safety
  import opened Deployments

  datatype Outcome = ReferencesFailed | CheckCrashed | DeletesCancelled | CreatesFailed | Succeeded

  datatype StepResult = Done | NotCreated(outcome: CreateOutcome) | NotReady

  /** The events of one round of the create loop. */
  ghost predicate StepEvents(r: Request, conditions: ConditionMap, result: StepResult, es: seq<Event>) {
    match result
    case Done => es == Step(r, conditions)
    case NotCreated(o) => !o.Applied? && es == [Created(r, o)]
    case NotReady =>
      r.id in conditions && es == [Created(r, Applied), Waited(r.id, StrictestOf(conditions[r.id]), false)]
  }

  /** How a round extends or ends the run. */
  lemma {:induction false} StepEnds(rs: seq<Request>, conditions: ConditionMap, i: nat, result: StepResult, es: seq<Event>)
    requires i < |rs| && StepEvents(rs[i], conditions, result, es)
    ensures var fwd := Steps(rs[..i], conditions) + es;
      match result
      case Done => fwd == Steps(rs[..i + 1], conditions)
      case NotCreated(o) => CreateRun(fwd, rs, conditions, i, CreateFailed(o))
      case NotReady => CreateRun(fwd, rs, conditions, i + 1, WaitFailed)
  {
    assert rs[..i + 1][..i] == rs[..i];
  }

  /** The events of one apply run: deletes, creates and waits, rollback; and how the creates ended. */
  datatype RunRecord = RunRecord(dels: seq<Event>, fwd: seq<Event>, back: seq<Event>, m: nat, end: CreateEnd)

  predicate Refused(outcome: Outcome) {
    outcome.CheckCrashed? || outcome.ReferencesFailed?
  }

  ghost predicate CheckPasses(requests: seq<Request>, dependencies: Relation, links: Relation, rollouts: map<Id, Rollout>) {
    && DeletesHaveRollouts(requests, rollouts)
    && CreatesSatisfied(requests, dependencies, rollouts)
    && DeletesAllowed(requests, links, rollouts)
  }

  /** The shape of every run whose reference check passed. */
  ghost predicate ApplyRun(requests: seq<Request>, links: Relation, conditions: ConditionMap, outcome: Outcome, run: RunRecord) {
    var deletes, creates := TopoOrder(Deletes(requests), links), TopoOrder(Creates(requests), links);
    && DeletesInOrder(run.dels, Reversed(deletes))
    && (outcome.DeletesCancelled? <==> |run.dels| < |deletes|)
    && (outcome.DeletesCancelled? ==> run.fwd == run.back == [])
    && (!outcome.DeletesCancelled? ==>
          && CreateRun(run.fwd, creates, conditions, run.m, run.end)
          && RollbackRun(run.back, creates, run.m, run.end)
          && (outcome.Succeeded? <==> run.end.Completed?))
  }

  lemma {:induction false} RunCancelled(requests: seq<Request>, links: Relation, conditions: ConditionMap, dels: seq<Event>)
    requires DeletesInOrder(dels, Reversed(TopoOrder(Deletes(requests), links)))
    requires |dels| != |TopoOrder(Deletes(requests), links)|
    ensures ApplyRun(requests, links, conditions, DeletesCancelled, RunRecord(dels, [], [], 0, Cancelled))
  { }

  lemma {:induction false} NothingFollows(trace: seq<Event>, w: World)
    ensures trace + [] + [] == trace && Run(Run(w, []), []) == w
  { }

  lemma {:induction false} RunFinished(requests: seq<Request>, links: Relation, conditions: ConditionMap, run: RunRecord)
    requires DeletesInOrder(run.dels, Reversed(TopoOrder(Deletes(requests), links)))
    requires |run.dels| == |TopoOrder(Deletes(requests), links)|
    requires CreateRun(run.fwd, TopoOrder(Creates(requests), links), conditions, run.m, run.end)
    requires RollbackRun(run.back, TopoOrder(Creates(requests), links), run.m, run.end)
    ensures ApplyRun(requests, links, conditions, if run.end.Completed? then Succeeded else CreatesFailed, run)
  { }

  class Engine {
    const db: DB

    /** The resources that exist in the runtime. */
    ghost var live: set<Id>

    /** Everything attempted so far, in order. */
    ghost var trace: seq<Event>

    constructor (db: DB)
      ensures this.db == db && trace == [] && live == {}
    {
      this.db, live, trace := db, {}, [];
    }

    ghost predicate Valid()
      reads this, db
    {
      db.Valid() && forall id :: id in db.rollouts ==> db.rollouts[id].id == id
    }

    ghost function Now(): World
      reads this, db
    {
      World(db.rollouts, db.links, live)
    }

    /** Loads and applies the subject; an apply that fails is still recorded, one that could not load is not. */
    method ProcessCreate(r: Request) returns (outcome: CreateOutcome)
      requires Valid() && r.Create?
      modifies this, db`rollouts
      ensures Valid()
      ensures trace == old(trace) + [Created(r, outcome)]
      ensures Now() == Effect(old(Now()), Created(r, outcome))
      ensures db.rollouts == match outcome
        case Applied => old(db.rollouts)[r.id := Rollout(r.id, r.key, r.body, true)]
        case ApplyFailed(_) => old(db.rollouts)[r.id := Rollout(r.id, r.key, r.body, false)]
        case NotLoaded => old(db.rollouts)
      ensures live == match outcome
        case Applied => old(live) + {r.id}
        case ApplyFailed(remains) => if remains then old(live) + {r.id} else old(live) - {r.id}
        case NotLoaded => old(live)
    {
      var loaded, applied, remains := *, *, *;
      if !loaded {
        outcome := NotLoaded;
      } else if applied {
        db.rollouts := db.rollouts[r.id := RolloutOf(r, true)];
        live := live + {r.id};
        outcome := Applied;
      } else {
        db.rollouts := db.rollouts[r.id := RolloutOf(r, false)];
        live := SetLive(live, r.id, remains);
        outcome := ApplyFailed(remains);
      }
      trace := trace + [Created(r, outcome)];
    }

    /** Deletes the subject, and the links that leave it once that has succeeded. */
    method ProcessDelete(id: Id, key: Key) returns (outcome: DeleteOutcome)
      requires Valid()
      modifies this, db`bySource, db`byTarget, db`links
      ensures Valid()
      ensures trace == old(trace) + [Deleted(id, outcome)]
      ensures Now() == Effect(old(Now()), Deleted(id, outcome))
      ensures db.rollouts == old(db.rollouts)
      ensures outcome.Removed? ==> forall s, t :: (s, t) in db.links <==> (s, t) in old(db.links) && s != id
      ensures !outcome.Removed? ==> db.links == old(db.links)
      ensures live == if outcome.DeleteFailed? && outcome.liveAfter then old(live) + {id} else old(live) - {id}
    {
      var removed, remains := *, *;
      if removed {
        live := live - {id};
        db.RemoveLink(Reference(id, key));
        outcome := Removed;
      } else {
        live := SetLive(live, id, remains);
        outcome := DeleteFailed(remains);
      }
      trace := trace + [Deleted(id, outcome)];
    }

    /** Waits for the strictest condition imposed on the resource. */
    method WaitCondition(id: Id, conditions: ConditionMap) returns (satisfied: bool)
      requires Valid() && id in conditions
      modifies this
      ensures Valid() && Now() == old(Now())
      ensures trace == old(trace) + [Waited(id, StrictestOf(conditions[id]), satisfied)]
    {
      var strictest := Strictest(conditions[id]);
      satisfied := *;
      trace := trace + [Waited(id, strictest, satisfied)];
    }

    /** Attempts the deletes in order, carrying on past failures; stops only when the context is cancelled. */
    method ExecuteDeletes(sorted: seq<Request>) returns (completed: bool, ghost es: seq<Event>)
      requires Valid()
      modifies this, db`bySource, db`byTarget, db`links
      ensures Valid()
      ensures trace == old(trace) + es && Now() == Run(old(Now()), es)
      ensures DeletesInOrder(es, sorted) && (completed <==> |es| == |sorted|)
    {
      es := [];
      for i := 0 to |sorted|
        invariant Valid()
        invariant trace == old(trace) + es && Now() == Run(old(Now()), es)
        invariant DeletesInOrder(es, sorted) && |es| == i
      {
        var cancelled := *;
        if cancelled { return false, es; }
        var outcome := ProcessDelete(sorted[i].id, sorted[i].key);
        RunSnoc(old(Now()), es, Deleted(sorted[i].id, outcome));
        es := es + [Deleted(sorted[i].id, outcome)];
      }
      completed := true;
    }

    /** Attempts a delete for each applied request, last one first, carrying on past failures. */
    method Rollback(applied: seq<Request>) returns (ghost es: seq<Event>)
      requires Valid()
      modifies this, db`bySource, db`byTarget, db`links
      ensures Valid()
      ensures trace == old(trace) + es && Now() == Run(old(Now()), es)
      ensures |es| == |applied|
      ensures forall i :: 0 <= i < |es| ==> es[i].Deleted? && es[i].id == applied[|applied| - 1 - i].id
    {
      es := [];
      var i := |applied|;
      while i > 0
        invariant 0 <= i <= |applied| && |es| == |applied| - i && Valid()
        invariant trace == old(trace) + es && Now() == Run(old(Now()), es)
        invariant forall k :: 0 <= k < |es| ==> es[k].Deleted? && es[k].id == applied[|applied| - 1 - k].id
      {
        i := i - 1;
        var outcome := ProcessDelete(applied[i].id, applied[i].key);
        RunSnoc(old(Now()), es, Deleted(applied[i].id, outcome));
        es := es + [Deleted(applied[i].id, outcome)];
      }
    }

    /** One round of the create loop: create, then wait if dependents impose conditions. */
    method CreateAndWait(r: Request, conditions: ConditionMap) returns (result: StepResult, ghost es: seq<Event>)
      requires Valid() && r.Create?
      modifies this, db`rollouts
      ensures Valid()
      ensures trace == old(trace) + es && Now() == Run(old(Now()), es)
      ensures StepEvents(r, conditions, result, es)
    {
      ghost var w := Now();
      var outcome := ProcessCreate(r);
      es := [Created(r, outcome)];
      RunSnoc(w, [], Created(r, outcome));
      assert [] + es == es;
      if !outcome.Applied? {
        return NotCreated(outcome), es;
      }
      if r.id in conditions {
        var satisfied := WaitCondition(r.id, conditions);
        ghost var wait := Waited(r.id, StrictestOf(conditions[r.id]), satisfied);
        RunSnoc(w, es, wait);
        es := es + [wait];
        if !satisfied {
          return NotReady, es;
        }
      }
      result := Done;
    }

    /** Creates in order, waiting after each, up to the first failure; `applied` is what a failure must undo. */
    method CreateAll(sorted: seq<Request>, conditions: ConditionMap)
      returns (end: CreateEnd, applied: seq<Request>, ghost fwd: seq<Event>)
      requires Valid() && forall r :: r in sorted ==> r.Create?
      modifies this, db`rollouts
      ensures Valid() && trace == old(trace) + fwd && Now() == Run(old(Now()), fwd)
      ensures CreateRun(fwd, sorted, conditions, |applied|, end) && applied == sorted[..|applied|]
    {
      ghost var w := Now();
      applied, fwd := [], [];
      for i := 0 to |sorted|
        invariant Valid() && applied == sorted[..i]
        invariant trace == old(trace) + fwd && Now() == Run(w, fwd)
        invariant fwd == Steps(sorted[..i], conditions)
      {
        var cancelled := *;
        if cancelled {
          return Cancelled, applied, fwd;
        }
        var result;
        ghost var es;
        result, es := CreateAndWait(sorted[i], conditions);
        RunConcat(w, fwd, es);
        ConcatAssoc(old(trace), fwd, es);
        PrefixSnoc(sorted, i);
        StepEnds(sorted, conditions, i, result, es);
        fwd := fwd + es;
        match result
        case NotCreated(outcome) =>
          return CreateFailed(outcome), applied, fwd;
        case NotReady =>
          return WaitFailed, applied + [sorted[i]], fwd;
        case Done =>
          applied := applied + [sorted[i]];
      }
      assert sorted[..|sorted|] == sorted;
      end := Completed;
    }

    /** Creates everything or, on the first failure, rolls back everything created so far. */
    method ExecuteCreates(sorted: seq<Request>, conditions: ConditionMap)
      returns (end: CreateEnd, ghost m: nat, ghost fwd: seq<Event>, ghost back: seq<Event>)
      requires Valid() && forall r :: r in sorted ==> r.Create?
      modifies this, db`rollouts, db`bySource, db`byTarget, db`links
      ensures Valid() && trace == old(trace) + fwd + back && Now() == Run(Run(old(Now()), fwd), back)
      ensures CreateRun(fwd, sorted, conditions, m, end) && RollbackRun(back, sorted, m, end)
    {
      var applied;
      end, applied, fwd := CreateAll(sorted, conditions);
      m, back := |applied|, [];
      if !end.Completed? {
        back := Rollback(applied);
      }
    }

    /** Sorts the deletes into reverse dependency order and attempts them. */
    method SortAndDelete(deletes: seq<Request>, loaded: seq<(Id, Id)>, ghost recorded: Relation,
                         ghost rollouts: map<Id, Rollout>)
      returns (completed: bool, ghost dels: seq<Event>)
      requires Valid() && recorded <= ToSet(loaded) && DependentsIncluded(IdSet(deletes), recorded, rollouts)
      modifies this, db`bySource, db`byTarget, db`links
      ensures Valid() && trace == old(trace) + dels && Now() == Run(old(Now()), dels)
      ensures DeletesInOrder(dels, Reversed(TopoOrder(deletes, ToSet(loaded))))
      ensures completed <==> |dels| == |TopoOrder(deletes, ToSet(loaded))|
      ensures Acyclic(Restrict(ToSet(loaded), IdSet(deletes))) ==> DeleteSafe(dels, recorded, rollouts)
    {
      var order := TopoSortRequests(deletes, loaded, true);
      completed, dels := ExecuteDeletes(order);
      if Acyclic(Restrict(ToSet(loaded), IdSet(deletes))) {
        DeletesAreSafe(dels, deletes, recorded, ToSet(loaded), rollouts);
      }
    }

    /** Sorts the creates into dependency order and executes them. */
    method SortAndCreate(ghost requests: seq<Request>, creates: seq<Request>, loaded: seq<(Id, Id)>, conditions: ConditionMap)
      returns (end: CreateEnd, ghost m: nat, ghost fwd: seq<Event>, ghost back: seq<Event>)
      requires Valid() && creates == Creates(requests)
      modifies this, db`rollouts, db`bySource, db`byTarget, db`links
      ensures Valid() && trace == old(trace) + fwd + back && Now() == Run(Run(old(Now()), fwd), back)
      ensures CreateRun(fwd, TopoOrder(creates, ToSet(loaded)), conditions, m, end)
      ensures RollbackRun(back, TopoOrder(creates, ToSet(loaded)), m, end)
      ensures Acyclic(Restrict(ToSet(loaded), IdSet(creates))) ==>
        CreateSafe(fwd, ToSet(loaded), IdSet(creates), conditions)
    {
      var order := TopoSortRequests(creates, loaded, false);
      OnlyCreates(requests, ToSet(loaded));
      end, m, fwd, back := ExecuteCreates(order, conditions);
      if Acyclic(Restrict(ToSet(loaded), IdSet(creates))) {
        CreatesAreSafe(fwd, creates, ToSet(loaded), conditions, m, end);
      }
    }

    /**
     * Applies a deployment. The links used for ordering are those on record plus those of the deployment;
     * the reference check sees only the former. Nothing happens unless the check passes; from then on the
     * run is deletes in reverse dependency order, creates in dependency order, and a rollback if those fail.
     */
    method ApplySync(d: Deployment, conditions: ConditionMap) returns (outcome: Outcome, ghost run: RunRecord)
      requires Valid()
      modifies this, db
      ensures Valid() && trace == old(trace) + run.dels + run.fwd + run.back
      ensures outcome.CheckCrashed? <==> !DeletesHaveRollouts(d.requests, old(db.rollouts))
      ensures Refused(outcome) <==> !CheckPasses(d.requests, LinkPairs(d.dependencies), old(db.links), old(db.rollouts))
      ensures Refused(outcome) ==> Now() == old(Now()) && run.dels == run.fwd == run.back == []
      ensures var links := old(db.links) + LinkPairs(d.dependencies) + LinkPairs(d.depending);
        !Refused(outcome) ==>
          && Now() == Run(Run(Run(old(Now()).(links := links), run.dels), run.fwd), run.back)
          && ApplyRun(d.requests, links, conditions, outcome, run)
      ensures var links := old(db.links) + LinkPairs(d.dependencies) + LinkPairs(d.depending);
        Acyclic(Restrict(links, IdSet(Deletes(d.requests)))) ==>
          DeleteSafe(run.dels, old(db.links), old(db.rollouts))
      ensures var links := old(db.links) + LinkPairs(d.dependencies) + LinkPairs(d.depending);
        Acyclic(Restrict(links, IdSet(Creates(d.requests)))) ==>
          CreateSafe(run.fwd, links, IdSet(Creates(d.requests)), conditions)
    {
      run := RunRecord([], [], [], 0, Cancelled);
      var checked := d.CheckReferences(db);
      if !checked.Passed? {
        outcome := if checked.Crashed? then CheckCrashed else ReferencesFailed;
        return;
      }
      ghost var recorded, rollouts := db.links, db.rollouts;
      d.PersistLinks(db);
      outcome, run := ApplyChecked(d.requests, conditions, recorded, rollouts);
    }

    /** What happens once the check has passed and the deployment's links are on record. */
    method ApplyChecked(requests: seq<Request>, conditions: ConditionMap, ghost recorded: Relation,
                        ghost rollouts: map<Id, Rollout>)
      returns (outcome: Outcome, ghost run: RunRecord)
      requires Valid() && recorded <= db.links && DependentsIncluded(IdSet(Deletes(requests)), recorded, rollouts)
      modifies this, db
      ensures Valid() && trace == old(trace) + run.dels + run.fwd + run.back && !Refused(outcome)
      ensures Now() == Run(Run(Run(old(Now()), run.dels), run.fwd), run.back)
      ensures ApplyRun(requests, old(db.links), conditions, outcome, run)
      ensures Acyclic(Restrict(old(db.links), IdSet(Deletes(requests)))) ==> DeleteSafe(run.dels, recorded, rollouts)
      ensures Acyclic(Restrict(old(db.links), IdSet(Creates(requests)))) ==>
        CreateSafe(run.fwd, old(db.links), IdSet(Creates(requests)), conditions)
    {
      var deletes, creates := SplitRequests(requests);
      var loaded := db.LoadLinks();
      var completed, end;
      ghost var dels, m, fwd, back;
      completed, dels := SortAndDelete(deletes, loaded, recorded, rollouts);
      if !completed {
        RunCancelled(requests, old(db.links), conditions, dels);
        NothingFollows(trace, Now());
        return DeletesCancelled, RunRecord(dels, [], [], 0, Cancelled);
      }
      end, m, fwd, back := SortAndCreate(requests, creates, loaded, conditions);
      run := RunRecord(dels, fwd, back, m, end);
      RunFinished(requests, old(db.links), conditions, run);
      outcome := if end.Completed? then Succeeded else CreatesFailed;
    }
  }

  /** Sorting the creates yields only creates. */
  lemma {:induction false} OnlyCreates(requests: seq<Request>, r: Relation)
    ensures forall q :: q in TopoOrder(Creates(requests), r) ==> q.Create?
  {
    var rs := Creates(requests);
    SplitElements(requests);
    var ids := KahnOrder(r, IdSet(rs));
    KahnOrderSound(r, IdSet(rs));
    assert forall x :: x in ids ==> x in ToSet(ids);
    RemainderElements(rs, ToSet(ids));
    forall q | q in TopoOrder(rs, r) ensures q in rs {
      if q in Representatives(rs, ids) {
        var i :| 0 <= i < |ids| && Representatives(rs, ids)[i] == q;
      }
    }
  }

  lemma {:induction false} RemainderElements(rs: seq<Request>, ids: set<Id>)
    ensures forall q :: q in Remainder(rs, ids) ==> q in rs
  {
    if rs != [] {
      RemainderElements(rs[..|rs| - 1], ids);
    }
  }
}
