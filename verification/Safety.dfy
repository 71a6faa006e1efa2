/** What holds of every sequence of events an apply run can produce. */
module Safety {
  import opened Slices
  import opened Graphs
  import opened Requests
  import opened TopoSort
  import opened Store
  import opened Conditions
  import opened Events

  // ---- Deletes ----

  ghost predicate DeletedBefore(es: seq<Event>, i: nat, s: Id) {
    exists j :: 0 <= j < i && j < |es| && es[j].Deleted? && es[j].id == s
  }

  /** No delete is attempted before one was attempted for every recorded dependent that has a rollout. */
  ghost predicate DeleteSafe(es: seq<Event>, links: Relation, rollouts: map<Id, Rollout>) {
    forall i, s :: 0 <= i < |es| && es[i].Deleted? && (s, es[i].id) in links && s in rollouts ==> DeletedBefore(es, i, s)
  }

  /** The reference check on deletes: every dependent with a rollout is deleted too. */
  ghost predicate DependentsIncluded(ids: set<Id>, links: Relation, rollouts: map<Id, Rollout>) {
    forall s, t :: t in ids && (s, t) in links && s in rollouts ==> s in ids
  }

  /** The check and the reversed order together make deletes safe, however far the run gets. */
  lemma {:induction false} DeletesAreSafe(es: seq<Event>, deletes: seq<Request>, recorded: Relation, all: Relation,
                                          rollouts: map<Id, Rollout>)
    requires DeletesInOrder(es, Reversed(TopoOrder(deletes, all)))
    requires recorded <= all && Acyclic(Restrict(all, IdSet(deletes)))
    requires DependentsIncluded(IdSet(deletes), recorded, rollouts)
    ensures DeleteSafe(es, recorded, rollouts)
  {
    AcyclicOrder(deletes, all);
    var s := TopoOrder(deletes, all);
    forall i, d | 0 <= i < |es| && es[i].Deleted? && (d, es[i].id) in recorded && d in rollouts
      ensures DeletedBefore(es, i, d)
    {
      var t := Reversed(s)[i].id;
      InBatch(s, |s| - 1 - i, IdSet(deletes));
      assert t in IdSet(deletes) && (d, t) in recorded;
      var j := DependentsFirst(deletes, all, i, d);
      assert es[j].id == d;
    }
  }

  lemma {:induction false} InBatch(s: seq<Request>, i: nat, batch: set<Id>)
    requires i < |s| && ToSet(Ids(s)) == batch
    ensures s[i].id in batch
  {
    assert Ids(s)[i] in ToSet(Ids(s));
  }

  // ---- Creates ----

  ghost predicate WaitedBetween(es: seq<Event>, j: nat, i: nat, t: Id, c: Condition) {
    exists k :: j < k < i && k < |es| && es[k] == Waited(t, c, true)
  }

  ghost predicate ReadyBefore(es: seq<Event>, i: nat, t: Id, conditions: ConditionMap) {
    exists j :: 0 <= j < i && j < |es| && es[j].Created? && es[j].request.id == t && es[j].created.Applied?
      && (t in conditions ==> WaitedBetween(es, j, i, t, StrictestOf(conditions[t])))
  }

  /**
   * Whenever a create is attempted, every link target in the create batch has been created successfully,
   * and the wait for the strictest condition imposed on it has succeeded.
   */
  ghost predicate CreateSafe(es: seq<Event>, links: Relation, batch: set<Id>, conditions: ConditionMap) {
    forall i, t :: 0 <= i < |es| && es[i].Created? && (es[i].request.id, t) in links && t in batch ==>
      ReadyBefore(es, i, t, conditions)
  }

  lemma {:induction false} CreatesAreSafe(es: seq<Event>, creates: seq<Request>, links: Relation,
                                          conditions: ConditionMap, m: nat, end: CreateEnd)
    requires Acyclic(Restrict(links, IdSet(creates)))
    requires CreateRun(es, TopoOrder(creates, links), conditions, m, end)
    ensures CreateSafe(es, links, IdSet(creates), conditions)
  {
    var rs := TopoOrder(creates, links);
    forall i, t | 0 <= i < |es| && es[i].Created? && (es[i].request.id, t) in links && t in IdSet(creates)
      ensures ReadyBefore(es, i, t, conditions)
    {
      var a := CreateComesAfter(es, rs, conditions, m, end, i);
      var b := TargetsFirst(creates, links, a, t);
      EarlierIsReady(es, rs, conditions, i, a, b);
    }
  }

  lemma {:induction false} EarlierIsReady(es: seq<Event>, rs: seq<Request>, conditions: ConditionMap, i: nat, a: nat, b: nat)
    requires b < a < |rs| && i == |Steps(rs[..a], conditions)| && Steps(rs[..a], conditions) <= es
    ensures ReadyBefore(es, i, rs[b].id, conditions)
  {
    var j := StepAt(rs[..a], conditions, b);
    var s := Steps(rs[..a], conditions);
    assert s[j] == es[j] && rs[..a][b] == rs[b];
    if rs[b].id in conditions {
      assert s[j + 1] == es[j + 1];
      assert WaitedBetween(es, j, i, rs[b].id, StrictestOf(conditions[rs[b].id]));
    }
  }

  // ---- Rollback ----

  /** A rolled-back resource goes only after everything created in this run that depends on it. */
  lemma {:induction false} RollbackIsSafe(back: seq<Event>, creates: seq<Request>, links: Relation, m: nat,
                                          end: CreateEnd, i: nat, d: Id)
    requires Acyclic(Restrict(links, IdSet(creates)))
    requires RollbackRun(back, TopoOrder(creates, links), m, end)
    requires i < |back| && (d, back[i].id) in links && d in IdSet(TopoOrder(creates, links)[..m])
    ensures DeletedBefore(back, i, d)
  {
    var rs := TopoOrder(creates, links);
    var k := IdSetMember(rs[..m], d);
    AcyclicOrder(creates, links);
    assert Ids(rs)[m - 1 - i] in ToSet(Ids(rs));
    var b := TargetsFirst(creates, links, k, rs[m - 1 - i].id);
    assert Ids(rs)[b] == Ids(rs)[m - 1 - i];
    assert b == m - 1 - i;
    assert back[m - 1 - k].id == d;
  }

  lemma {:induction false} StepsLive(w: World, rs: seq<Request>, conditions: ConditionMap)
    requires forall r :: r in rs ==> r.Create?
    ensures Run(w, Steps(rs, conditions)).live == w.live + IdSet(rs)
    ensures Run(w, Steps(rs, conditions)).links == w.links
    ensures Run(w, Steps(rs, conditions)).rollouts == WithRollouts(w.rollouts, rs)
  {
    if rs != [] {
      var n := |rs| - 1;
      StepsLive(w, rs[..n], conditions);
      var before := Steps(rs[..n], conditions);
      assert rs[n] in rs;
      RunSnoc(w, before, Created(rs[n], Applied));
      if rs[n].id in conditions {
        var wait := Waited(rs[n].id, StrictestOf(conditions[rs[n].id]), true);
        RunSnoc(w, before + [Created(rs[n], Applied)], wait);
        assert Steps(rs, conditions) == before + [Created(rs[n], Applied)] + [wait];
      } else {
        assert Steps(rs, conditions) == before + [Created(rs[n], Applied)];
      }
    }
  }

  /** The rollouts on record once the given creates have succeeded in turn. */
  function WithRollouts(m: map<Id, Rollout>, rs: seq<Request>): map<Id, Rollout>
    requires forall r :: r in rs ==> r.Create?
  {
    if rs == [] then m
    else WithRollouts(m, rs[..|rs| - 1])[rs[|rs| - 1].id := RolloutOf(rs[|rs| - 1], true)]
  }

  predicate AllRemoved(es: seq<Event>) {
    forall i :: 0 <= i < |es| ==> es[i].Deleted? && es[i].deleted.Removed?
  }

  function RemovedIds(es: seq<Event>): set<Id> {
    if es == [] then {}
    else
      var e := es[|es| - 1];
      RemovedIds(es[..|es| - 1]) + (if e.Deleted? && e.deleted.Removed? then {e.id} else {})
  }

  /** Successful deletes take their subjects out of the live set and drop the links that leave them. */
  lemma {:induction false} RemovedEffect(w: World, es: seq<Event>)
    ensures Run(w, es).links == set l | l in w.links && l.0 !in RemovedIds(es)
    ensures AllRemoved(es) ==> Run(w, es).live == w.live - RemovedIds(es) && Run(w, es).rollouts == w.rollouts
  {
    if es != [] {
      RemovedEffect(w, es[..|es| - 1]);
    }
  }

  lemma {:induction false} RollbackIds(back: seq<Event>, rs: seq<Request>, m: nat, k: nat)
    requires m <= |rs| && k <= m && |back| == m && AllRemoved(back)
    requires forall i :: 0 <= i < m ==> back[i].id == rs[m - 1 - i].id
    ensures RemovedIds(back[..k]) + IdSet(rs[..m - k]) == IdSet(rs[..m])
  {
    if k > 0 {
      RollbackIds(back, rs, m, k - 1);
      assert back[..k][..k - 1] == back[..k - 1];
      assert rs[..m - k + 1][..m - k] == rs[..m - k];
    }
  }

  /** The live set just before the rollback, when a failed create changed nothing. */
  ghost predicate FailedCreateHadNoEffect(w: World, rs: seq<Request>, m: nat, end: CreateEnd) {
    end.CreateFailed? && end.outcome.ApplyFailed? && m < |rs| ==>
      (end.outcome.liveAfter <==> rs[m].id in w.live + IdSet(rs[..m]))
  }

  lemma {:induction false} ForwardLive(w: World, fwd: seq<Event>, rs: seq<Request>, conditions: ConditionMap, m: nat,
                                       end: CreateEnd)
    requires forall r :: r in rs ==> r.Create?
    requires CreateRun(fwd, rs, conditions, m, end) && FailedCreateHadNoEffect(w, rs, m, end)
    ensures Run(w, fwd).live == w.live + IdSet(rs[..m])
  {
    var done := Events.Ready(rs, m, end);
    StepsLive(w, done, conditions);
    var steps := Steps(done, conditions);
    match end
    case Completed => assert rs[..m] == rs;
    case Cancelled =>
    case CreateFailed(o) =>
      CreateFailedLive(w, steps, rs, m, o);
    case WaitFailed =>
      var c, wait := Created(rs[m - 1], Applied), Waited(rs[m - 1].id, StrictestOf(conditions[rs[m - 1].id]), false);
      assert rs[m - 1] in rs;
      CreatedThenWaited(w, steps, c, wait);
      assert rs[..m] == rs[..m - 1] + [rs[m - 1]];
      IdSetSnoc(rs[..m - 1], rs[m - 1]);
  }

  lemma {:induction false} CreateFailedLive(w: World, steps: seq<Event>, rs: seq<Request>, m: nat, o: CreateOutcome)
    requires m < |rs| && rs[m].Create? && !o.Applied? && Run(w, steps).live == w.live + IdSet(rs[..m])
    requires o.ApplyFailed? ==> (o.liveAfter <==> rs[m].id in w.live + IdSet(rs[..m]))
    ensures Run(w, steps + [Created(rs[m], o)]).live == w.live + IdSet(rs[..m])
  {
    RunSnoc(w, steps, Created(rs[m], o));
  }

  lemma {:induction false} CreatedThenWaited(w: World, steps: seq<Event>, c: Event, wait: Event)
    requires c.Created? && c.request.Create? && c.created.Applied? && wait.Waited?
    ensures Run(w, steps + [c, wait]).live == Run(w, steps).live + {c.request.id}
  {
    RunSnoc(w, steps, c);
    RunSnoc(w, steps + [c], wait);
    assert steps + [c, wait] == steps + [c] + [wait];
  }

  /**
   * When the run fails, every rollback delete succeeds and the failed create left nothing changed, the live
   * set loses exactly what this run had created; so it is back to what it was iff none of that was live before.
   */
  lemma {:induction false} RollbackRestores(w: World, fwd: seq<Event>, back: seq<Event>, rs: seq<Request>,
                                            conditions: ConditionMap, m: nat, end: CreateEnd)
    requires forall r :: r in rs ==> r.Create?
    requires CreateRun(fwd, rs, conditions, m, end) && RollbackRun(back, rs, m, end) && !end.Completed?
    requires FailedCreateHadNoEffect(w, rs, m, end) && AllRemoved(back)
    ensures Run(w, fwd + back).live == w.live - IdSet(rs[..m])
    ensures Run(w, fwd + back).live == w.live <==> w.live !! IdSet(rs[..m])
  {
    ForwardLive(w, fwd, rs, conditions, m, end);
    RunConcat(w, fwd, back);
    RemovedEffect(Run(w, fwd), back);
    RollbackIds(back, rs, m, m);
    assert back[..m] == back && rs[..0] == [];
  }
}
