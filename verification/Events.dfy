/** What an apply run does, event by event, and what each event does to the world. */
module Events {
  import opened Graphs
  import opened Requests
  import opened Store
  import opened Conditions

  datatype CreateOutcome = Applied | NotLoaded | ApplyFailed(liveAfter: bool)

  datatype DeleteOutcome = Removed | DeleteFailed(liveAfter: bool)

  datatype Event =
    | Created(request: Request, created: CreateOutcome)
    | Deleted(id: Id, deleted: DeleteOutcome)
    | Waited(id: Id, condition: Condition, satisfied: bool)

  /** The records kept, and the resources that actually exist. */
  datatype World = World(rollouts: map<Id, Rollout>, links: Relation, live: set<Id>)

  function SetLive(live: set<Id>, id: Id, alive: bool): set<Id> {
    if alive then live + {id} else live - {id}
  }

  function RolloutOf(r: Request, succeeded: bool): Rollout
    requires r.Create?
  {
    Rollout(r.id, r.key, r.body, succeeded)
  }

  /**
   * A create records a rollout, successful or not, unless the subject could not even be loaded. A delete
   * that succeeds drops the links that leave its subject and keeps the rollout; one that fails changes no
   * record. A failed attempt may leave the resource in either state.
   */
  function Effect(w: World, e: Event): World {
    match e
    case Created(r, _) =>
      if !r.Create? || e.created.NotLoaded? then w
      else if e.created.Applied? then
        w.(rollouts := w.rollouts[r.id := RolloutOf(r, true)], live := w.live + {r.id})
      else
        w.(rollouts := w.rollouts[r.id := RolloutOf(r, false)], live := SetLive(w.live, r.id, e.created.liveAfter))
    case Deleted(id, Removed) =>
      w.(links := WithoutSource(w.links, id), live := w.live - {id})
    case Deleted(id, DeleteFailed(liveAfter)) =>
      w.(live := SetLive(w.live, id, liveAfter))
    case Waited(_, _, _) => w
  }

  function Run(w: World, es: seq<Event>): World {
    if es == [] then w else Effect(Run(w, es[..|es| - 1]), es[|es| - 1])
  }

  lemma {:induction false} RunSnoc(w: World, es: seq<Event>, e: Event)
    ensures Run(w, es + [e]) == Effect(Run(w, es), e)
  {
    assert (es + [e])[..|es|] == es;
  }

  lemma {:induction false} RunConcat(w: World, es: seq<Event>, fs: seq<Event>)
    ensures Run(w, es + fs) == Run(Run(w, es), fs)
  {
    if fs == [] {
      assert es + fs == es;
    } else {
      var n := |fs| - 1;
      RunConcat(w, es, fs[..n]);
      assert es + fs == (es + fs[..n]) + [fs[n]];
      RunSnoc(w, es + fs[..n], fs[n]);
    }
  }

  // ---- Shapes of event sequences ----

  /** Deletes attempted for the first so many requests, in order. */
  predicate DeletesInOrder(es: seq<Event>, rs: seq<Request>) {
    |es| <= |rs| && forall i :: 0 <= i < |es| ==> es[i].Deleted? && es[i].id == rs[i].id
  }

  /** One request created, and its strictest condition waited for when dependents impose any. */
  function Step(r: Request, conditions: ConditionMap): seq<Event> {
    [Created(r, Applied)] +
    (if r.id in conditions then [Waited(r.id, StrictestOf(conditions[r.id]), true)] else [])
  }

  function Steps(rs: seq<Request>, conditions: ConditionMap): seq<Event> {
    if rs == [] then [] else Steps(rs[..|rs| - 1], conditions) + Step(rs[|rs| - 1], conditions)
  }

  datatype CreateEnd = Completed | Cancelled | CreateFailed(outcome: CreateOutcome) | WaitFailed

  /** The forward part of a create run that succeeded in creating the first `m` requests. */
  ghost predicate CreateRun(es: seq<Event>, rs: seq<Request>, conditions: ConditionMap, m: nat, end: CreateEnd) {
    && m <= |rs|
    && match end
       case Completed => m == |rs| && es == Steps(rs, conditions)
       case Cancelled => m < |rs| && es == Steps(rs[..m], conditions)
       case CreateFailed(o) => m < |rs| && !o.Applied? && es == Steps(rs[..m], conditions) + [Created(rs[m], o)]
       case WaitFailed =>
         && m > 0 && rs[m - 1].id in conditions
         && es == Steps(rs[..m - 1], conditions)
                + [Created(rs[m - 1], Applied), Waited(rs[m - 1].id, StrictestOf(conditions[rs[m - 1].id]), false)]
  }

  /** The rollback: deletes attempted for exactly the successful creates, last one first. */
  ghost predicate RollbackRun(es: seq<Event>, rs: seq<Request>, m: nat, end: CreateEnd) {
    && m <= |rs|
    && if end.Completed? then es == []
       else |es| == m && forall i :: 0 <= i < m ==> es[i].Deleted? && es[i].id == rs[m - 1 - i].id
  }

  // ---- Where the creates sit in a run ----

  lemma {:induction false} StepsPrefix(rs: seq<Request>, conditions: ConditionMap, a: nat)
    requires a < |rs|
    ensures Steps(rs[..a], conditions) + Step(rs[a], conditions) <= Steps(rs, conditions)
  {
    var n := |rs| - 1;
    if a < n {
      StepsPrefix(rs[..n], conditions, a);
      assert rs[..n][..a] == rs[..a];
    }
  }

  lemma {:induction false} CreatedAt(rs: seq<Request>, conditions: ConditionMap, i: nat) returns (a: nat)
    requires i < |Steps(rs, conditions)| && Steps(rs, conditions)[i].Created?
    ensures a < |rs| && i == |Steps(rs[..a], conditions)| && Steps(rs, conditions)[i] == Created(rs[a], Applied)
  {
    var n := |rs| - 1;
    var before := Steps(rs[..n], conditions);
    if i < |before| {
      a := CreatedAt(rs[..n], conditions, i);
      assert rs[..n][..a] == rs[..a];
    } else {
      a := n;
    }
  }

  /** The requests whose create and wait both succeeded. */
  function Ready(rs: seq<Request>, m: nat, end: CreateEnd): seq<Request>
    requires m <= |rs| && (end.WaitFailed? ==> m > 0)
  {
    match end case Completed => rs case WaitFailed => rs[..m - 1] case _ => rs[..m]
  }

  /** A create, failed or not, comes right after the completed steps of the requests before it. */
  lemma {:induction false} CreateComesAfter(es: seq<Event>, rs: seq<Request>, conditions: ConditionMap, m: nat,
                                            end: CreateEnd, i: nat) returns (a: nat)
    requires CreateRun(es, rs, conditions, m, end) && i < |es| && es[i].Created?
    ensures a < |rs| && es[i].request == rs[a]
    ensures i == |Steps(rs[..a], conditions)| && Steps(rs[..a], conditions) <= es
  {
    var done := Ready(rs, m, end);
    var steps := Steps(done, conditions);
    assert steps <= es;
    if i < |steps| {
      a := CreatedAt(done, conditions, i);
      StepsPrefix(done, conditions, a);
      assert done[..a] == rs[..a];
    } else {
      a := |done|;
      assert done == rs[..a];
    }
  }

  /** Within completed steps, each request was created and then waited for. */
  lemma {:induction false} StepAt(rs: seq<Request>, conditions: ConditionMap, b: nat) returns (j: nat)
    requires b < |rs|
    ensures var s := Steps(rs, conditions);
      && j < |s| && s[j] == Created(rs[b], Applied)
      && (rs[b].id in conditions ==>
            j + 1 < |s| && s[j + 1] == Waited(rs[b].id, StrictestOf(conditions[rs[b].id]), true))
  {
    j := |Steps(rs[..b], conditions)|;
    StepsPrefix(rs, conditions, b);
    var upTo := Steps(rs[..b], conditions) + Step(rs[b], conditions);
    assert upTo[j] == Steps(rs, conditions)[j];
    if rs[b].id in conditions { assert upTo[j + 1] == Steps(rs, conditions)[j + 1]; }
  }
}
