/** What a plan does when applied, and what planning again afterwards finds. */
module PlanLaws {
  import opened Ordering
  import opened Graphs
  import opened Kahn
  import opened Requests
  import opened TopoSort
  import opened Store
  import opened Deployments
  import opened Conditions
  import opened Events
  import opened Safety
  import opened Engine
  import opened Planning

  // ---- Requests and bodies by id ----

  function BodiesOf(creates: seq<Request>): map<Id, Body>
    requires AllCreates(creates)
  {
    if creates == [] then map[]
    else BodiesOf(creates[..|creates| - 1])[creates[|creates| - 1].id := creates[|creates| - 1].body]
  }

  lemma {:induction false} BodiesKeys(creates: seq<Request>)
    requires AllCreates(creates)
    ensures BodiesOf(creates).Keys == IdSet(creates) && FirstBodies(creates).Keys == IdSet(creates)
  {
    if creates != [] { BodiesKeys(creates[..|creates| - 1]); }
  }

  /** The body first desired under each id: the one compared with what is on record. */
  function FirstBodies(creates: seq<Request>): map<Id, Body>
    requires AllCreates(creates)
  {
    if creates == [] then map[]
    else
      var before, r := FirstBodies(creates[..|creates| - 1]), creates[|creates| - 1];
      if r.id in before then before else before[r.id := r.body]
  }

  lemma {:induction false} RepeatedSnoc(creates: seq<Request>, r: Request)
    ensures forall x :: Repeated(creates + [r], x) <==> Repeated(creates, x) || (x == r.id && x in IdSet(creates))
  {
    assert (creates + [r])[..|creates|] == creates;
  }

  /** Desired once, the first body and the last are the same. */
  lemma {:induction false} OnceFirstIsLast(creates: seq<Request>, x: Id)
    requires AllCreates(creates) && x in IdSet(creates) && !Repeated(creates, x)
    ensures x in FirstBodies(creates) && x in BodiesOf(creates) && FirstBodies(creates)[x] == BodiesOf(creates)[x]
  {
    var n := |creates| - 1;
    BodiesKeys(creates[..n]);
    if creates[n].id != x {
      OnceFirstIsLast(creates[..n], x);
    }
  }

  lemma {:induction false} BodiesSnoc(creates: seq<Request>, r: Request)
    requires AllCreates(creates) && r.Create?
    ensures AllCreates(creates + [r]) && BodiesOf(creates + [r]) == BodiesOf(creates)[r.id := r.body]
    ensures FirstBodies(creates + [r])
         == if r.id in IdSet(creates) then FirstBodies(creates) else FirstBodies(creates)[r.id := r.body]
  {
    assert (creates + [r])[..|creates|] == creates;
    BodiesKeys(creates);
  }

  lemma {:induction false} DistinctInit(rs: seq<Request>)
    requires rs != [] && DistinctIds(rs)
    ensures DistinctIds(rs[..|rs| - 1]) && rs[|rs| - 1].id !in IdSet(rs[..|rs| - 1])
  {
    var n := |rs| - 1;
    var t := rs[..n];
    IdSetOfIds(t);
    assert forall i :: 0 <= i < n ==> Ids(t)[i] == Ids(rs)[i];
    assert forall i :: 0 <= i < n ==> Ids(rs)[i] != Ids(rs)[n];
  }

  lemma {:induction false} DistinctSnoc(rs: seq<Request>, r: Request)
    requires DistinctIds(rs) && r.id !in IdSet(rs)
    ensures DistinctIds(rs + [r])
  {
    IdsSnoc(rs, r);
    IdSetOfIds(rs);
    assert forall i :: 0 <= i < |rs| ==> Ids(rs)[i] in ToSet(Ids(rs));
  }

  lemma {:induction false} SplitConcat(a: seq<Request>, b: seq<Request>)
    ensures Creates(a + b) == Creates(a) + Creates(b)
    ensures Deletes(a + b) == Deletes(a) + Deletes(b)
  {
    if b == [] {
      assert a + b == a;
    } else {
      var n := |b| - 1;
      assert (a + b)[..|a| + n] == a + b[..n];
      SplitConcat(a, b[..n]);
    }
  }

  lemma {:induction false} IdSetConcat(a: seq<Request>, b: seq<Request>)
    ensures IdSet(a + b) == IdSet(a) + IdSet(b)
  {
    if b == [] {
      assert a + b == a;
    } else {
      var n := |b| - 1;
      assert (a + b)[..|a| + n] == a + b[..n];
      IdSetConcat(a, b[..n]);
    }
  }

  // ---- What the plan asks for ----

  /** A desired resource on record whose body differs. */
  predicate Changed(norm: Normaliser, current: Rollouts, desired: map<Id, Body>, x: Id) {
    x in desired && x in current && !BodyEqual(norm, desired[x], current[x].body)
  }

  /** Creates are for what is new, changed or repeated, deletes for what changed. */
  ghost predicate PlanParts(norm: Normaliser, current: Rollouts, creates: seq<Request>, dels: seq<Request>, cres: seq<Request>)
    requires AllCreates(creates)
  {
    && AllCreates(cres) && DistinctIds(dels)
    && (forall x :: x in IdSet(dels) <==> x in IdSet(creates) && Changed(norm, current, FirstBodies(creates), x))
    && (forall x :: x in IdSet(cres) <==> x in IdSet(creates) && Remade(norm, current, creates, x))
    && (forall x :: x in BodiesOf(cres) ==> x in BodiesOf(creates) && BodiesOf(cres)[x] == BodiesOf(creates)[x])
  }

  predicate Remade(norm: Normaliser, current: Rollouts, creates: seq<Request>, x: Id)
    requires AllCreates(creates)
  {
    x !in current || Changed(norm, current, FirstBodies(creates), x) || Repeated(creates, x)
  }

  lemma {:induction false} DesiredPart(norm: Normaliser, current: Rollouts, creates: seq<Request>)
    requires AllCreates(creates)
    ensures var rs := RequestsFor(norm, current, creates);
      PlanParts(norm, current, creates, Deletes(rs), Creates(rs))
  {
    if creates != [] {
      var n := |creates| - 1;
      var init, r := creates[..n], creates[n];
      DesiredPart(norm, current, init);
      assert creates == init + [r];
      DesiredPartNext(norm, current, init, r);
    }
  }

  lemma {:induction false} DesiredPartNext(norm: Normaliser, current: Rollouts, init: seq<Request>, r: Request)
    requires AllCreates(init) && r.Create?
    requires var rs := RequestsFor(norm, current, init); PlanParts(norm, current, init, Deletes(rs), Creates(rs))
    ensures AllCreates(init + [r])
    ensures var rs := RequestsFor(norm, current, init + [r]); PlanParts(norm, current, init + [r], Deletes(rs), Creates(rs))
  {
    PlanNext(norm, current, init, r);
    DesiredNext(norm, current, init, r, RequestsFor(norm, current, init), RequestsFor(norm, current, init + [r]));
  }

  lemma {:induction false} DesiredNext(norm: Normaliser, current: Rollouts, init: seq<Request>, r: Request,
                                       rs: seq<Request>, next: seq<Request>)
    requires AllCreates(init) && r.Create? && PlanParts(norm, current, init, Deletes(rs), Creates(rs))
    requires next == rs + RequestsOf(Decide(norm, Unclaimed(current, init), r), r)
    ensures AllCreates(init + [r]) && PlanParts(norm, current, init + [r], Deletes(next), Creates(next))
  {
    match Decide(norm, Unclaimed(current, init), r)
    case ToCreate =>
      OneCreateMore(rs, r);
      if r.id in IdSet(init) {
        PartsRepeated(norm, current, init, r, Deletes(rs), Creates(rs));
      } else {
        PartsNew(norm, current, init, r, Deletes(rs), Creates(rs));
      }
    case ToUpdate =>
      SplitTwo(Delete(r.id, r.key), r);
      SplitConcat(rs, [Delete(r.id, r.key), r]);
      PartsChanged(norm, current, init, r, Deletes(rs), Creates(rs));
    case NoOp =>
      assert rs + [] == rs;
      PartsSame(norm, current, init, r, Deletes(rs), Creates(rs));
  }

  lemma {:induction false} OneCreateMore(rs: seq<Request>, r: Request)
    requires r.Create?
    ensures Creates(rs + [r]) == Creates(rs) + [r] && Deletes(rs + [r]) == Deletes(rs)
  {
    SplitOne(r);
    SplitConcat(rs, [r]);
    assert Deletes(rs) + [] == Deletes(rs);
  }

  lemma {:induction false} ChangedNext(norm: Normaliser, current: Rollouts, init: seq<Request>, r: Request)
    requires AllCreates(init) && r.Create?
    ensures AllCreates(init + [r]) && IdSet(init + [r]) == IdSet(init) + {r.id}
    ensures BodiesOf(init + [r]) == BodiesOf(init)[r.id := r.body]
    ensures forall x :: x != r.id || x in IdSet(init) ==>
      (Changed(norm, current, FirstBodies(init + [r]), x) <==> Changed(norm, current, FirstBodies(init), x))
    ensures r.id !in IdSet(init) ==>
      (Changed(norm, current, FirstBodies(init + [r]), r.id) <==> r.id in current && !BodyEqual(norm, r.body, current[r.id].body))
    ensures forall x :: Repeated(init + [r], x) <==> Repeated(init, x) || (x == r.id && x in IdSet(init))
  {
    BodiesSnoc(init, r);
    IdSetSnoc(init, r);
    RepeatedSnoc(init, r);
  }

  lemma {:induction false} RepeatedIsDesired(creates: seq<Request>, x: Id)
    requires Repeated(creates, x)
    ensures x in IdSet(creates)
  {
    var n := |creates| - 1;
    if Repeated(creates[..n], x) {
      RepeatedIsDesired(creates[..n], x);
    }
  }

  /** One create more. */
  lemma {:induction false} CreatesNext(cres: seq<Request>, r: Request)
    requires AllCreates(cres) && r.Create?
    ensures AllCreates(cres + [r]) && IdSet(cres + [r]) == IdSet(cres) + {r.id}
    ensures BodiesOf(cres + [r]) == BodiesOf(cres)[r.id := r.body]
  {
    IdSetSnoc(cres, r);
    BodiesSnoc(cres, r);
  }

  lemma {:induction false} PartsNew(norm: Normaliser, current: Rollouts, init: seq<Request>, r: Request,
                                    dels: seq<Request>, cres: seq<Request>)
    requires AllCreates(init) && r.Create? && r.id !in IdSet(init) && PlanParts(norm, current, init, dels, cres)
    requires r.id !in current
    ensures AllCreates(init + [r]) && PlanParts(norm, current, init + [r], dels, cres + [r])
  {
    ChangedNext(norm, current, init, r);
    CreatesNext(cres, r);
  }

  lemma {:induction false} PartsRepeated(norm: Normaliser, current: Rollouts, init: seq<Request>, r: Request,
                                         dels: seq<Request>, cres: seq<Request>)
    requires AllCreates(init) && r.Create? && r.id in IdSet(init) && PlanParts(norm, current, init, dels, cres)
    ensures AllCreates(init + [r]) && PlanParts(norm, current, init + [r], dels, cres + [r])
  {
    ChangedNext(norm, current, init, r);
    CreatesNext(cres, r);
  }

  lemma {:induction false} PartsChanged(norm: Normaliser, current: Rollouts, init: seq<Request>, r: Request,
                                        dels: seq<Request>, cres: seq<Request>)
    requires AllCreates(init) && r.Create? && r.id !in IdSet(init) && PlanParts(norm, current, init, dels, cres)
    requires r.id in current && !BodyEqual(norm, r.body, current[r.id].body)
    ensures AllCreates(init + [r]) && PlanParts(norm, current, init + [r], dels + [Delete(r.id, r.key)], cres + [r])
  {
    ChangedNext(norm, current, init, r);
    DistinctSnoc(dels, Delete(r.id, r.key));
    IdSetSnoc(dels, Delete(r.id, r.key));
    CreatesNext(cres, r);
  }

  lemma {:induction false} PartsSame(norm: Normaliser, current: Rollouts, init: seq<Request>, r: Request,
                                     dels: seq<Request>, cres: seq<Request>)
    requires AllCreates(init) && r.Create? && r.id !in IdSet(init) && PlanParts(norm, current, init, dels, cres)
    requires r.id in current && BodyEqual(norm, r.body, current[r.id].body)
    ensures AllCreates(init + [r]) && PlanParts(norm, current, init + [r], dels, cres)
  {
    ChangedNext(norm, current, init, r);
    BodiesKeys(cres);
    forall x | Repeated(init, x) ensures x != r.id { RepeatedIsDesired(init, x); }
  }

  lemma {:induction false} SplitOne(r: Request)
    requires r.Create?
    ensures Creates([r]) == [r] && Deletes([r]) == []
  {
    assert [r][..0] == [];
  }

  lemma {:induction false} SplitTwo(d: Request, r: Request)
    requires d.Delete? && r.Create?
    ensures Creates([d, r]) == [r] && Deletes([d, r]) == [d]
  {
    assert [d, r] == [d] + [r] && [d][..0] == [];
    SplitOne(r);
    SplitConcat([d], [r]);
  }

  lemma {:induction false} DestroyPart(current: Rollouts, ids: seq<Id>)
    requires NoDuplicates(ids) && forall id :: id in ids ==> id in current
    ensures var rs := DestroyRequests(current, ids);
      Creates(rs) == [] && Deletes(rs) == rs && Ids(rs) == ids
  {
    if ids != [] {
      var n := |ids| - 1;
      DestroyPart(current, ids[..n]);
      var rs := DestroyRequests(current, ids[..n]);
      var d := Delete(ids[n], current[ids[n]].key);
      assert (rs + [d])[..|rs|] == rs;
      IdsSnoc(rs, d);
    }
  }

  /** The ids a plan deletes and creates. */
  lemma {:induction false} PlannedIds(norm: Normaliser, current: Rollouts, creates: seq<Request>)
    requires AllCreates(creates)
    ensures var rs := PlannedRequests(norm, current, creates);
      && (forall x :: x in IdSet(Deletes(rs)) <==> Leaves(norm, current, creates, x))
      && (forall x :: x in IdSet(Creates(rs)) <==> x in IdSet(creates) && Remade(norm, current, creates, x))
      && Creates(rs) == Creates(RequestsFor(norm, current, creates))
  {
    var a, ids := RequestsFor(norm, current, creates), Orphans(current, creates);
    var b := DestroyRequests(current, ids);
    DesiredPart(norm, current, creates);
    DestroyPart(current, ids);
    SplitConcat(a, b);
    IdSetConcat(Deletes(a), Deletes(b));
    IdSetOfIds(b);
    assert Creates(a) + [] == Creates(a);
    assert forall x :: x in ToSet(ids) <==> x in ids;
  }

  /** A resource on record that is dropped, or whose first desired body differs. */
  ghost predicate Leaves(norm: Normaliser, current: Rollouts, creates: seq<Request>, x: Id)
    requires AllCreates(creates)
  {
    x in current && (x !in IdSet(creates) || Changed(norm, current, FirstBodies(creates), x))
  }

  // ---- Diff and patch ----

  /** Performing deletes, then creates, on a map from ids to bodies. */
  ghost function Patch(m: map<Id, Body>, requests: seq<Request>): map<Id, Body>
    requires AllCreates(Creates(requests))
  {
    (m - IdSet(Deletes(requests))) + BodiesOf(Creates(requests))
  }

  function RecordedBodies(current: Rollouts): map<Id, Body> {
    map x | x in current :: current[x].body
  }

  /** On record, desired once, and equal to what is desired. */
  predicate Settled(norm: Normaliser, current: Rollouts, creates: seq<Request>, x: Id)
    requires AllCreates(creates)
  {
    x in current && x in BodiesOf(creates) && !Repeated(creates, x) && BodyEqual(norm, BodiesOf(creates)[x], current[x].body)
  }

  /**
   * The patched map has exactly the desired ids, with the body last desired under each; only what is on record,
   * desired once and equal keeps its body, and exactly that is not created again.
   */
  lemma {:induction false} PlanReachesDesired(norm: Normaliser, current: Rollouts, creates: seq<Request>)
    requires AllCreates(creates)
    ensures AllCreates(Creates(PlannedRequests(norm, current, creates)))
    ensures var rs, desired := PlannedRequests(norm, current, creates), BodiesOf(creates);
      var after := Patch(RecordedBodies(current), rs);
      && after.Keys == desired.Keys
      && (forall x :: x in desired ==>
            if Settled(norm, current, creates, x)
            then after[x] == current[x].body && x !in IdSet(Deletes(rs)) && x !in IdSet(Creates(rs))
            else after[x] == desired[x] && x in IdSet(Creates(rs)))
  {
    var rs, desired := PlannedRequests(norm, current, creates), BodiesOf(creates);
    CreatesAreCreates(rs);
    var after := Patch(RecordedBodies(current), rs);
    forall x
      ensures x in after <==> x in desired
      ensures x in desired ==>
        if Settled(norm, current, creates, x)
        then after[x] == current[x].body && x !in IdSet(Deletes(rs)) && x !in IdSet(Creates(rs))
        else after[x] == desired[x] && x in IdSet(Creates(rs))
    {
      PatchAt(norm, current, creates, x);
    }
  }

  /** What is not created again is exactly what is settled. */
  lemma {:induction false} RemadeIffUnsettled(norm: Normaliser, current: Rollouts, creates: seq<Request>, x: Id)
    requires AllCreates(creates) && x in IdSet(creates)
    ensures Remade(norm, current, creates, x) <==> !Settled(norm, current, creates, x)
  {
    BodiesKeys(creates);
    if !Repeated(creates, x) {
      OnceFirstIsLast(creates, x);
    }
  }

  lemma {:induction false} PatchAt(norm: Normaliser, current: Rollouts, creates: seq<Request>, x: Id)
    requires AllCreates(creates) && AllCreates(Creates(PlannedRequests(norm, current, creates)))
    ensures var rs, desired := PlannedRequests(norm, current, creates), BodiesOf(creates);
      var after := Patch(RecordedBodies(current), rs);
      && (x in after <==> x in desired)
      && (x in desired ==>
            if Settled(norm, current, creates, x)
            then after[x] == current[x].body && x !in IdSet(Deletes(rs)) && x !in IdSet(Creates(rs))
            else after[x] == desired[x] && x in IdSet(Creates(rs)))
  {
    PlannedIds(norm, current, creates);
    DesiredPart(norm, current, creates);
    BodiesKeys(creates);
    BodiesKeys(Creates(PlannedRequests(norm, current, creates)));
    if x in IdSet(creates) {
      RemadeIffUnsettled(norm, current, creates, x);
    }
  }

  /** Two bodies are the same text once normalised: the source compares nothing else. */
  predicate SameText(norm: Normaliser, a: Body, b: Body) {
    a == b == "" || (a != "" && b != "" && norm(a).Some? && norm(a) == norm(b))
  }

  /** A resource on record is deleted exactly when it is not desired, or the text first desired differs. */
  lemma {:induction false} DeletedIffTextDiffers(norm: Normaliser, current: Rollouts, creates: seq<Request>, x: Id)
    requires AllCreates(creates) && x in current
    ensures x in IdSet(creates) ==> x in FirstBodies(creates)
    ensures x in IdSet(Deletes(PlannedRequests(norm, current, creates))) <==>
      x !in IdSet(creates) || !SameText(norm, FirstBodies(creates)[x], current[x].body)
  {
    PlannedIds(norm, current, creates);
    BodiesKeys(creates);
  }

  /** So for valid bodies desired once, exactly when the normalised texts differ. */
  lemma {:induction false} UpdatedIffTextDiffers(norm: Normaliser, current: Rollouts, creates: seq<Request>, x: Id)
    requires AllCreates(creates) && x in IdSet(creates) && !Repeated(creates, x) && x in current
    requires x in BodiesOf(creates) && BodiesOf(creates)[x] != "" && current[x].body != "" && norm(current[x].body).Some?
    ensures x in IdSet(Deletes(PlannedRequests(norm, current, creates))) <==>
      norm(BodiesOf(creates)[x]) != norm(current[x].body)
  {
    DeletedIffTextDiffers(norm, current, creates, x);
    OnceFirstIsLast(creates, x);
  }

  /** What the patched map holds is the text desired last, or the same text normalised. */
  lemma {:induction false} PatchedTexts(norm: Normaliser, current: Rollouts, creates: seq<Request>, x: Id)
    requires AllCreates(creates) && x in IdSet(creates)
    ensures AllCreates(Creates(PlannedRequests(norm, current, creates))) && x in BodiesOf(creates)
    ensures var patched := Patch(RecordedBodies(current), PlannedRequests(norm, current, creates));
      x in patched && (patched[x] == BodiesOf(creates)[x] || SameText(norm, patched[x], BodiesOf(creates)[x]))
  {
    PlanReachesDesired(norm, current, creates);
    BodiesKeys(creates);
  }

  /**
   * A plan creates only what is desired; what it deletes carries the key on record if it is dropped, and the
   * desired key if it is replaced.
   */
  lemma {:induction false} PlannedKeys(norm: Normaliser, current: Rollouts, creates: seq<Request>, r: Request)
    requires AllCreates(creates) && r in PlannedRequests(norm, current, creates)
    ensures match r
      case Create(_, _, _) => r in creates
      case Delete(id, key) =>
        if id in IdSet(creates) then exists c :: c in creates && c.id == id && c.key == key
        else id in current && key == current[id].key
      case Status(_, _) => false
  {
    if r in RequestsFor(norm, current, creates) {
      DesiredKeys(norm, current, creates, r);
    } else {
      DestroyedKeys(current, Orphans(current, creates), r);
    }
  }

  lemma {:induction false} DestroyedKeys(current: Rollouts, ids: seq<Id>, r: Request)
    requires (forall id :: id in ids ==> id in current) && r in DestroyRequests(current, ids)
    ensures r.Delete? && r.id in ids && r.key == current[r.id].key
  {
    var n := |ids| - 1;
    assert ids == ids[..n] + [ids[n]];
    if r != Delete(ids[n], current[ids[n]].key) {
      DestroyedKeys(current, ids[..n], r);
    }
  }

  lemma {:induction false} DesiredKeys(norm: Normaliser, current: Rollouts, creates: seq<Request>, r: Request)
    requires AllCreates(creates) && r in RequestsFor(norm, current, creates)
    ensures r.id in IdSet(creates)
    ensures if r.Create? then r in creates else r.Delete? && exists c :: c in creates && c.id == r.id && c.key == r.key
  {
    var n := |creates| - 1;
    var init, c := creates[..n], creates[n];
    assert creates == init + [c] && c in creates;
    if r in RequestsFor(norm, current, init) {
      DesiredKeys(norm, current, init, r);
      if !r.Create? {
        var d :| d in init && d.id == r.id && d.key == r.key;
        assert d in creates;
      }
    } else {
      assert r == c || r == Delete(c.id, c.key);
    }
  }

  /** What each action says about its resource, in terms of what is on record. */
  lemma {:induction false} ActionMeans(norm: Normaliser, current: Rollouts, creates: seq<Request>, i: nat)
    requires AllCreates(creates) && i < |creates|
    ensures i < |PlannedActions(norm, current, creates)| && AllCreates(creates[..i])
    ensures var a, r := PlannedActions(norm, current, creates)[i], creates[i];
      && a.id == r.id && a.key == r.key && !a.kind.ToDestroy?
      && (a.kind.ToCreate? <==> r.id !in current || r.id in IdSet(creates[..i]))
      && (a.kind.NoOp? <==> !a.kind.ToCreate? && SameText(norm, r.body, current[r.id].body))
  {
    ActionAt(norm, current, creates, i);
    assert PlannedActions(norm, current, creates)[i] == ActionsFor(norm, current, creates)[i];
  }

  /** After the desired resources, one destroy for each rollout nobody desires, in id order, under the key on record. */
  lemma {:induction false} DestroyMeans(norm: Normaliser, current: Rollouts, creates: seq<Request>)
    requires AllCreates(creates)
    ensures DestroysInOrder(current, IdSet(creates), PlannedActions(norm, current, creates)[|creates|..])
  {
    var ids := Orphans(current, creates);
    var rest := DestroyActions(current, ids);
    assert PlannedActions(norm, current, creates)[|creates|..] == rest;
    DestroyedAt(current, ids);
    InOrderSorted(Unclaimed(current, creates).Keys);
    InOrderElements(Unclaimed(current, creates).Keys);
    AreDestroys(current, IdSet(creates), ids, rest);
  }

  ghost predicate DestroysInOrder(current: Rollouts, desired: set<Id>, rest: seq<Action>) {
    && (forall k :: 0 <= k < |rest| ==>
          rest[k].kind == ToDestroy && rest[k].id in current && rest[k].key == current[rest[k].id].key)
    && (forall j, k :: 0 <= j < k < |rest| ==> Less(rest[j].id, rest[k].id))
    && (forall x :: x in current && x !in desired <==> exists k :: 0 <= k < |rest| && rest[k].id == x)
  }

  lemma {:induction false} AreDestroys(current: Rollouts, desired: set<Id>, ids: seq<Id>, rest: seq<Action>)
    requires Sorted(ids) && NoDuplicates(ids) && forall x :: x in ids <==> x in current && x !in desired
    requires |rest| == |ids|
    requires forall k :: 0 <= k < |ids| ==> ids[k] in ids && rest[k] == Action(ToDestroy, ids[k], current[ids[k]].key)
    ensures DestroysInOrder(current, desired, rest)
  {
    forall x ensures x in current && x !in desired <==> exists k :: 0 <= k < |rest| && rest[k].id == x {
      if x in ids {
        var k :| 0 <= k < |ids| && ids[k] == x;
        assert rest[k].id == x;
      }
      if k :| 0 <= k < |rest| && rest[k].id == x {
        assert ids[k] in ids;
      }
    }
  }

  lemma {:induction false} DestroyedAt(current: Rollouts, ids: seq<Id>)
    requires forall id :: id in ids ==> id in current
    ensures forall k :: 0 <= k < |ids| ==>
      ids[k] in ids && DestroyActions(current, ids)[k] == Action(ToDestroy, ids[k], current[ids[k]].key)
  {
    if ids != [] {
      var n := |ids| - 1;
      DestroyedAt(current, ids[..n]);
      assert forall k :: 0 <= k < n ==> ids[k] == ids[..n][k];
      assert forall k :: 0 <= k < n ==> DestroyActions(current, ids)[k] == DestroyActions(current, ids[..n])[k];
    }
  }

  /** What is updated is deleted and then made again, one right after the other. */
  lemma {:induction false} UpdatedInTurn(norm: Normaliser, current: Rollouts, creates: seq<Request>, i: nat)
    requires AllCreates(creates) && i < |creates| && PlannedActions(norm, current, creates)[i].kind == ToUpdate
    ensures var rs, r := PlannedRequests(norm, current, creates), creates[i];
      exists k :: 0 < k < |rs| && rs[k - 1] == Delete(r.id, r.key) && rs[k] == r
  {
    var n, all := |creates| - 1, RequestsFor(norm, current, creates);
    var rs := PlannedRequests(norm, current, creates);
    ActionAt(norm, current, creates, i);
    var before := RequestsFor(norm, current, creates[..i]);
    RequestsGrow(norm, current, creates, i);
    assert before + [Delete(creates[i].id, creates[i].key), creates[i]] <= all <= rs;
    assert rs[|before|] == Delete(creates[i].id, creates[i].key) && rs[|before| + 1] == creates[i];
  }

  lemma {:induction false} RequestsGrow(norm: Normaliser, current: Rollouts, creates: seq<Request>, i: nat)
    requires AllCreates(creates) && i < |creates|
    ensures AllCreates(creates[..i])
    ensures RequestsFor(norm, current, creates[..i])
            + RequestsOf(Decide(norm, Unclaimed(current, creates[..i]), creates[i]), creates[i]) <= RequestsFor(norm, current, creates)
  {
    var n := |creates| - 1;
    if i < n {
      RequestsGrow(norm, current, creates[..n], i);
      assert creates[..n][..i] == creates[..i];
    }
  }

  // ---- From plan to apply ----

  lemma {:induction false} DesiredDeletesRecorded(norm: Normaliser, current: Rollouts, creates: seq<Request>)
    requires AllCreates(creates)
    ensures IdSet(Deletes(RequestsFor(norm, current, creates))) <= current.Keys
    ensures forall r :: r in Creates(RequestsFor(norm, current, creates)) ==> r in creates
  {
    if creates != [] {
      var n := |creates| - 1;
      var init, r := creates[..n], creates[n];
      assert creates == init + [r];
      DesiredDeletesRecorded(norm, current, init);
      PlanNext(norm, current, init, r);
      var rs := RequestsFor(norm, current, init);
      var more := RequestsOf(Decide(norm, Unclaimed(current, init), r), r);
      SplitConcat(rs, more);
      IdSetConcat(Deletes(rs), Deletes(more));
      SplitOne(r);
      SplitTwo(Delete(r.id, r.key), r);
      IdSetSnoc([], Delete(r.id, r.key));
      assert [] + [Delete(r.id, r.key)] == [Delete(r.id, r.key)];
    }
  }

  /** A plan computed from the recorded rollouts never makes the reference check crash. */
  lemma {:induction false} PlanNeverCrashes(norm: Normaliser, current: Rollouts, creates: seq<Request>)
    requires AllCreates(creates)
    ensures DeletesHaveRollouts(PlannedRequests(norm, current, creates), current)
  {
    var a, ids := RequestsFor(norm, current, creates), Orphans(current, creates);
    var b := DestroyRequests(current, ids);
    DesiredDeletesRecorded(norm, current, creates);
    DestroyPart(current, ids);
    SplitConcat(a, b);
    IdSetConcat(Deletes(a), Deletes(b));
    IdSetOfIds(b);
  }

  /**
   * The reference check lets a plan delete exactly when no recorded dependent stays behind: changing or
   * dropping a resource is refused as long as a dependent with a rollout is itself unchanged.
   */
  lemma {:induction false} PlanAllowedIffDependentsLeave(norm: Normaliser, current: Rollouts, creates: seq<Request>,
                                                         links: Relation)
    requires AllCreates(creates)
    ensures DeletesAllowed(PlannedRequests(norm, current, creates), links, current) <==>
      forall s, t :: (s, t) in links && Leaves(norm, current, creates, t) && s in current ==> Leaves(norm, current, creates, s)
  {
    PlannedIds(norm, current, creates);
    var ids := IdSet(Deletes(PlannedRequests(norm, current, creates)));
    assert forall x :: x in ids <==> Leaves(norm, current, creates, x);
  }

  /** Every dependency of a resource that is made again is on record or desired. */
  ghost predicate NeedsMet(norm: Normaliser, current: Rollouts, creates: seq<Request>, dependencies: Relation)
    requires AllCreates(creates)
  {
    forall s, t :: (s, t) in dependencies && s in IdSet(creates) && Remade(norm, current, creates, s) ==>
      t in current || t in IdSet(creates)
  }

  /** Every dependent on record of a resource that leaves is itself one that leaves. */
  ghost predicate DependentsLeave(norm: Normaliser, current: Rollouts, creates: seq<Request>, links: Relation)
    requires AllCreates(creates)
  {
    forall s, t :: (s, t) in links && Leaves(norm, current, creates, t) && s in current ==> Leaves(norm, current, creates, s)
  }

  /** The whole reference check, for a plan computed from what is on record. */
  lemma {:induction false} PlanCheckPassesIff(norm: Normaliser, current: Rollouts, creates: seq<Request>,
                                              dependencies: Relation, links: Relation)
    requires AllCreates(creates)
    ensures CheckPasses(PlannedRequests(norm, current, creates), dependencies, links, current) <==>
      NeedsMet(norm, current, creates, dependencies) && DependentsLeave(norm, current, creates, links)
  {
    PlanNeverCrashes(norm, current, creates);
    PlanAllowedIffDependentsLeave(norm, current, creates, links);
    PlannedIds(norm, current, creates);
    var made := IdSet(Creates(PlannedRequests(norm, current, creates)));
    forall t ensures t in current || t in made <==> t in current || t in IdSet(creates) { }
  }

  // ---- Planning again ----

  /** The rollouts that applying every request successfully leaves behind: the last create of an id is recorded, deletes keep their records. */
  ghost predicate FullyApplied(current: Rollouts, requests: seq<Request>, after: Rollouts) {
    && AllCreates(Creates(requests)) && after.Keys == current.Keys + IdSet(Creates(requests))
    && forall x :: x in after ==> after[x] == LastRecorded(current, Creates(requests), x)
  }

  /** What is on record for an id after the given creates. */
  function LastRecorded(current: Rollouts, creates: seq<Request>, x: Id): Rollout
    requires AllCreates(creates) && (x in IdSet(creates) || x in current)
  {
    if x in IdSet(creates) then RolloutOf(LastFor(creates, x), true) else current[x]
  }

  lemma {:induction false} WithRolloutsSound(current: Rollouts, rs: seq<Request>)
    requires forall r :: r in rs ==> r.Create?
    ensures AllCreates(rs)
    ensures var after := WithRollouts(current, rs);
      && after.Keys == current.Keys + IdSet(rs)
      && forall x :: x in after ==> after[x] == LastRecorded(current, rs, x)
  {
    if rs != [] {
      var n := |rs| - 1;
      assert rs == rs[..n] + [rs[n]];
      WithRolloutsSound(current, rs[..n]);
    }
  }

  // ---- The last request of an id survives sorting ----

  lemma {:induction false} LastForConcat(a: seq<Request>, b: seq<Request>, x: Id)
    requires x in IdSet(a) || x in IdSet(b)
    ensures x in IdSet(a + b) && LastFor(a + b, x) == if x in IdSet(b) then LastFor(b, x) else LastFor(a, x)
  {
    IdSetConcat(a, b);
    if b == [] {
      assert a + b == a;
    } else {
      var n := |b| - 1;
      assert (a + b)[..|a| + n] == a + b[..n] && (a + b)[|a| + n] == b[n];
      if b[n].id != x {
        LastForConcat(a, b[..n], x);
      }
    }
  }

  lemma {:induction false} LastForRemainder(rs: seq<Request>, ids: set<Id>, x: Id)
    requires x in IdSet(rs) && x !in ids
    ensures x in IdSet(Remainder(rs, ids)) && LastFor(Remainder(rs, ids), x) == LastFor(rs, x)
  {
    var n := |rs| - 1;
    var before := Remainder(rs[..n], ids);
    RemainderIds(rs, ids);
    if rs[n].id == x {
      assert (before + [rs[n]])[..|before|] == before;
    } else {
      LastForRemainder(rs[..n], ids, x);
      if rs[n].id !in ids {
        assert (before + [rs[n]])[..|before|] == before;
      } else {
        assert before + [] == before;
      }
    }
  }

  /** Whatever the cycles, the last request of an id in the batch is also its last in the sorted order. */
  lemma {:induction false} LastForSorted(rs: seq<Request>, r: Relation, x: Id)
    requires x in IdSet(rs)
    ensures x in IdSet(TopoOrder(rs, r)) && LastFor(TopoOrder(rs, r), x) == LastFor(rs, x)
  {
    var ids := KahnOrder(r, IdSet(rs));
    KahnOrderSound(r, IdSet(rs));
    assert forall y :: y in ids ==> y in ToSet(ids);
    var reps, rest := Representatives(rs, ids), Remainder(rs, ToSet(ids));
    RepresentativeIds(rs, ids);
    IdSetOfIds(reps);
    RemainderIds(rs, ToSet(ids));
    if x !in ids {
      LastForRemainder(rs, ToSet(ids), x);
    }
    LastForConcat(reps, rest, x);
    if x in ids {
      var i :| 0 <= i < |reps| && reps[i] == LastFor(reps, x);
      assert Ids(reps)[i] == ids[i];
    }
  }

  lemma {:induction false} DeletesKeepRollouts(w: World, es: seq<Event>)
    requires forall i :: 0 <= i < |es| ==> es[i].Deleted?
    ensures Run(w, es).rollouts == w.rollouts
  {
    if es != [] { DeletesKeepRollouts(w, es[..|es| - 1]); }
  }

  lemma {:induction false} RemainderIds(rs: seq<Request>, ids: set<Id>)
    ensures IdSet(Remainder(rs, ids)) == IdSet(rs) - ids
  {
    if rs != [] {
      var n := |rs| - 1;
      RemainderIds(rs[..n], ids);
      assert rs == rs[..n] + [rs[n]];
      IdSetSnoc(Remainder(rs[..n], ids), rs[n]);
      assert Remainder(rs[..n], ids) + [] == Remainder(rs[..n], ids);
    }
  }

  /** Sorting keeps the ids of the batch and uses only its requests. */
  lemma {:induction false} TopoOrderIds(rs: seq<Request>, r: Relation)
    ensures IdSet(TopoOrder(rs, r)) == IdSet(rs)
    ensures forall q :: q in TopoOrder(rs, r) ==> q in rs
  {
    var ids := KahnOrder(r, IdSet(rs));
    KahnOrderSound(r, IdSet(rs));
    assert forall x :: x in ids ==> x in ToSet(ids);
    RepresentativeIds(rs, ids);
    IdSetOfIds(Representatives(rs, ids));
    RemainderIds(rs, ToSet(ids));
    RemainderElements(rs, ToSet(ids));
    IdSetConcat(Representatives(rs, ids), Remainder(rs, ToSet(ids)));
  }

  /** Whatever the deletes did, a run that succeeds leaves the fully applied rollouts. */
  lemma {:induction false} SuccessRecordsAll(w: World, requests: seq<Request>, links: Relation, conditions: ConditionMap, run: RunRecord)
    requires ApplyRun(requests, links, conditions, Succeeded, run)
    ensures FullyApplied(w.rollouts, requests, Run(Run(Run(w, run.dels), run.fwd), run.back).rollouts)
  {
    DeletesKeepRollouts(w, run.dels);
    var order := TopoOrder(Creates(requests), links);
    OnlyCreates(requests, links);
    StepsLive(Run(w, run.dels), order, conditions);
    WithRolloutsSound(w.rollouts, order);
    CreatesAreCreates(requests);
    TopoOrderIds(Creates(requests), links);
    forall x | x in IdSet(Creates(requests)) ensures LastFor(order, x) == LastFor(Creates(requests), x) {
      LastForSorted(Creates(requests), links, x);
    }
  }

  /** In field names: what a successful run leaves on record is the last create of the id, marked as succeeded. */
  lemma {:induction false} SuccessIsRecorded(current: Rollouts, requests: seq<Request>, after: Rollouts, x: Id)
    requires FullyApplied(current, requests, after) && x in IdSet(Creates(requests))
    ensures x in after && after[x].id == x && after[x].succeeded
    ensures exists i :: IsRecordOf(requests, i, x, after[x].key, after[x].body)
  {
    LastCreateAt(requests, x);
    var i :| 0 <= i < |requests| && IsLastCreate(requests, i) && requests[i] == LastFor(Creates(requests), x);
    assert IsRecordOf(requests, i, x, after[x].key, after[x].body);
  }

  /** The last create of the id has this key and body. */
  predicate IsRecordOf(requests: seq<Request>, i: nat, x: Id, key: Key, body: Body) {
    IsLastCreate(requests, i) && requests[i].id == x && requests[i].key == key && requests[i].body == body
  }

  predicate IsLastCreate(requests: seq<Request>, i: nat) {
    && i < |requests| && requests[i].Create?
    && forall j :: i < j < |requests| && requests[j].Create? ==> requests[j].id != requests[i].id
  }

  lemma {:induction false} LastCreateAt(requests: seq<Request>, x: Id)
    requires x in IdSet(Creates(requests))
    ensures exists i :: 0 <= i < |requests| && IsLastCreate(requests, i) && requests[i] == LastFor(Creates(requests), x)
  {
    var n := |requests| - 1;
    var init, r := requests[..n], requests[n];
    var before := Creates(init);
    if r.Create? && r.id == x {
      assert IsLastCreate(requests, n);
    } else {
      if r.Create? {
        assert (before + [r])[..|before|] == before;
      } else {
        assert before + [] == before;
      }
      LastCreateAt(init, x);
      var i :| 0 <= i < |init| && IsLastCreate(init, i) && init[i] == LastFor(before, x);
      assert IsLastCreate(requests, i);
    }
  }

  /**
   * A run that stops at a create: what was created before is on record, the one that could not be applied as
   * failed, one that could not be loaded not at all; rolling back takes no record away.
   */
  lemma {:induction false} FailureIsRecorded(w: World, requests: seq<Request>, links: Relation, conditions: ConditionMap, run: RunRecord)
    requires ApplyRun(requests, links, conditions, CreatesFailed, run) && run.end.CreateFailed?
    ensures var order, after := TopoOrder(Creates(requests), links), Run(Run(Run(w, run.dels), run.fwd), run.back).rollouts;
      && run.m < |order| && order[run.m].Create? && (forall r :: r in order[..run.m] ==> r.Create?)
      && var r, before := order[run.m], WithRollouts(w.rollouts, order[..run.m]);
         after == if run.end.outcome.ApplyFailed? then before[r.id := Rollout(r.id, r.key, r.body, false)] else before
  {
    var order := TopoOrder(Creates(requests), links);
    OnlyCreates(requests, links);
    DeletesKeepRollouts(w, run.dels);
    var w' := Run(w, run.dels);
    var done := order[..run.m];
    forall r | r in done ensures r.Create? { assert r in order; }
    StepsLive(w', done, conditions);
    assert order[run.m] in order;
    RunSnoc(w', Steps(done, conditions), Created(order[run.m], run.end.outcome));
    DeletesKeepRollouts(Run(w', run.fwd), run.back);
  }

  lemma {:induction false} BodiesAreLast(creates: seq<Request>, x: Id)
    requires AllCreates(creates) && x in IdSet(creates)
    ensures x in BodiesOf(creates) && LastFor(creates, x).Create? && BodiesOf(creates)[x] == LastFor(creates, x).body
  {
    var n := |creates| - 1;
    assert creates == creates[..n] + [creates[n]];
    if creates[n].id != x {
      BodiesAreLast(creates[..n], x);
    }
  }

  /** After a successful run the bodies on record under the desired ids are those of the patched map. */
  lemma {:induction false} AppliedIsPatched(norm: Normaliser, current: Rollouts, creates: seq<Request>, after: Rollouts)
    requires AllCreates(creates) && FullyApplied(current, PlannedRequests(norm, current, creates), after)
    ensures AllCreates(Creates(PlannedRequests(norm, current, creates)))
    ensures var patched := Patch(RecordedBodies(current), PlannedRequests(norm, current, creates));
      patched.Keys == IdSet(creates) && forall x :: x in patched ==> x in after && after[x].body == patched[x]
  {
    var rs := PlannedRequests(norm, current, creates);
    PlanReachesDesired(norm, current, creates);
    BodiesKeys(creates);
    BodiesKeys(Creates(rs));
    forall x | x in IdSet(Creates(rs)) ensures BodiesOf(Creates(rs))[x] == LastFor(Creates(rs), x).body {
      BodiesAreLast(Creates(rs), x);
    }
  }

  ghost predicate AllNoOp(actions: seq<Action>) {
    forall i :: 0 <= i < |actions| ==> actions[i].kind == NoOp
  }

  lemma {:induction false} ActionAt(norm: Normaliser, current: Rollouts, creates: seq<Request>, i: nat)
    requires AllCreates(creates) && i < |creates|
    ensures AllCreates(creates[..i])
    ensures ActionsFor(norm, current, creates)[i].kind == Decide(norm, Unclaimed(current, creates[..i]), creates[i])
    ensures ActionsFor(norm, current, creates)[i].id == creates[i].id && ActionsFor(norm, current, creates)[i].key == creates[i].key
  {
    var n := |creates| - 1;
    if i < n {
      ActionAt(norm, current, creates[..n], i);
      assert creates[..n][..i] == creates[..i];
    }
  }

  /** Two desired resources under one id: the later one always looks new. */
  lemma {:induction false} RepeatedIdLooksNew(norm: Normaliser, current: Rollouts, creates: seq<Request>)
    requires AllCreates(creates) && !DistinctIds(creates)
    ensures exists i :: 0 <= i < |creates| && ActionsFor(norm, current, creates)[i].kind == ToCreate
  {
    var i, j :| 0 <= i < j < |creates| && Ids(creates)[i] == Ids(creates)[j];
    ActionAt(norm, current, creates, j);
    assert creates[..j][i] == creates[i];
    InIdSet(creates[..j], creates[i]);
  }

  lemma {:induction false} DistinctBody(creates: seq<Request>, r: Request)
    requires AllCreates(creates) && DistinctIds(creates) && r in creates
    ensures r.id in BodiesOf(creates) && BodiesOf(creates)[r.id] == r.body
  {
    var n := |creates| - 1;
    DistinctInit(creates);
    if r != creates[n] {
      assert creates == creates[..n] + [creates[n]];
      DistinctBody(creates[..n], r);
      BodiesKeys(creates[..n]);
    }
  }

  /**
   * Planning the same resources again after they were all applied finds nothing to do exactly when their ids
   * are distinct and every body is empty or valid; and it destroys exactly the orphans it destroyed before.
   */
  lemma {:induction false} ReplanIsStable(norm: Normaliser, current: Rollouts, creates: seq<Request>, after: Rollouts)
    requires AllCreates(creates) && FullyApplied(current, PlannedRequests(norm, current, creates), after)
    ensures AllNoOp(ActionsFor(norm, after, creates)) <==>
            DistinctIds(creates) && forall r :: r in creates ==> SelfEqual(norm, r.body)
    ensures Orphans(after, creates) == Orphans(current, creates)
  {
    if DistinctIds(creates) {
      forall i | 0 <= i < |creates|
        ensures ActionsFor(norm, after, creates)[i].kind == NoOp <==> SelfEqual(norm, creates[i].body)
      {
        ReplanOne(norm, current, creates, after, i);
      }
    } else {
      RepeatedIdLooksNew(norm, after, creates);
    }
    SameOrphans(norm, current, creates, after);
  }

  lemma {:induction false} SameOrphans(norm: Normaliser, current: Rollouts, creates: seq<Request>, after: Rollouts)
    requires AllCreates(creates) && FullyApplied(current, PlannedRequests(norm, current, creates), after)
    ensures Orphans(after, creates) == Orphans(current, creates)
  {
    PlannedCreatesWithin(norm, current, creates);
    assert Unclaimed(after, creates).Keys == Unclaimed(current, creates).Keys;
  }

  lemma {:induction false} PlannedCreatesWithin(norm: Normaliser, current: Rollouts, creates: seq<Request>)
    requires AllCreates(creates)
    ensures forall r :: r in Creates(PlannedRequests(norm, current, creates)) ==> r in creates
    ensures IdSet(Creates(PlannedRequests(norm, current, creates))) <= IdSet(creates)
  {
    var a, ids := RequestsFor(norm, current, creates), Orphans(current, creates);
    var b := DestroyRequests(current, ids);
    DesiredDeletesRecorded(norm, current, creates);
    DestroyPart(current, ids);
    SplitConcat(a, b);
    assert Creates(a) + [] == Creates(a);
    forall x | x in IdSet(Creates(a)) ensures x in IdSet(creates) {
      var i := IdSetMember(Creates(a), x);
      InIdSet(creates, Creates(a)[i]);
    }
  }

  lemma {:induction false} ReplanOne(norm: Normaliser, current: Rollouts, creates: seq<Request>, after: Rollouts, i: nat)
    requires AllCreates(creates) && DistinctIds(creates) && i < |creates|
    requires FullyApplied(current, PlannedRequests(norm, current, creates), after)
    ensures ActionsFor(norm, after, creates)[i].kind == NoOp <==> SelfEqual(norm, creates[i].body)
  {
    var r := creates[i];
    var x, planned := r.id, PlannedRequests(norm, current, creates);
    ActionAt(norm, after, creates, i);
    FreshAt(creates, i);
    PlannedIds(norm, current, creates);
    PlannedCreatesWithin(norm, current, creates);
    DistinctBody(creates, r);
    InIdSet(creates, r);
    assert x in after;
    if x in IdSet(Creates(planned)) {
      DistinctBody(creates, LastFor(Creates(planned), x));
      BodyEqualLaws(norm, r.body, r.body, r.body);
    } else {
      DistinctIsOnce(creates, x);
      RemadeIffUnsettled(norm, current, creates, x);
      BodyEqualLaws(norm, r.body, current[x].body, r.body);
    }
  }

  lemma {:induction false} FreshAt(creates: seq<Request>, i: nat)
    requires DistinctIds(creates) && i < |creates|
    ensures creates[i].id !in IdSet(creates[..i])
  {
    IdSetOfIds(creates[..i]);
    assert forall k :: 0 <= k < i ==> Ids(creates[..i])[k] == Ids(creates)[k] != Ids(creates)[i];
  }

  // ---- Accounting ----

  lemma {:induction false} CountConcat(a: seq<Action>, b: seq<Action>, kind: ActionType)
    ensures CountKind(a + b, kind) == CountKind(a, kind) + CountKind(b, kind)
  {
    if b == [] {
      assert a + b == a;
    } else {
      var n := |b| - 1;
      assert (a + b)[..|a| + n] == a + b[..n];
      CountConcat(a, b[..n], kind);
    }
  }

  lemma {:induction false} DestroyCount(current: Rollouts, ids: seq<Id>, kind: ActionType)
    requires forall id :: id in ids ==> id in current
    ensures CountKind(DestroyActions(current, ids), kind) == if kind == ToDestroy then |ids| else 0
  {
    if ids != [] {
      var n := |ids| - 1;
      DestroyCount(current, ids[..n], kind);
      var before := DestroyActions(current, ids[..n]);
      assert (before + [Action(ToDestroy, ids[n], current[ids[n]].key)])[..n] == before;
    }
  }

  lemma {:induction false} DesiredCount(norm: Normaliser, current: Rollouts, creates: seq<Request>)
    requires AllCreates(creates)
    ensures var actions := ActionsFor(norm, current, creates);
      && CountKind(actions, ToDestroy) == 0
      && CountKind(actions, ToCreate) + CountKind(actions, ToUpdate) + CountKind(actions, NoOp) == |creates|
      && CountKind(actions, ToUpdate) + CountKind(actions, NoOp) == |current.Keys * IdSet(creates)|
  {
    if creates == [] {
      assert current.Keys * IdSet(creates) == {};
    } else {
      var n := |creates| - 1;
      var init, r := creates[..n], creates[n];
      DesiredCount(norm, current, init);
      var last := Action(Decide(norm, Unclaimed(current, init), r), r.id, r.key);
      CountSnoc(ActionsFor(norm, current, init), last, ToCreate);
      CountSnoc(ActionsFor(norm, current, init), last, ToUpdate);
      CountSnoc(ActionsFor(norm, current, init), last, NoOp);
      CountSnoc(ActionsFor(norm, current, init), last, ToDestroy);
      SharedSnoc(current.Keys, IdSet(init), r.id);
    }
  }

  lemma {:induction false} CountSnoc(actions: seq<Action>, a: Action, kind: ActionType)
    ensures CountKind(actions + [a], kind) == CountKind(actions, kind) + (if a.kind == kind then 1 else 0)
  {
    assert (actions + [a])[..|actions|] == actions;
  }

  lemma {:induction false} SharedSnoc(K: set<Id>, S: set<Id>, x: Id)
    ensures |K * (S + {x})| == |K * S| + (if x in K && x !in S then 1 else 0)
  {
    if x in K && x !in S {
      assert K * (S + {x}) == K * S + {x};
    } else {
      assert K * (S + {x}) == K * S;
    }
  }

  lemma {:induction false} SharedAndRest(K: set<Id>, S: set<Id>)
    ensures |K| == |K * S| + |K - S|
  {
    assert K == K * S + (K - S);
  }

  /** A plan's summary accounts for every desired resource once and for every recorded one once. */
  lemma {:induction false} SummaryAccountsForAll(norm: Normaliser, current: Rollouts, creates: seq<Request>)
    requires AllCreates(creates)
    ensures var actions := PlannedActions(norm, current, creates);
      && CountKind(actions, ToCreate) + CountKind(actions, ToUpdate) + CountKind(actions, NoOp) == |creates|
      && CountKind(actions, ToUpdate) + CountKind(actions, NoOp) + CountKind(actions, ToDestroy) == |current|
  {
    var ids := Orphans(current, creates);
    var a, b := ActionsFor(norm, current, creates), DestroyActions(current, ids);
    DesiredCount(norm, current, creates);
    CountConcat(a, b, ToCreate);
    CountConcat(a, b, ToUpdate);
    CountConcat(a, b, NoOp);
    CountConcat(a, b, ToDestroy);
    DestroyCount(current, ids, ToCreate);
    DestroyCount(current, ids, ToUpdate);
    DestroyCount(current, ids, NoOp);
    DestroyCount(current, ids, ToDestroy);
    NoDuplicatesSize(ids);
    assert ToSet(ids) == current.Keys - IdSet(creates);
    SharedAndRest(current.Keys, IdSet(creates));
    assert |current| == |current.Keys|;
  }

  // ---- Links after a run ----

  /**
   * After a run the links on record are those it started from, minus every link that leaves a resource whose
   * delete succeeded. A resource that was updated has been deleted, so nothing it depends on is protected by
   * its links any more, although the run's own ordering still used them.
   */
  lemma {:induction false} LinksAfterRun(w: World, run: RunRecord)
    ensures var after := Run(Run(Run(w, run.dels), run.fwd), run.back).links;
      forall s, t :: (s, t) in after <==> (s, t) in w.links && s !in RemovedIds(run.dels + run.fwd + run.back)
  {
    RunConcat(w, run.dels, run.fwd);
    RunConcat(w, run.dels + run.fwd, run.back);
    RemovedEffect(w, run.dels + run.fwd + run.back);
  }
}
