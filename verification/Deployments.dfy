/** A deployment: requests together with the dependency links between their subjects. */
module Deployments {
  import opened Graphs
  import opened Requests
  import opened Store

  function LinkPairs(links: seq<Link>): Relation {
    if links == [] then {}
    else LinkPairs(links[..|links| - 1]) + {(links[|links| - 1].source.id, links[|links| - 1].target.id)}
  }

  lemma {:induction false} LinkPairsMember(links: seq<Link>, a: Id, b: Id)
    ensures (a, b) in LinkPairs(links) <==> exists i :: 0 <= i < |links| && links[i].source.id == a && links[i].target.id == b
  {
    if links != [] {
      var n := |links| - 1;
      LinkPairsMember(links[..n], a, b);
      if i :| 0 <= i < n && links[..n][i].source.id == a && links[..n][i].target.id == b {
        assert links[i].source.id == a;
      }
      if i :| 0 <= i < |links| && links[i].source.id == a && links[i].target.id == b {
        assert i == n || links[..n][i].source.id == a;
      }
    }
  }

  /** Every dependency of a created resource is on record or created by the same deployment. */
  ghost predicate CreatesSatisfied(requests: seq<Request>, dependencies: Relation, rollouts: map<Id, Rollout>) {
    forall s, t :: s in IdSet(Creates(requests)) && (s, t) in dependencies ==>
      t in rollouts || t in IdSet(Creates(requests))
  }

  /** Every recorded dependent of a deleted resource that has a rollout is deleted by the same deployment. */
  ghost predicate DeletesAllowed(requests: seq<Request>, links: Relation, rollouts: map<Id, Rollout>) {
    forall s, t :: t in IdSet(Deletes(requests)) && (s, t) in links && s in rollouts ==> s in IdSet(Deletes(requests))
  }

  /** The check dereferences the rollout of every resource to delete. */
  ghost predicate DeletesHaveRollouts(requests: seq<Request>, rollouts: map<Id, Rollout>) {
    IdSet(Deletes(requests)) <= rollouts.Keys
  }

  predicate Crashes(r: Request, rollouts: map<Id, Rollout>) {
    r.Delete? && r.id !in rollouts
  }

  /** What the check asks of one request. */
  ghost predicate Satisfied(r: Request, requests: seq<Request>, dependencies: Relation, links: Relation,
                            rollouts: map<Id, Rollout>) {
    match r
    case Create(id, _, _) => forall t :: (id, t) in dependencies ==> t in rollouts || t in IdSet(Creates(requests))
    case Delete(id, _) => forall s :: (s, id) in links && s in rollouts ==> s in IdSet(Deletes(requests))
    case Status(_, _) => true
  }

  lemma {:induction false} ChecksTogether(requests: seq<Request>, dependencies: Relation, links: Relation,
                                          rollouts: map<Id, Rollout>)
    ensures (forall k :: 0 <= k < |requests| ==> !Crashes(requests[k], rollouts)) <==>
            DeletesHaveRollouts(requests, rollouts)
    ensures (forall k :: 0 <= k < |requests| ==> Satisfied(requests[k], requests, dependencies, links, rollouts)) <==>
            CreatesSatisfied(requests, dependencies, rollouts) && DeletesAllowed(requests, links, rollouts)
  {
    forall x | x in IdSet(Creates(requests)) ensures exists k :: 0 <= k < |requests| && requests[k].Create? && requests[k].id == x {
      var i := IdSetMember(Creates(requests), x);
      SplitElements(requests);
      assert Creates(requests)[i] in requests;
    }
    forall x | x in IdSet(Deletes(requests)) ensures exists k :: 0 <= k < |requests| && requests[k].Delete? && requests[k].id == x {
      var i := IdSetMember(Deletes(requests), x);
      SplitElements(requests);
      assert Deletes(requests)[i] in requests;
    }
    forall k | 0 <= k < |requests|
      ensures requests[k].Create? ==> requests[k].id in IdSet(Creates(requests))
      ensures requests[k].Delete? ==> requests[k].id in IdSet(Deletes(requests))
    {
      InSplit(requests, requests[k]);
    }
  }

  datatype Checked = Passed | Failed | Crashed

  class Deployment {
    var requests: seq<Request>
    var dependencies: seq<Link>
    var depending: seq<Link>

    constructor ()
      ensures requests == [] && dependencies == [] && depending == []
    {
      requests, dependencies, depending := [], [], [];
    }

    method AddCreation(instance: Reference, body: Body, deps: seq<Reference>)
      modifies this`requests, this`dependencies
      ensures requests == old(requests) + [Create(instance.id, instance.key, body)]
      ensures LinkPairs(dependencies) == old(LinkPairs(dependencies)) + (set t | t in RefIds(deps) :: (instance.id, t))
      ensures |dependencies| == |old(dependencies)| + |deps| && old(dependencies) <= dependencies
      ensures forall i :: 0 <= i < |deps| ==> dependencies[|old(dependencies)| + i] == Link(instance, deps[i])
    {
      requests := requests + [Create(instance.id, instance.key, body)];
      for i := 0 to |deps|
        invariant requests == old(requests) + [Create(instance.id, instance.key, body)]
        invariant LinkPairs(dependencies) == old(LinkPairs(dependencies)) + (set t | t in RefIds(deps[..i]) :: (instance.id, t))
        invariant |dependencies| == |old(dependencies)| + i && old(dependencies) <= dependencies
        invariant forall k :: 0 <= k < i ==> dependencies[|old(dependencies)| + k] == Link(instance, deps[k])
      {
        assert deps[..i + 1] == deps[..i] + [deps[i]];
        RefIdsSnoc(deps[..i], deps[i]);
        var link := Link(instance, deps[i]);
        assert (dependencies + [link])[..|dependencies|] == dependencies;
        dependencies := dependencies + [link];
      }
      assert deps[..|deps|] == deps;
    }

    method AddDeletion(r: Reference)
      modifies this`requests
      ensures requests == old(requests) + [Delete(r.id, r.key)]
    {
      requests := requests + [Delete(r.id, r.key)];
    }

    method HasCreate(id: Id) returns (found: bool)
      ensures found <==> id in IdSet(Creates(requests))
    {
      for i := 0 to |requests|
        invariant id !in IdSet(Creates(requests[..i]))
      {
        SplitNext(requests, i);
        if requests[i].Create? && requests[i].id == id {
          InSplit(requests, requests[i]);
          return true;
        }
      }
      assert requests[..|requests|] == requests;
      return false;
    }

    method HasDelete(id: Id) returns (found: bool)
      ensures found <==> id in IdSet(Deletes(requests))
    {
      for i := 0 to |requests|
        invariant id !in IdSet(Deletes(requests[..i]))
      {
        SplitNext(requests, i);
        if requests[i].Delete? && requests[i].id == id {
          InSplit(requests, requests[i]);
          return true;
        }
      }
      assert requests[..|requests|] == requests;
      return false;
    }

    /** Whether every dependency of the created resource `id` is satisfied. */
    method CheckCreateReferences(db: DB, id: Id) returns (errors: nat)
      ensures errors == 0 <==>
        forall t :: (id, t) in LinkPairs(dependencies) ==> t in db.rollouts || t in IdSet(Creates(requests))
    {
      errors := 0;
      for i := 0 to |dependencies|
        invariant errors == 0 <==>
          forall t :: (id, t) in LinkPairs(dependencies[..i]) ==> t in db.rollouts || t in IdSet(Creates(requests))
      {
        assert dependencies[..i + 1][..i] == dependencies[..i];
        var dep := dependencies[i];
        if dep.source.id == id {
          assert (id, dep.target.id) in LinkPairs(dependencies[..i + 1]);
          if dep.target.id !in db.rollouts {
            var has := HasCreate(dep.target.id);
            if !has { errors := errors + 1; }
          }
        }
      }
      assert dependencies[..|dependencies|] == dependencies;
    }

    /** Whether every recorded dependent of `id` with a rollout is deleted as well. */
    method CheckDeleteReferences(db: DB, id: Id) returns (errors: nat)
      requires db.Valid() && forall x :: x in db.rollouts ==> db.rollouts[x].id == x
      ensures errors == 0 <==>
        forall s :: (s, id) in db.links && s in db.rollouts ==> s in IdSet(Deletes(requests))
    {
      var mayDepends := db.GetReferencesTo(id);
      errors := 0;
      for i := 0 to |mayDepends|
        invariant errors == 0 <==> RolloutIds(mayDepends[..i]) <= IdSet(Deletes(requests))
      {
        assert mayDepends[..i + 1][..i] == mayDepends[..i];
        var has := HasDelete(mayDepends[i].id);
        if !has { errors := errors + 1; }
      }
      assert mayDepends[..|mayDepends|] == mayDepends;
      assert forall s :: s in RolloutIds(mayDepends) <==> (s, id) in db.links && s in db.rollouts;
    }

    /**
     * The reference check. A delete whose subject has no rollout makes it dereference a missing record;
     * otherwise it passes exactly when creates are satisfied and deletes are allowed.
     */
    method CheckReferences(db: DB) returns (result: Checked)
      requires db.Valid() && forall x :: x in db.rollouts ==> db.rollouts[x].id == x
      ensures result.Crashed? <==> !DeletesHaveRollouts(requests, db.rollouts)
      ensures result.Passed? <==>
        && DeletesHaveRollouts(requests, db.rollouts)
        && CreatesSatisfied(requests, LinkPairs(dependencies), db.rollouts)
        && DeletesAllowed(requests, db.links, db.rollouts)
    {
      var errors := 0;
      for i := 0 to |requests|
        invariant forall k :: 0 <= k < i ==> !Crashes(requests[k], db.rollouts)
        invariant errors == 0 <==>
          forall k :: 0 <= k < i ==> Satisfied(requests[k], requests, LinkPairs(dependencies), db.links, db.rollouts)
      {
        if requests[i].Delete? && requests[i].id !in db.rollouts {
          InSplit(requests, requests[i]);
          return Crashed;
        }
        var more := CheckRequest(db, requests[i]);
        errors := errors + more;
      }
      ChecksTogether(requests, LinkPairs(dependencies), db.links, db.rollouts);
      result := if errors == 0 then Passed else Failed;
    }

    method CheckRequest(db: DB, r: Request) returns (errors: nat)
      requires db.Valid() && forall x :: x in db.rollouts ==> db.rollouts[x].id == x
      ensures errors == 0 <==> Satisfied(r, requests, LinkPairs(dependencies), db.links, db.rollouts)
    {
      match r
      case Create(id, _, _) => errors := CheckCreateReferences(db, id);
      case Delete(id, _) => errors := CheckDeleteReferences(db, id);
      case Status(_, _) => errors := 0;
    }

    method PersistLinks(db: DB)
      requires db.Valid()
      modifies db`bySource, db`byTarget, db`links
      ensures db.Valid()
      ensures db.links == old(db.links) + LinkPairs(dependencies) + LinkPairs(depending)
    {
      PersistAll(db, dependencies);
      PersistAll(db, depending);
    }

    static method PersistAll(db: DB, links: seq<Link>)
      requires db.Valid()
      modifies db`bySource, db`byTarget, db`links
      ensures db.Valid() && db.links == old(db.links) + LinkPairs(links)
    {
      for i := 0 to |links|
        invariant db.Valid() && db.links == old(db.links) + LinkPairs(links[..i])
      {
        assert links[..i + 1][..i] == links[..i];
        db.AddLink(links[i]);
      }
      assert links[..|links|] == links;
    }
  }
}
