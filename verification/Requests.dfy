/** Requests of a deployment, identified by the id of their subject alone. */
module Requests {
  import opened Ordering
  import opened Graphs

  type Key = string
  type Body = string

  datatype Request =
    | Create(id: Id, key: Key, body: Body)
    | Delete(id: Id, key: Key)
    | Status(id: Id, key: Key)

  function Ids(rs: seq<Request>): (ids: seq<Id>)
    ensures |ids| == |rs| && forall i :: 0 <= i < |rs| ==> ids[i] == rs[i].id
  {
    if rs == [] then [] else Ids(rs[..|rs| - 1]) + [rs[|rs| - 1].id]
  }

  lemma {:induction false} IdsSnoc(rs: seq<Request>, r: Request)
    ensures Ids(rs + [r]) == Ids(rs) + [r.id]
  { }

  function IdSet(rs: seq<Request>): set<Id> {
    if rs == [] then {} else IdSet(rs[..|rs| - 1]) + {rs[|rs| - 1].id}
  }

  lemma {:induction false} IdSetOfIds(rs: seq<Request>)
    ensures IdSet(rs) == ToSet(Ids(rs))
  {
    if rs != [] {
      IdSetOfIds(rs[..|rs| - 1]);
    }
  }

  lemma {:induction false} InIdSet(rs: seq<Request>, r: Request)
    requires r in rs
    ensures r.id in IdSet(rs)
  {
    IdSetOfIds(rs);
    var i :| 0 <= i < |rs| && rs[i] == r;
    assert Ids(rs)[i] == r.id;
  }

  lemma {:induction false} IdSetMember(rs: seq<Request>, x: Id) returns (i: nat)
    requires x in IdSet(rs)
    ensures i < |rs| && rs[i].id == x
  {
    IdSetOfIds(rs);
    i :| 0 <= i < |rs| && Ids(rs)[i] == x;
  }

  lemma {:induction false} IdSetSnoc(rs: seq<Request>, r: Request)
    ensures IdSet(rs + [r]) == IdSet(rs) + {r.id}
  {
    assert (rs + [r])[..|rs|] == rs;
  }

  predicate DistinctIds(rs: seq<Request>) {
    NoDuplicates(Ids(rs))
  }

  /** More than one request has this id. */
  predicate Repeated(rs: seq<Request>, x: Id) {
    if rs == [] then false
    else
      var init, r := rs[..|rs| - 1], rs[|rs| - 1];
      Repeated(init, x) || (r.id == x && x in IdSet(init))
  }

  lemma {:induction false} RepeatedIff(rs: seq<Request>, x: Id)
    ensures Repeated(rs, x) <==> exists i, j :: 0 <= i < j < |rs| && rs[i].id == x && rs[j].id == x
  {
    if rs != [] {
      var n := |rs| - 1;
      var init := rs[..n];
      RepeatedIff(init, x);
      if Repeated(rs, x) && !Repeated(init, x) {
        var i := IdSetMember(init, x);
        assert rs[i].id == x && rs[n].id == x;
      } else if Repeated(init, x) {
        var i, j :| 0 <= i < j < |init| && init[i].id == x && init[j].id == x;
        assert rs[i].id == x && rs[j].id == x;
      }
      if i, j :| 0 <= i < j < |rs| && rs[i].id == x && rs[j].id == x {
        assert init[i].id == x;
        if j < n { assert init[j].id == x; } else { InIdSet(init, init[i]); }
      }
    }
  }

  lemma {:induction false} DistinctIsOnce(rs: seq<Request>, x: Id)
    requires DistinctIds(rs)
    ensures !Repeated(rs, x)
  {
    RepeatedIff(rs, x);
    forall i, j | 0 <= i < j < |rs| ensures rs[i].id != rs[j].id {
      assert Ids(rs)[i] != Ids(rs)[j];
    }
  }

  function Creates(rs: seq<Request>): seq<Request> {
    if rs == [] then []
    else Creates(rs[..|rs| - 1]) + (if rs[|rs| - 1].Create? then [rs[|rs| - 1]] else [])
  }

  function Deletes(rs: seq<Request>): seq<Request> {
    if rs == [] then []
    else Deletes(rs[..|rs| - 1]) + (if rs[|rs| - 1].Delete? then [rs[|rs| - 1]] else [])
  }

  /** Splitting keeps exactly the requests of each kind. */
  lemma {:induction false} SplitElements(rs: seq<Request>)
    ensures forall r :: r in Creates(rs) <==> r in rs && r.Create?
    ensures forall r :: r in Deletes(rs) <==> r in rs && r.Delete?
  {
    if rs != [] {
      SplitElements(rs[..|rs| - 1]);
      assert rs == rs[..|rs| - 1] + [rs[|rs| - 1]];
    }
  }

  lemma {:induction false} SplitNext(rs: seq<Request>, i: nat)
    requires i < |rs|
    ensures IdSet(Creates(rs[..i + 1])) == IdSet(Creates(rs[..i])) + (if rs[i].Create? then {rs[i].id} else {})
    ensures IdSet(Deletes(rs[..i + 1])) == IdSet(Deletes(rs[..i])) + (if rs[i].Delete? then {rs[i].id} else {})
  {
    assert rs[..i + 1][..i] == rs[..i];
    assert Creates(rs[..i]) + [] == Creates(rs[..i]) && Deletes(rs[..i]) + [] == Deletes(rs[..i]);
    IdSetSnoc(Creates(rs[..i]), rs[i]);
    IdSetSnoc(Deletes(rs[..i]), rs[i]);
  }

  lemma {:induction false} InSplit(rs: seq<Request>, r: Request)
    requires r in rs
    ensures r.Create? ==> r.id in IdSet(Creates(rs))
    ensures r.Delete? ==> r.id in IdSet(Deletes(rs))
  {
    SplitElements(rs);
    if r.Create? { InIdSet(Creates(rs), r); }
    if r.Delete? { InIdSet(Deletes(rs), r); }
  }

  method SplitRequests(requests: seq<Request>) returns (deletes: seq<Request>, creates: seq<Request>)
    ensures deletes == Deletes(requests) && creates == Creates(requests)
  {
    deletes, creates := [], [];
    for i := 0 to |requests|
      invariant deletes == Deletes(requests[..i]) && creates == Creates(requests[..i])
    {
      assert requests[..i + 1][..i] == requests[..i];
      match requests[i]
      case Delete(_, _) => deletes := deletes + [requests[i]];
      case Create(_, _, _) => creates := creates + [requests[i]];
      case Status(_, _) =>
    }
    assert requests[..|requests|] == requests;
  }
}
