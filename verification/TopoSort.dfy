/** Ordering a batch of requests by the dependency links between them. */
module TopoSort {
  import opened Ordering
  import opened Slices
  import opened Graphs
  import opened Kahn
  import opened InDegrees
  import opened Requests

  /** The links, as a relation on ids. */
  function RelationOf(links: seq<(Id, Id)>): Relation {
    ToSet(links)
  }

  /** How many links lead from `x` to a pending id; repeated links count each time. */
  function Count(links: seq<(Id, Id)>, x: Id, pending: set<Id>): nat {
    if links == [] then 0
    else
      var (s, t) := links[|links| - 1];
      Count(links[..|links| - 1], x, pending) + (if s == x && t in pending then 1 else 0)
  }

  /** The in-batch sources of the links to `t`, in link order. */
  function SourcesTo(links: seq<(Id, Id)>, batch: set<Id>, t: Id): seq<Id> {
    if links == [] then []
    else
      var (s, t') := links[|links| - 1];
      SourcesTo(links[..|links| - 1], batch, t) + (if t' == t && s in batch then [s] else [])
  }

  lemma {:induction false} CountZero(links: seq<(Id, Id)>, x: Id, pending: set<Id>)
    ensures Count(links, x, pending) == 0 <==> forall t :: (x, t) in links ==> t !in pending
  {
    if links != [] {
      var init := links[..|links| - 1];
      var (s, t) := links[|links| - 1];
      CountZero(init, x, pending);
      assert links == init + [(s, t)];
      if s == x && t in pending {
        assert (x, t) in links;
      } else {
        forall u | (x, u) in links && u in pending ensures (x, u) in init { }
      }
    }
  }

  lemma {:induction false} CountDrop(links: seq<(Id, Id)>, x: Id, pending: set<Id>, batch: set<Id>, t: Id)
    requires t in pending && x in batch
    ensures Count(links, x, pending) == Count(links, x, pending - {t}) + multiset(SourcesTo(links, batch, t))[x]
  {
    if links != [] {
      CountDrop(links[..|links| - 1], x, pending, batch, t);
    }
  }

  lemma {:induction false} SourcesInBatch(links: seq<(Id, Id)>, batch: set<Id>, t: Id)
    ensures forall s :: s in SourcesTo(links, batch, t) ==> s in batch
  {
    if links != [] {
      SourcesInBatch(links[..|links| - 1], batch, t);
    }
  }

  lemma {:induction false} CountNext(links: seq<(Id, Id)>, i: nat, x: Id, pending: set<Id>)
    requires i < |links|
    ensures Count(links[..i + 1], x, pending)
         == Count(links[..i], x, pending) + (if links[i].0 == x && links[i].1 in pending then 1 else 0)
  {
    assert links[..i + 1][..i] == links[..i];
  }

  lemma {:induction false} SourcesNext(links: seq<(Id, Id)>, i: nat, batch: set<Id>, t: Id)
    requires i < |links|
    ensures SourcesTo(links[..i + 1], batch, t)
         == SourcesTo(links[..i], batch, t) + (if links[i].1 == t && links[i].0 in batch then [links[i].0] else [])
  {
    assert links[..i + 1][..i] == links[..i];
  }

  ghost predicate Degrees(links: seq<(Id, Id)>, batch: set<Id>, pending: set<Id>, inDegree: map<Id, int>) {
    inDegree.Keys == batch && forall x :: x in batch ==> inDegree[x] == Count(links, x, pending)
  }

  ghost predicate Adjacent(links: seq<(Id, Id)>, batch: set<Id>, adjacency: map<Id, seq<Id>>) {
    forall t :: t in batch ==> Lookup(adjacency, t) == SourcesTo(links, batch, t)
  }

  /** The request that represents `id` in the batch: the last one, later ones replacing earlier ones. */
  function LastFor(rs: seq<Request>, id: Id): (r: Request)
    requires id in IdSet(rs)
    ensures r in rs && r.id == id
  {
    var n := |rs| - 1;
    if rs[n].id == id then rs[n]
    else
      assert rs == rs[..n] + [rs[n]];
      IdSetSnoc(rs[..n], rs[n]);
      LastFor(rs[..n], id)
  }

  method BuildRequestSet(requests: seq<Request>) returns (reqSet: map<Id, Request>)
    ensures reqSet.Keys == IdSet(requests)
    ensures forall id :: id in reqSet ==> reqSet[id] == LastFor(requests, id)
  {
    reqSet := map[];
    for i := 0 to |requests|
      invariant reqSet.Keys == IdSet(requests[..i])
      invariant forall id :: id in reqSet ==> reqSet[id] == LastFor(requests[..i], id)
    {
      assert requests[..i + 1] == requests[..i] + [requests[i]];
      assert requests[..i + 1][..i] == requests[..i];
      IdSetSnoc(requests[..i], requests[i]);
      reqSet := reqSet[requests[i].id := requests[i]];
    }
    assert requests[..|requests|] == requests;
  }

  method BuildGraph(batch: set<Id>, links: seq<(Id, Id)>)
    returns (inDegree: map<Id, int>, adjacency: map<Id, seq<Id>>)
    ensures Degrees(links, batch, batch, inDegree)
    ensures Adjacent(links, batch, adjacency)
  {
    inDegree := map id | id in batch :: 0;
    adjacency := map[];
    for i := 0 to |links|
      invariant Degrees(links[..i], batch, batch, inDegree)
      invariant Adjacent(links[..i], batch, adjacency)
    {
      var (source, target) := links[i];
      ghost var degrees, neighbours := inDegree, adjacency;
      if source in batch && target in batch {
        adjacency := adjacency[target := Lookup(adjacency, target) + [source]];
        inDegree := inDegree[source := inDegree[source] + 1];
      }
      forall x | x in batch ensures inDegree[x] == Count(links[..i + 1], x, batch) {
        CountNext(links, i, x, batch);
      }
      forall t | t in batch ensures Lookup(adjacency, t) == SourcesTo(links[..i + 1], batch, t) {
        SourcesNext(links, i, batch, t);
        assert Lookup(neighbours, t) == SourcesTo(links[..i], batch, t);
      }
    }
    assert links[..|links|] == links;
  }

  function AfterRelax(neighbours: seq<Id>, inDegree: map<Id, int>, queue: seq<Id>): (r: (map<Id, int>, seq<Id>))
    requires forall x :: x in neighbours ==> x in inDegree
    ensures r.0.Keys == inDegree.Keys
  {
    if neighbours == [] then (inDegree, queue)
    else
      var n := neighbours[|neighbours| - 1];
      var (before, queued) := AfterRelax(neighbours[..|neighbours| - 1], inDegree, queue);
      var lower := before[n := before[n] - 1];
      (lower, if lower[n] == 0 then Sort(queued + [n]) else queued)
  }

  method Relax(neighbours: seq<Id>, inDegree0: map<Id, int>, queue0: seq<Id>)
    returns (inDegree: map<Id, int>, queue: seq<Id>)
    requires forall x :: x in neighbours ==> x in inDegree0
    ensures (inDegree, queue) == AfterRelax(neighbours, inDegree0, queue0)
  {
    inDegree, queue := inDegree0, queue0;
    for j := 0 to |neighbours|
      invariant forall x :: x in neighbours[..j] ==> x in inDegree0
      invariant (inDegree, queue) == AfterRelax(neighbours[..j], inDegree0, queue0)
    {
      var n := neighbours[j];
      assert n in neighbours && neighbours[..j + 1][..j] == neighbours[..j];
      inDegree := inDegree[n := inDegree[n] - 1];
      if inDegree[n] == 0 {
        queue := Sort(queue + [n]);
      }
    }
    assert neighbours[..|neighbours|] == neighbours;
  }

  /** The neighbours' degrees drop by one per occurrence; those that reach zero enter the sorted queue. */
  lemma {:induction false} RelaxSound(neighbours: seq<Id>, inDegree: map<Id, int>, queue: seq<Id>)
    requires forall x :: x in neighbours ==> x in inDegree && inDegree[x] >= multiset(neighbours)[x] && x !in queue
    requires Sorted(queue) && NoDuplicates(queue)
    ensures var (after, queued) := AfterRelax(neighbours, inDegree, queue);
      Relaxed(neighbours, inDegree, after, queue, queued)
  {
    if neighbours != [] {
      var n := |neighbours| - 1;
      assert neighbours == neighbours[..n] + [neighbours[n]];
      RelaxSound(neighbours[..n], inDegree, queue);
      var (before, queued) := AfterRelax(neighbours[..n], inDegree, queue);
      NextRelaxed(neighbours, inDegree, before, queue, queued, n);
      assert neighbours[..n + 1] == neighbours;
    }
  }

  ghost predicate Relaxed(
    done: seq<Id>, inDegree0: map<Id, int>, inDegree: map<Id, int>, queue0: seq<Id>, queue: seq<Id>)
  {
    Lowered(done, inDegree0, inDegree) && Enqueued(done, inDegree, queue0, queue)
  }

  lemma {:induction false} NextRelaxed(
    neighbours: seq<Id>, inDegree0: map<Id, int>, inDegree: map<Id, int>, queue0: seq<Id>, queue: seq<Id>, j: nat)
    requires j < |neighbours| && neighbours[j] in inDegree0 && neighbours[j] !in queue0
    requires inDegree0[neighbours[j]] >= multiset(neighbours)[neighbours[j]]
    requires Relaxed(neighbours[..j], inDegree0, inDegree, queue0, queue)
    ensures
      var n := neighbours[j];
      var lower := inDegree[n := inDegree[n] - 1];
      Relaxed(neighbours[..j + 1], inDegree0, lower, queue0, if lower[n] == 0 then Sort(queue + [n]) else queue)
  {
    NextNeighbour(neighbours, inDegree0, inDegree, j);
    NextQueue(neighbours, inDegree, queue0, queue, j);
  }

  ghost predicate Lowered(done: seq<Id>, inDegree0: map<Id, int>, inDegree: map<Id, int>) {
    && inDegree.Keys == inDegree0.Keys
    && forall x :: x in inDegree ==> inDegree[x] == inDegree0[x] - multiset(done)[x]
  }

  ghost predicate Enqueued(done: seq<Id>, inDegree: map<Id, int>, queue0: seq<Id>, queue: seq<Id>) {
    && (forall x :: x in done ==> x in inDegree)
    && Sorted(queue) && NoDuplicates(queue)
    && forall x :: x in queue <==> x in queue0 || (x in done && inDegree[x] == 0)
  }

  lemma {:induction false} NextNeighbour(neighbours: seq<Id>, inDegree0: map<Id, int>, inDegree: map<Id, int>, j: nat)
    requires j < |neighbours| && neighbours[j] in inDegree0 && Lowered(neighbours[..j], inDegree0, inDegree)
    requires inDegree0[neighbours[j]] >= multiset(neighbours)[neighbours[j]]
    ensures Lowered(neighbours[..j + 1], inDegree0, inDegree[neighbours[j] := inDegree[neighbours[j]] - 1])
    ensures inDegree[neighbours[j]] >= 1
  {
    var n := neighbours[j];
    assert neighbours[..j + 1] == neighbours[..j] + [n];
    assert neighbours == neighbours[..j + 1] + neighbours[j + 1..];
  }

  lemma {:induction false} SortedWith(queue: seq<Id>, n: Id)
    requires NoDuplicates(queue) && n !in queue
    ensures Sorted(Sort(queue + [n])) && NoDuplicates(Sort(queue + [n]))
    ensures forall x :: x in Sort(queue + [n]) <==> x in queue || x == n
  {
    SortSorted(queue + [n]);
    SortNoDuplicates(queue + [n]);
    SortElements(queue + [n]);
  }

  lemma {:induction false} NextQueue(
    neighbours: seq<Id>, inDegree: map<Id, int>, queue0: seq<Id>, queue: seq<Id>, j: nat)
    requires j < |neighbours| && neighbours[j] in inDegree && neighbours[j] !in queue0 && inDegree[neighbours[j]] >= 1
    requires Enqueued(neighbours[..j], inDegree, queue0, queue)
    ensures
      var n := neighbours[j];
      var lower := inDegree[n := inDegree[n] - 1];
      Enqueued(neighbours[..j + 1], lower, queue0, if lower[n] == 0 then Sort(queue + [n]) else queue)
  {
    var n := neighbours[j];
    assert neighbours[..j + 1] == neighbours[..j] + [n];
    assert n !in queue;
    SortedWith(queue, n);
  }

  lemma {:induction false} ReadyByDegree(links: seq<(Id, Id)>, batch: set<Id>, done: set<Id>, x: Id)
    ensures x in Ready(RelationOf(links), batch, done) <==>
            x in batch && x !in done && Count(links, x, batch - done) == 0
  {
    CountZero(links, x, batch - done);
    var r := RelationOf(links);
    assert forall t :: (x, t) in links <==> (x, t) in r;
  }

  /** The queue lists a set of ids in increasing order. */
  ghost predicate QueueOf(queue: seq<Id>, ready: set<Id>) {
    Sorted(queue) && NoDuplicates(queue) && forall x :: x in queue <==> x in ready
  }

  ghost predicate TargetsDone(r: Relation, batch: set<Id>, done: set<Id>) {
    forall x, t :: x in done && (x, t) in r && t in batch ==> t in done
  }

  method KahnSort(reqSet: map<Id, Request>, inDegree0: map<Id, int>, adjacency: map<Id, seq<Id>>,
                  ghost links: seq<(Id, Id)>)
    returns (sorted: seq<Request>)
    requires Degrees(links, reqSet.Keys, reqSet.Keys, inDegree0) && Adjacent(links, reqSet.Keys, adjacency)
    requires forall id :: id in reqSet ==> reqSet[id].id == id
    ensures Ids(sorted) == KahnOrder(RelationOf(links), reqSet.Keys)
    ensures forall r :: r in sorted ==> r.id in reqSet && r == reqSet[r.id]
  {
    ghost var batch, done := reqSet.Keys, {};
    ghost var full := KahnOrder(RelationOf(links), batch);
    ghost var left := full;
    var inDegree := inDegree0;
    var queue := ZeroDegree(inDegree);
    sorted := [];
    InitiallyReady(links, batch, inDegree, queue);
    assert batch - done == batch;
    while queue != []
      invariant done <= batch && Degrees(links, batch, batch - done, inDegree)
      invariant KahnState(links, batch, done, queue, left)
      invariant full == Ids(sorted) + left
      invariant forall r :: r in sorted ==> r.id in reqSet && r == reqSet[r.id]
      decreases batch - done
    {
      KahnFromStep(links, batch, done, queue, left);
      var id := queue[0];
      EmitShift(sorted, reqSet[id], left);
      sorted := sorted + [reqSet[id]];
      inDegree, queue := Emit(links, batch, done, id, adjacency, inDegree, queue, left);
      done, left := done + {id}, left[1..];
    }
    NothingLeft(links, batch, done, left);
  }

  lemma {:induction false} EmitShift(sorted: seq<Request>, r: Request, left: seq<Id>)
    requires left != [] && left[0] == r.id
    ensures Ids(sorted) + left == Ids(sorted + [r]) + left[1..]
  { }

  /** The queue holds what is ready, and `left` is what is still to come. */
  ghost predicate KahnState(links: seq<(Id, Id)>, batch: set<Id>, done: set<Id>, queue: seq<Id>, left: seq<Id>) {
    && QueueOf(queue, Ready(RelationOf(links), batch, done))
    && TargetsDone(RelationOf(links), batch, done)
    && left == KahnFrom(RelationOf(links), batch, done)
  }

  lemma {:induction false} InitiallyReady(links: seq<(Id, Id)>, batch: set<Id>, inDegree: map<Id, int>, queue: seq<Id>)
    requires Degrees(links, batch, batch, inDegree) && Sorted(queue) && NoDuplicates(queue)
    requires forall x :: x in queue <==> x in inDegree && inDegree[x] == 0
    ensures KahnState(links, batch, {}, queue, KahnOrder(RelationOf(links), batch))
  {
    assert batch - {} == batch;
    forall x ensures x in queue <==> x in Ready(RelationOf(links), batch, {}) {
      ReadyByDegree(links, batch, {}, x);
    }
  }

  lemma {:induction false} NothingLeft(links: seq<(Id, Id)>, batch: set<Id>, done: set<Id>, left: seq<Id>)
    requires KahnState(links, batch, done, [], left)
    ensures left == []
  {
    var queue: seq<Id> := [];
    assert forall x :: x in Ready(RelationOf(links), batch, done) <==> x in queue;
    assert Ready(RelationOf(links), batch, done) == {};
  }

  /** Takes the head off the queue and relaxes its neighbours in sorted order. */
  method Emit(ghost links: seq<(Id, Id)>, ghost batch: set<Id>, ghost done: set<Id>, id: Id,
              adjacency: map<Id, seq<Id>>, inDegree0: map<Id, int>, queue0: seq<Id>, ghost left: seq<Id>)
    returns (inDegree: map<Id, int>, queue: seq<Id>)
    requires Degrees(links, batch, batch - done, inDegree0) && Adjacent(links, batch, adjacency)
    requires queue0 != [] && queue0[0] == id && id in batch - done && KahnState(links, batch, done, queue0, left)
    ensures Degrees(links, batch, batch - (done + {id}), inDegree)
    ensures left != [] && left[0] == id && KahnState(links, batch, done + {id}, queue, left[1..])
  {
    var neighbours := Sort(Lookup(adjacency, id));
    SortElements(Lookup(adjacency, id));
    DegreesCoverNeighbours(links, batch, done, id, inDegree0, queue0);
    assert queue0 == [id] + queue0[1..];
    inDegree, queue := Relax(neighbours, inDegree0, queue0[1..]);
    RelaxSound(neighbours, inDegree0, queue0[1..]);
    DegreesAfter(links, batch, done, id, inDegree0, inDegree);
    QueueAfter(links, batch, done, id, inDegree, queue0, queue);
    KahnFromStep(links, batch, done, queue0, left);
  }

  lemma {:induction false} KahnFromStep(links: seq<(Id, Id)>, batch: set<Id>, done: set<Id>, queue: seq<Id>, left: seq<Id>)
    requires queue != [] && KahnState(links, batch, done, queue, left)
    ensures queue[0] in batch - done && TargetsDone(RelationOf(links), batch, done + {queue[0]})
    ensures left != [] && left[0] == queue[0]
    ensures left[1..] == KahnFrom(RelationOf(links), batch, done + {queue[0]})
  {
    var ready := Ready(RelationOf(links), batch, done);
    assert queue[0] in queue;
    HeadIsLeast(queue, ready);
    LeastUnique(queue[0], Least(ready), ready);
  }

  lemma {:induction false} HeadIsLeast(queue: seq<Id>, ready: set<Id>)
    requires queue != [] && QueueOf(queue, ready)
    ensures IsLeast(queue[0], ready)
  {
    assert queue[0] in queue;
  }

  lemma {:induction false} DegreesCoverNeighbours(links: seq<(Id, Id)>, batch: set<Id>, done: set<Id>, id: Id,
                               inDegree: map<Id, int>, queue: seq<Id>)
    requires Degrees(links, batch, batch - done, inDegree) && id in batch - done
    requires QueueOf(queue, Ready(RelationOf(links), batch, done))
    ensures var ns := SourcesTo(links, batch, id);
      forall x :: x in ns ==> x in inDegree && inDegree[x] >= multiset(ns)[x] && x !in queue
  {
    var ns := SourcesTo(links, batch, id);
    SourcesInBatch(links, batch, id);
    forall x | x in ns ensures x in inDegree && inDegree[x] >= multiset(ns)[x] && x !in queue {
      CountDrop(links, x, batch - done, batch, id);
      ReadyByDegree(links, batch, done, x);
      assert x in multiset(ns);
    }
  }

  lemma {:induction false} DegreesAfter(links: seq<(Id, Id)>, batch: set<Id>, done: set<Id>, id: Id,
                     before: map<Id, int>, after: map<Id, int>)
    requires id in batch - done && Degrees(links, batch, batch - done, before) && after.Keys == batch
    requires forall x :: x in after ==> after[x] == before[x] - multiset(SourcesTo(links, batch, id))[x]
    ensures Degrees(links, batch, batch - (done + {id}), after)
  {
    assert batch - (done + {id}) == batch - done - {id};
    forall x | x in batch ensures after[x] == Count(links, x, batch - done - {id}) {
      CountDrop(links, x, batch - done, batch, id);
    }
  }

  lemma {:induction false} QueueAfter(links: seq<(Id, Id)>, batch: set<Id>, done: set<Id>, id: Id,
                   after: map<Id, int>, queue: seq<Id>, queue': seq<Id>)
    requires id in batch - done && Degrees(links, batch, batch - (done + {id}), after)
    requires queue != [] && queue[0] == id && QueueOf(queue, Ready(RelationOf(links), batch, done))
    requires Sorted(queue') && NoDuplicates(queue') && TargetsDone(RelationOf(links), batch, done)
    requires forall x :: x in queue' <==>
      x in queue[1..] || (x in SourcesTo(links, batch, id) && x in after && after[x] == 0)
    ensures QueueOf(queue', Ready(RelationOf(links), batch, done + {id}))
  {
    assert queue == [id] + queue[1..];
    forall x ensures x in queue' <==> x in Ready(RelationOf(links), batch, done + {id}) {
      ReadyAfter(links, batch, done, id, x);
      SourcesInBatch(links, batch, id);
      ReadyByDegree(links, batch, done + {id}, x);
      assert id in queue && id !in queue[1..];
    }
  }

  /** Emitting `id` makes ready exactly the ids that already were, and those of its sources now at zero. */
  lemma {:induction false} ReadyAfter(links: seq<(Id, Id)>, batch: set<Id>, done: set<Id>, id: Id, x: Id)
    requires id in Ready(RelationOf(links), batch, done) && TargetsDone(RelationOf(links), batch, done)
    ensures x in Ready(RelationOf(links), batch, done + {id}) <==>
            || (x in Ready(RelationOf(links), batch, done) && x != id)
            || (x in SourcesTo(links, batch, id) && x in batch && Count(links, x, batch - (done + {id})) == 0)
  {
    ReadyByDegree(links, batch, done, x);
    ReadyByDegree(links, batch, done, id);
    ReadyByDegree(links, batch, done + {id}, x);
    assert batch - (done + {id}) == batch - done - {id};
    var ns := SourcesTo(links, batch, id);
    assert x in ns <==> x in multiset(ns);
    SourcesInBatch(links, batch, id);
    if x in batch {
      CountDrop(links, x, batch - done, batch, id);
      CountZero(links, x, batch - done);
    }
  }

  // ---- The sorted batch ----

  /** The representative requests of the given ids. */
  function Representatives(rs: seq<Request>, ids: seq<Id>): (out: seq<Request>)
    requires forall id :: id in ids ==> id in IdSet(rs)
    ensures |out| == |ids| && forall i :: 0 <= i < |ids| ==> out[i] == LastFor(rs, ids[i])
  {
    if ids == [] then []
    else Representatives(rs, ids[..|ids| - 1]) + [LastFor(rs, ids[|ids| - 1])]
  }

  /** The requests whose id is not among the given ones, in batch order. */
  function Remainder(rs: seq<Request>, ids: set<Id>): seq<Request> {
    if rs == [] then []
    else
      var r := rs[|rs| - 1];
      Remainder(rs[..|rs| - 1], ids) + (if r.id in ids then [] else [r])
  }

  /** What the batch is sorted to: Kahn's order of the ids, then the requests it left over. */
  ghost function TopoOrder(rs: seq<Request>, r: Relation): seq<Request> {
    KahnOrderSound(r, IdSet(rs));
    var ids := KahnOrder(r, IdSet(rs));
    assert forall x :: x in ids ==> x in ToSet(ids);
    Representatives(rs, ids) + Remainder(rs, ToSet(ids))
  }

  method AppendCycleOrphans(sorted0: seq<Request>, requests: seq<Request>) returns (sorted: seq<Request>)
    requires NoDuplicates(Ids(sorted0)) && IdSet(sorted0) <= IdSet(requests)
    ensures sorted == sorted0 + Remainder(requests, IdSet(sorted0))
  {
    sorted := sorted0;
    if |sorted0| >= |requests| {
      FullOrderLeavesNothing(sorted0, requests);
      return;
    }
    var included := {};
    for i := 0 to |sorted0|
      invariant included == IdSet(sorted0[..i])
    {
      assert sorted0[..i + 1] == sorted0[..i] + [sorted0[i]];
      IdSetSnoc(sorted0[..i], sorted0[i]);
      included := included + {sorted0[i].id};
    }
    assert sorted0[..|sorted0|] == sorted0;
    for i := 0 to |requests|
      invariant sorted == sorted0 + Remainder(requests[..i], included)
    {
      assert requests[..i + 1][..i] == requests[..i];
      if requests[i].id !in included {
        sorted := sorted + [requests[i]];
      }
    }
    assert requests[..|requests|] == requests;
  }

  lemma {:induction false} FullOrderLeavesNothing(sorted: seq<Request>, requests: seq<Request>)
    requires NoDuplicates(Ids(sorted)) && IdSet(sorted) <= IdSet(requests) && |sorted| >= |requests|
    ensures Remainder(requests, IdSet(sorted)) == []
  {
    IdSetOfIds(sorted);
    IdSetOfIds(requests);
    SameSizeSameIds(Ids(sorted), Ids(requests));
    RemainderEmpty(requests, IdSet(sorted));
  }

  lemma {:induction false} SameSizeSameIds(a: seq<Id>, b: seq<Id>)
    requires NoDuplicates(a) && ToSet(a) <= ToSet(b) && |a| >= |b|
    ensures ToSet(a) == ToSet(b)
  {
    NoDuplicatesSize(a);
    NoDuplicatesSize(b);
    assert ToSet(b) == ToSet(a) + (ToSet(b) - ToSet(a));
    assert |ToSet(b) - ToSet(a)| == 0;
  }

  lemma {:induction false} RemainderEmpty(rs: seq<Request>, ids: set<Id>)
    requires IdSet(rs) <= ids
    ensures Remainder(rs, ids) == []
  {
    if rs != [] {
      assert rs == rs[..|rs| - 1] + [rs[|rs| - 1]];
      IdSetSnoc(rs[..|rs| - 1], rs[|rs| - 1]);
      RemainderEmpty(rs[..|rs| - 1], ids);
    }
  }

  method TopoSortRequests(requests: seq<Request>, links: seq<(Id, Id)>, reverse: bool)
    returns (sorted: seq<Request>)
    ensures var forward := TopoOrder(requests, RelationOf(links));
      sorted == if reverse then Reversed(forward) else forward
  {
    if |requests| == 0 {
      EmptyBatch(RelationOf(links));
      return [];
    }
    sorted := SortForward(requests, links);
    if reverse {
      var slice := new Request[|sorted|](i requires 0 <= i < |sorted| => sorted[i]);
      assert slice[..] == sorted;
      ReverseSlice(slice);
      sorted := slice[..];
    }
  }

  method SortForward(requests: seq<Request>, links: seq<(Id, Id)>) returns (sorted: seq<Request>)
    ensures sorted == TopoOrder(requests, RelationOf(links))
  {
    var reqSet := BuildRequestSet(requests);
    var inDegree, adjacency := BuildGraph(reqSet.Keys, links);
    sorted := KahnSort(reqSet, inDegree, adjacency, links);
    KahnOrderSound(RelationOf(links), IdSet(requests));
    SortedIsRepresentatives(requests, sorted, Ids(sorted));
    IdSetOfIds(sorted);
    sorted := AppendCycleOrphans(sorted, requests);
  }

  lemma {:induction false} SortedIsRepresentatives(rs: seq<Request>, sorted: seq<Request>, ids: seq<Id>)
    requires ids == Ids(sorted)
    requires forall r :: r in sorted ==> r.id in IdSet(rs) && r == LastFor(rs, r.id)
    ensures (forall id :: id in ids ==> id in IdSet(rs)) && sorted == Representatives(rs, ids)
  { }

  lemma {:induction false} EmptyBatch(r: Relation)
    ensures TopoOrder([], r) == []
  {
    KahnOrderSound(r, {});
    assert Ready(r, {}, {}) == {};
  }

  // ---- What the order guarantees ----

  /** On an acyclic batch nothing is left over and the ids come in Kahn's order. */
  lemma {:induction false} AcyclicOrder(rs: seq<Request>, r: Relation)
    requires Acyclic(Restrict(r, IdSet(rs)))
    ensures Ids(TopoOrder(rs, r)) == KahnOrder(r, IdSet(rs))
    ensures Topological(r, IdSet(rs), Ids(TopoOrder(rs, r)))
  {
    KahnComplete(r, IdSet(rs));
    RemainderEmpty(rs, ToSet(KahnOrder(r, IdSet(rs))));
  }

  lemma {:induction false} RemainderMultiset(rs: seq<Request>, ids: set<Id>, x: Request)
    ensures multiset(Remainder(rs, ids))[x] == if x.id in ids then 0 else multiset(rs)[x]
  {
    if rs != [] {
      assert rs == rs[..|rs| - 1] + [rs[|rs| - 1]];
      RemainderMultiset(rs[..|rs| - 1], ids, x);
    }
  }

  lemma {:induction false} RepresentativesMultiset(rs: seq<Request>, ids: seq<Id>, x: Request)
    requires NoDuplicates(ids) && forall id :: id in ids ==> id in IdSet(rs)
    ensures multiset(Representatives(rs, ids))[x] == if x.id in ids && x == LastFor(rs, x.id) then 1 else 0
  {
    if ids != [] {
      var n := |ids| - 1;
      assert ids == ids[..n] + [ids[n]];
      assert ids[n] !in ids[..n];
      RepresentativesMultiset(rs, ids[..n], x);
    }
  }

  lemma {:induction false} OnceMultiset(rs: seq<Request>, x: Request)
    requires x in rs && !Repeated(rs, x.id)
    ensures multiset(rs)[x] == 1 && x.id in IdSet(rs) && LastFor(rs, x.id) == x
  {
    var n := |rs| - 1;
    var t := rs[..n];
    assert rs == t + [rs[n]];
    if x.id in IdSet(t) {
      assert rs[n].id != x.id;
      OnceMultiset(t, x);
    } else {
      if x in t { InIdSet(t, x); }
      assert x == rs[n];
    }
  }

  /** What sorting does to the number of times a request occurs. */
  lemma {:induction false} TopoOrderCount(rs: seq<Request>, r: Relation, x: Request)
    ensures var ids := KahnOrder(r, IdSet(rs));
      multiset(TopoOrder(rs, r))[x] ==
      if x.id in ids then (if x.id in IdSet(rs) && x == LastFor(rs, x.id) then 1 else 0) else multiset(rs)[x]
  {
    var ids := KahnOrder(r, IdSet(rs));
    KahnOrderSound(r, IdSet(rs));
    assert forall x :: x in ids ==> x in ToSet(ids);
    RemainderMultiset(rs, ToSet(ids), x);
    RepresentativesMultiset(rs, ids, x);
  }

  /** A request under a repeated id that Kahn emits is lost. */
  lemma {:induction false} RepeatedIsLost(rs: seq<Request>, r: Relation, x: Id)
    requires Repeated(rs, x) && x in KahnOrder(r, IdSet(rs))
    ensures multiset(TopoOrder(rs, r)) != multiset(rs)
  {
    RepeatedIff(rs, x);
    var i, j :| 0 <= i < j < |rs| && rs[i].id == x && rs[j].id == x;
    TopoOrderCount(rs, r, rs[i]);
    TopoOrderCount(rs, r, rs[j]);
    CountedTwice(rs, i, j);
  }

  lemma {:induction false} CountedTwice<T>(s: seq<T>, i: nat, j: nat)
    requires i < j < |s|
    ensures multiset(s)[s[i]] >= (if s[i] == s[j] then 2 else 1) && multiset(s)[s[j]] >= 1
  {
    var head, tail := s[..j], s[j..];
    assert s == head + tail;
    assert head[i] == s[i] && tail[0] == s[j];
    assert s[i] in multiset(head) && s[j] in multiset(tail);
  }

  /** Requests are lost exactly when an id that cannot reach a cycle inside the batch is repeated. */
  lemma {:induction false} NothingLostIff(rs: seq<Request>, r: Relation)
    ensures multiset(TopoOrder(rs, r)) == multiset(rs) <==>
      forall x :: Repeated(rs, x) ==> CycleReachable(Restrict(r, IdSet(rs)), x)
  {
    if x :| Repeated(rs, x) && !CycleReachable(Restrict(r, IdSet(rs)), x) {
      RepeatedIff(rs, x);
      var i :| 0 <= i < |rs| && rs[i].id == x;
      InIdSet(rs, rs[i]);
      KahnEmitsExactly(r, IdSet(rs), x);
      RepeatedIsLost(rs, r, x);
    } else {
      forall x: Request ensures multiset(TopoOrder(rs, r))[x] == multiset(rs)[x] {
        TopoOrderCount(rs, r, x);
        KahnEmitsExactly(r, IdSet(rs), x.id);
        if x.id in KahnOrder(r, IdSet(rs)) {
          if x in rs {
            OnceMultiset(rs, x);
          } else {
            assert multiset(rs)[x] == 0;
            if x.id in IdSet(rs) { assert LastFor(rs, x.id) in rs; }
          }
        }
      }
    }
  }

  /** With distinct ids sorting only rearranges the batch, cycles or not. */
  lemma {:induction false} SortIsPermutation(rs: seq<Request>, r: Relation)
    requires DistinctIds(rs)
    ensures multiset(TopoOrder(rs, r)) == multiset(rs)
  {
    forall x ensures !Repeated(rs, x) { DistinctIsOnce(rs, x); }
    NothingLostIff(rs, r);
  }

  /** On an acyclic batch requests are lost exactly when two of them share an id. */
  lemma {:induction false} NothingLostIffDistinct(rs: seq<Request>, r: Relation)
    requires Acyclic(Restrict(r, IdSet(rs)))
    ensures multiset(TopoOrder(rs, r)) == multiset(rs) <==> DistinctIds(rs)
  {
    NothingLostIff(rs, r);
    if DistinctIds(rs) {
      SortIsPermutation(rs, r);
    } else {
      var i, j :| 0 <= i < j < |rs| && Ids(rs)[i] == Ids(rs)[j];
      RepeatedIff(rs, rs[i].id);
      AcyclicNoReachableCycle(Restrict(r, IdSet(rs)), rs[i].id);
    }
  }

  /**
   * Cycles or not: first come exactly the ids that cannot reach a cycle inside the batch, each after
   * its in-batch targets; then every other request, in batch order.
   */
  lemma {:induction false} CyclicBatchOrder(rs: seq<Request>, r: Relation)
    ensures var s, k := TopoOrder(rs, r), |KahnOrder(r, IdSet(rs))|;
      && k <= |s|
      && (forall x :: x in Ids(s[..k]) <==> x in IdSet(rs) && !CycleReachable(Restrict(r, IdSet(rs)), x))
      && AfterTargets(r, IdSet(rs), Ids(s[..k]))
      && NoDuplicates(Ids(s[..k]))
      && s[k..] == Remainder(rs, ToSet(Ids(s[..k])))
  {
    var batch := IdSet(rs);
    var ids := KahnOrder(r, batch);
    KahnOrderSound(r, batch);
    assert forall x :: x in ids ==> x in ToSet(ids);
    RepresentativeIds(rs, ids);
    var s := TopoOrder(rs, r);
    assert s[..|ids|] == Representatives(rs, ids);
    forall x ensures x in ids <==> x in batch && !CycleReachable(Restrict(r, batch), x) {
      KahnEmitsExactly(r, batch, x);
    }
  }

  lemma {:induction false} RepresentativeIds(rs: seq<Request>, ids: seq<Id>)
    requires forall id :: id in ids ==> id in IdSet(rs)
    ensures Ids(Representatives(rs, ids)) == ids
  { }

  lemma {:induction false} SamePermutation(rs: seq<Request>, rs': seq<Request>)
    requires multiset(rs) == multiset(rs') && DistinctIds(rs)
    ensures IdSet(rs) == IdSet(rs') && DistinctIds(rs') && forall x :: x in rs <==> x in rs'
  {
    assert forall x :: x in rs <==> x in multiset(rs);
    assert forall x :: x in rs' <==> x in multiset(rs');
    forall x ensures x in IdSet(rs) <==> x in IdSet(rs') {
      if x in IdSet(rs) { var i := IdSetMember(rs, x); InIdSet(rs', rs[i]); }
      if x in IdSet(rs') { var i := IdSetMember(rs', x); InIdSet(rs, rs'[i]); }
    }
    assert |rs| == |multiset(rs)| == |multiset(rs')| == |rs'|;
    IdSetOfIds(rs);
    IdSetOfIds(rs');
    NoDuplicatesSize(Ids(rs));
    NoDuplicatesSize(Ids(rs'));
  }

  /** With distinct ids on an acyclic batch the result does not depend on the order of the batch. */
  lemma {:induction false} OrderIndependent(rs: seq<Request>, rs': seq<Request>, r: Relation)
    requires multiset(rs) == multiset(rs') && DistinctIds(rs) && Acyclic(Restrict(r, IdSet(rs)))
    ensures TopoOrder(rs, r) == TopoOrder(rs', r)
  {
    SamePermutation(rs, rs');
    AcyclicOrder(rs, r);
    AcyclicOrder(rs', r);
    var s, s' := TopoOrder(rs, r), TopoOrder(rs', r);
    var ids := KahnOrder(r, IdSet(rs));
    RemainderEmpty(rs, ToSet(ids));
    RemainderEmpty(rs', ToSet(ids));
    forall i | 0 <= i < |ids| ensures s[i] == s'[i] {
      assert ids[i] in ToSet(ids);
      DistinctIsOnce(rs, s[i].id);
      DistinctIsOnce(rs', s[i].id);
      OnceMultiset(rs, s[i]);
      OnceMultiset(rs', s[i]);
    }
  }

  /** In a sorted acyclic batch every request comes after its in-batch targets. */
  lemma {:induction false} TargetsFirst(rs: seq<Request>, r: Relation, i: nat, t: Id) returns (j: nat)
    requires Acyclic(Restrict(r, IdSet(rs))) && i < |TopoOrder(rs, r)|
    requires (TopoOrder(rs, r)[i].id, t) in r && t in IdSet(rs)
    ensures j < i && TopoOrder(rs, r)[j].id == t
  {
    AcyclicOrder(rs, r);
    var ids := Ids(TopoOrder(rs, r));
    assert (ids[i], t) in r;
    assert t in ids[..i];
    j :| 0 <= j < i && ids[j] == t;
  }

  /** In the reversed order every request comes after its in-batch dependents. */
  lemma {:induction false} DependentsFirst(rs: seq<Request>, r: Relation, i: nat, d: Id) returns (j: nat)
    requires Acyclic(Restrict(r, IdSet(rs))) && i < |TopoOrder(rs, r)|
    requires (d, Reversed(TopoOrder(rs, r))[i].id) in r && d in IdSet(rs)
    ensures j < i && Reversed(TopoOrder(rs, r))[j].id == d
  {
    AcyclicOrder(rs, r);
    j := SourceEarlierReversed(r, IdSet(rs), TopoOrder(rs, r), i, d);
  }

  lemma {:induction false} SourceEarlierReversed(r: Relation, batch: set<Id>, s: seq<Request>, i: nat, d: Id)
    returns (j: nat)
    requires Topological(r, batch, Ids(s)) && i < |s| && d in batch && (d, Reversed(s)[i].id) in r
    ensures j < i && Reversed(s)[j].id == d
  {
    var k := SourceLater(r, batch, Ids(s), |s| - 1 - i, d);
    j := |s| - 1 - k;
  }

  lemma {:induction false} SourceLater(r: Relation, batch: set<Id>, ids: seq<Id>, i: nat, d: Id) returns (k: nat)
    requires Topological(r, batch, ids) && i < |ids| && d in batch && (d, ids[i]) in r
    ensures i < k < |ids| && ids[k] == d
  {
    assert d in ToSet(ids) && ids[i] in ToSet(ids);
    k :| 0 <= k < |ids| && ids[k] == d;
    assert (ids[k], ids[i]) in r;
    assert ids[i] in ids[..k];
  }
}
