/** Breadth-first traversal of the stored links. */
module Traversal {
  import opened Ordering
  import opened Graphs
  import opened Requests
  import opened Store

  datatype GraphNode = Recorded(id: Id, key: Key, succeeded: bool) | Unknown(id: Id, key: Key)

  function NodeIds(nodes: seq<GraphNode>): (ids: seq<Id>)
    ensures |ids| == |nodes| && forall i :: 0 <= i < |nodes| ==> ids[i] == nodes[i].id
  {
    seq(|nodes|, i requires 0 <= i < |nodes| => nodes[i].id)
  }

  /** A node without a rollout (an external dependency) is reported as unknown. */
  function LookupNode(rollouts: map<Id, Rollout>, r: Reference): GraphNode {
    if r.id in rollouts then Recorded(r.id, rollouts[r.id].key, rollouts[r.id].succeeded) else Unknown(r.id, r.key)
  }

  /** Each node shows what is on record for its id, or else the key some link names it by. */
  ghost predicate Described(bucket: Bucket, rollouts: map<Id, Rollout>, nodes: seq<GraphNode>) {
    forall n :: n in nodes ==>
      if n.id in rollouts then n == Recorded(n.id, rollouts[n.id].key, rollouts[n.id].succeeded)
      else n.Unknown? && LinkedAs(bucket, n.id, n.key)
  }

  ghost predicate LinkedAs(bucket: Bucket, id: Id, key: Key) {
    exists a :: a in bucket && Reference(id, key) in bucket[a]
  }

  /** Every id other than the root that can be reached from it, each once. */
  ghost predicate IsTraversal(r: Relation, root: Id, ids: seq<Id>) {
    && NoDuplicates(ids)
    && forall y :: y in ids <==> y != root && Reaches(r, root, y)
  }

  ghost predicate Discovered(r: Relation, root: Id, visited: set<Id>, ids: seq<Id>) {
    && root in visited && NoDuplicates(ids)
    && (forall y :: y in ids <==> y in visited && y != root)
    && forall y :: y in visited ==> Reaches(r, root, y)
  }

  // ---- Breadth first ----

  ghost predicate AtDepth(r: Relation, root: Id, x: Id, d: nat) {
    exists p :: WalkFrom(r, root, p) && p[|p| - 1] == x && |p| == d + 1
  }

  /** No id comes before one that can be reached in fewer steps. */
  ghost predicate NearestFirst(r: Relation, root: Id, ids: seq<Id>) {
    forall i, j, p :: 0 <= i < j < |ids| && WalkFrom(r, root, p) && p[|p| - 1] == ids[j] ==> ReachedWithin(r, root, ids[i], |p|)
  }

  ghost predicate ReachedWithin(r: Relation, root: Id, x: Id, n: nat) {
    exists q :: WalkFrom(r, root, q) && q[|q| - 1] == x && |q| <= n
  }

  /**
   * The ids in order of discovery, with the depth each was found at: depths never drop, and everything next to
   * the first `h` ids, which are dealt with, is at most one deeper.
   */
  ghost predicate Layered(r: Relation, root: Id, order: seq<Id>, h: nat, depth: map<Id, nat>) {
    && root in depth && depth[root] == 0
    && (forall x :: x in order ==> x in depth)
    && (forall x :: x in depth ==> AtDepth(r, root, x, depth[x]))
    && (forall i, j :: 0 <= i < j < |order| ==> depth[order[i]] <= depth[order[j]])
    && (forall i, b :: 0 <= i < h && i < |order| && (order[i], b) in r ==> b in depth && depth[b] <= depth[order[i]] + 1)
  }

  /** Nothing found so far is more than one deeper than the id at hand. */
  ghost predicate Shallow(order: seq<Id>, h: nat, depth: map<Id, nat>) {
    h < |order| && order[h] in depth ==> forall x :: x in depth ==> depth[x] <= depth[order[h]] + 1
  }

  /** The queue is what has been found and not been taken off it. */
  ghost predicate Layers(r: Relation, root: Id, ids: seq<Id>, h: nat, depth: map<Id, nat>, visited: set<Id>) {
    depth.Keys == visited && Layered(r, root, [root] + ids, h, depth) && Shallow([root] + ids, h, depth)
  }

  lemma {:induction false} LayersStart(r: Relation, root: Id)
    ensures Layers(r, root, [], 0, map[root := 0], {root})
  {
    assert WalkFrom(r, root, [root]);
  }

  lemma {:induction false} DeeperByOne(r: Relation, root: Id, a: Id, b: Id, d: nat)
    requires AtDepth(r, root, a, d) && (a, b) in r
    ensures AtDepth(r, root, b, d + 1)
  {
    var p :| WalkFrom(r, root, p) && p[|p| - 1] == a && |p| == d + 1;
    assert Walk(r, [a, b]);
    WalkJoin(r, p, [a, b]);
    assert WalkFrom(r, root, p + [a, b][1..]);
  }

  lemma {:induction false} LayersNew(r: Relation, root: Id, ids: seq<Id>, h: nat, depth: map<Id, nat>, visited: set<Id>, id: Id)
    requires Layers(r, root, ids, h, depth, visited) && h <= |ids| && (([root] + ids)[h], id) in r && id !in visited
    ensures ([root] + ids)[h] in depth
    ensures Layers(r, root, ids + [id], h, depth[id := depth[([root] + ids)[h]] + 1], visited + {id})
  {
    var order := [root] + ids;
    assert order[h] in order;
    DeeperByOne(r, root, order[h], id, depth[order[h]]);
    assert [root] + (ids + [id]) == order + [id];
  }

  lemma {:induction false} LayersDone(r: Relation, root: Id, ids: seq<Id>, h: nat, depth: map<Id, nat>, visited: set<Id>)
    requires Layers(r, root, ids, h, depth, visited) && h <= |ids|
    requires forall b :: (([root] + ids)[h], b) in r ==> b in visited
    ensures Layers(r, root, ids, h + 1, depth, visited)
  {
    var order := [root] + ids;
    assert order[h] in order;
    if h + 1 < |order| {
      assert order[h + 1] in order && depth[order[h]] <= depth[order[h + 1]];
    }
  }

  /** Once everything is dealt with, no walk is shorter than the depth found. */
  lemma {:induction false} DepthIsLeast(r: Relation, root: Id, order: seq<Id>, depth: map<Id, nat>, p: seq<Id>)
    requires Layered(r, root, order, |order|, depth) && WalkFrom(r, root, p) && forall x :: x in depth ==> x in order
    ensures p[|p| - 1] in depth && depth[p[|p| - 1]] <= |p| - 1
  {
    var n := |p| - 1;
    if n > 0 {
      assert p[..n] == p[0..n];
      WalkSlice(r, p, 0, n);
      DepthIsLeast(r, root, order, depth, p[..n]);
      assert (p[n - 1], p[n - 1 + 1]) in r;
      var i :| 0 <= i < |order| && order[i] == p[n - 1];
      assert (order[i], p[n]) in r;
    }
  }

  lemma {:induction false} LayersEnd(r: Relation, root: Id, ids: seq<Id>, depth: map<Id, nat>, visited: set<Id>)
    requires Layers(r, root, ids, |ids| + 1, depth, visited) && forall x :: x in visited ==> x == root || x in ids
    ensures NearestFirst(r, root, ids)
  {
    var order := [root] + ids;
    forall x | x in depth ensures x in order { }
    forall i, j, p | 0 <= i < j < |ids| && WalkFrom(r, root, p) && p[|p| - 1] == ids[j]
      ensures ReachedWithin(r, root, ids[i], |p|)
    {
      DepthIsLeast(r, root, order, depth, p);
      assert order[i + 1] == ids[i] && order[j + 1] == ids[j];
      assert AtDepth(r, root, ids[i], depth[ids[i]]);
      var q :| WalkFrom(r, root, q) && q[|q| - 1] == ids[i] && |q| == depth[ids[i]] + 1;
    }
  }

  // ---- The traversal ----

  function Universe(bucket: Bucket, root: Id): set<Id> {
    (set e | e in Pairs(bucket) :: e.1) + {root}
  }

  /** The state of the search: what has been found, and that the rest of it is on the queue. */
  ghost predicate Searching(bucket: Bucket, rollouts: map<Id, Rollout>, root: Id, visited: set<Id>, queue: seq<Id>,
                            result: seq<GraphNode>, h: nat, depth: map<Id, nat>)
  {
    && visited <= Universe(bucket, root)
    && Discovered(Pairs(bucket), root, visited, NodeIds(result)) && Described(bucket, rollouts, result)
    && Frontier(Pairs(bucket), visited, queue)
    && h <= |result| + 1 && queue == ([root] + NodeIds(result))[h..]
    && Layers(Pairs(bucket), root, NodeIds(result), h, depth, visited)
  }

  lemma {:induction false} SearchStart(bucket: Bucket, rollouts: map<Id, Rollout>, root: Id)
    ensures Searching(bucket, rollouts, root, {root}, [root], [], 0, map[root := 0])
  {
    ReachesSelf(Pairs(bucket), root);
    LayersStart(Pairs(bucket), root);
    assert [root] + NodeIds([]) == [root];
  }

  lemma {:induction false} SearchEnd(bucket: Bucket, rollouts: map<Id, Rollout>, root: Id, visited: set<Id>,
                                     result: seq<GraphNode>, h: nat, depth: map<Id, nat>)
    requires Searching(bucket, rollouts, root, visited, [], result, h, depth)
    ensures IsTraversal(Pairs(bucket), root, NodeIds(result)) && Described(bucket, rollouts, result)
    ensures NearestFirst(Pairs(bucket), root, NodeIds(result))
  {
    var r := Pairs(bucket);
    forall y ensures y in NodeIds(result) <==> y != root && Reaches(r, root, y) {
      if Reaches(r, root, y) {
        ReachesStaysIn(r, visited, root, y);
      }
    }
    assert |([root] + NodeIds(result))[h..]| == |result| + 1 - h;
    LayersEnd(r, root, NodeIds(result), depth, visited);
  }

  method BfsTraverse(bucket: Bucket, rollouts: map<Id, Rollout>, root: Id) returns (result: seq<GraphNode>)
    ensures IsTraversal(Pairs(bucket), root, NodeIds(result)) && Described(bucket, rollouts, result)
    ensures NearestFirst(Pairs(bucket), root, NodeIds(result))
  {
    var visited, queue := {root}, [root];
    result := [];
    ghost var universe := Universe(bucket, root);
    ghost var h: nat, depth: map<Id, nat> := 0, map[root := 0];
    SearchStart(bucket, rollouts, root);
    while queue != []
      invariant Searching(bucket, rollouts, root, visited, queue, result, h, depth)
      decreases |universe - visited|, |queue|
    {
      ghost var was := visited;
      visited, queue, result, depth := VisitNeighbours(bucket, rollouts, root, visited, queue, result, h, depth);
      h := h + 1;
      if visited != was {
        SmallerRest(universe, was, visited);
      }
    }
    SearchEnd(bucket, rollouts, root, visited, result, h, depth);
  }

  lemma {:induction false} FrontierStep(bucket: Bucket, visited: set<Id>, queue: seq<Id>, visited': set<Id>, queue': seq<Id>)
    requires queue != [] && Frontier(Pairs(bucket), visited, queue)
    requires visited' == visited + RefIds(ListAt(bucket, queue[0]))
    requires forall a :: a in queue' <==> a in queue[1..] || a in visited' - visited
    ensures Frontier(Pairs(bucket), visited', queue')
  {
    assert queue == [queue[0]] + queue[1..];
    forall a, b | (a, b) in Pairs(bucket) && a in visited' && a !in queue' ensures b in visited' {
      PairsAt(bucket, a, b);
      if a != queue[0] { assert a in visited && a !in queue; }
    }
  }

  lemma {:induction false} SmallerRest(U: set<Id>, A: set<Id>, B: set<Id>)
    requires A < B <= U
    ensures |U - B| < |U - A|
  {
    var x :| x in B && x !in A;
    assert U - B <= U - A - {x};
    SubsetSize(U - B, U - A - {x});
  }

  lemma {:induction false} SubsetSize(A: set<Id>, B: set<Id>)
    requires A <= B
    ensures |A| <= |B|
  {
    assert B == A + (B - A);
  }

  /** The first `i` neighbours of `current` have been dealt with. */
  ghost predicate Visiting(bucket: Bucket, rollouts: map<Id, Rollout>, root: Id, current: Id, i: nat,
                           visited0: set<Id>, queue0: seq<Id>, visited: set<Id>, queue: seq<Id>,
                           result: seq<GraphNode>, h: nat, depth: map<Id, nat>)
  {
    var refs := ListAt(bucket, current);
    && current in visited0 && i <= |refs| && visited == visited0 + RefIds(refs[..i]) && visited <= Universe(bucket, root)
    && (forall a :: a in queue <==> a in queue0 || a in visited - visited0)
    && (visited == visited0 ==> queue == queue0)
    && Discovered(Pairs(bucket), root, visited, NodeIds(result)) && Described(bucket, rollouts, result)
    && InProgress(Pairs(bucket), root, NodeIds(result), h, depth, visited, current, queue)
  }

  lemma {:induction false} VisitStart(bucket: Bucket, rollouts: map<Id, Rollout>, root: Id, visited: set<Id>,
                                      queue: seq<Id>, result: seq<GraphNode>, h: nat, depth: map<Id, nat>)
    requires Searching(bucket, rollouts, root, visited, queue, result, h, depth) && queue != []
    ensures Visiting(bucket, rollouts, root, queue[0], 0, visited, queue[1..], visited, queue[1..], result, h, depth)
  {
    var order := [root] + NodeIds(result);
    assert queue[0] == order[h] && queue[1..] == order[h + 1..];
    assert queue[0] in order;
  }

  lemma {:induction false} NodeDescribed(bucket: Bucket, rollouts: map<Id, Rollout>, nodes: seq<GraphNode>, current: Id, i: nat)
    requires Described(bucket, rollouts, nodes) && i < |ListAt(bucket, current)|
    ensures Described(bucket, rollouts, nodes + [LookupNode(rollouts, ListAt(bucket, current)[i])])
  {
    var ref := ListAt(bucket, current)[i];
    assert current in bucket && Reference(ref.id, ref.key) in bucket[current];
    assert LinkedAs(bucket, ref.id, ref.key);
  }

  lemma {:induction false} VisitNew(bucket: Bucket, rollouts: map<Id, Rollout>, root: Id, current: Id, i: nat,
                                    visited0: set<Id>, queue0: seq<Id>, visited: set<Id>, queue: seq<Id>,
                                    result: seq<GraphNode>, h: nat, depth: map<Id, nat>)
    requires Visiting(bucket, rollouts, root, current, i, visited0, queue0, visited, queue, result, h, depth)
    requires i < |ListAt(bucket, current)| && ListAt(bucket, current)[i].id !in visited
    ensures current in depth
    ensures var ref := ListAt(bucket, current)[i];
      Visiting(bucket, rollouts, root, current, i + 1, visited0, queue0, visited + {ref.id}, queue + [ref.id],
               result + [LookupNode(rollouts, ref)], h, depth[ref.id := depth[current] + 1])
  {
    var refs := ListAt(bucket, current);
    var id := refs[i].id;
    RefIdsNext(refs, i);
    QueueGrows(queue0, queue, visited0, visited, id);
    NeighbourReached(bucket, root, current, i);
    NodeDescribed(bucket, rollouts, result, current, i);
    Discover(Pairs(bucket), root, visited, result, LookupNode(rollouts, refs[i]));
    Progressed(Pairs(bucket), root, NodeIds(result), h, depth, visited, current, queue, id);
    assert visited + {id} == visited0 + RefIds(refs[..i + 1]) && id in visited + {id};
  }

  lemma {:induction false} VisitOld(bucket: Bucket, rollouts: map<Id, Rollout>, root: Id, current: Id, i: nat,
                                    visited0: set<Id>, queue0: seq<Id>, visited: set<Id>, queue: seq<Id>,
                                    result: seq<GraphNode>, h: nat, depth: map<Id, nat>)
    requires Visiting(bucket, rollouts, root, current, i, visited0, queue0, visited, queue, result, h, depth)
    requires i < |ListAt(bucket, current)| && ListAt(bucket, current)[i].id in visited
    ensures Visiting(bucket, rollouts, root, current, i + 1, visited0, queue0, visited, queue, result, h, depth)
  {
    RefIdsNext(ListAt(bucket, current), i);
  }

  lemma {:induction false} VisitEnd(bucket: Bucket, rollouts: map<Id, Rollout>, root: Id,
                                    visited0: set<Id>, queue0: seq<Id>, visited: set<Id>, queue: seq<Id>,
                                    result: seq<GraphNode>, h: nat, depth: map<Id, nat>)
    requires queue0 != [] && Frontier(Pairs(bucket), visited0, queue0)
    requires Visiting(bucket, rollouts, root, queue0[0], |ListAt(bucket, queue0[0])|, visited0, queue0[1..],
                      visited, queue, result, h, depth)
    ensures Searching(bucket, rollouts, root, visited, queue, result, h + 1, depth)
    ensures visited0 <= visited && (visited == visited0 ==> |queue| < |queue0|)
  {
    var current, refs := queue0[0], ListAt(bucket, queue0[0]);
    assert refs[..|refs|] == refs;
    forall b | (current, b) in Pairs(bucket) ensures b in visited { PairsAt(bucket, current, b); }
    FrontierStep(bucket, visited0, queue0, visited, queue);
    LayersDone(Pairs(bucket), root, NodeIds(result), h, depth, visited);
  }

  /** Marks, queues and reports the neighbours of the first queued id not seen before. */
  method VisitNeighbours(bucket: Bucket, rollouts: map<Id, Rollout>, ghost root: Id,
                         visited0: set<Id>, queue0: seq<Id>, result0: seq<GraphNode>,
                         ghost h: nat, ghost depth0: map<Id, nat>)
    returns (visited: set<Id>, queue: seq<Id>, result: seq<GraphNode>, ghost depth: map<Id, nat>)
    requires Searching(bucket, rollouts, root, visited0, queue0, result0, h, depth0) && queue0 != []
    ensures Searching(bucket, rollouts, root, visited, queue, result, h + 1, depth)
    ensures visited0 <= visited && (visited == visited0 ==> |queue| < |queue0|)
  {
    var current := queue0[0];
    var refs := ListAt(bucket, current);
    VisitStart(bucket, rollouts, root, visited0, queue0, result0, h, depth0);
    visited, queue, result, depth := visited0, queue0[1..], result0, depth0;
    for i := 0 to |refs|
      invariant Visiting(bucket, rollouts, root, current, i, visited0, queue0[1..], visited, queue, result, h, depth)
    {
      var id := refs[i].id;
      if id in visited {
        VisitOld(bucket, rollouts, root, current, i, visited0, queue0[1..], visited, queue, result, h, depth);
      } else {
        VisitNew(bucket, rollouts, root, current, i, visited0, queue0[1..], visited, queue, result, h, depth);
        visited := visited + {id};
        queue := queue + [id];
        result := result + [LookupNode(rollouts, refs[i])];
        depth := depth[id := depth[current] + 1];
      }
    }
    VisitEnd(bucket, rollouts, root, visited0, queue0, visited, queue, result, h, depth);
  }

  /** The id at hand is the `h`-th found, and the queue is everything found after it. */
  ghost predicate InProgress(r: Relation, root: Id, ids: seq<Id>, h: nat, depth: map<Id, nat>, visited: set<Id>,
                             current: Id, queue: seq<Id>)
  {
    && h <= |ids| && current == ([root] + ids)[h] && queue == ([root] + ids)[h + 1..] && current in depth
    && Layers(r, root, ids, h, depth, visited)
  }

  lemma {:induction false} Progressed(r: Relation, root: Id, ids: seq<Id>, h: nat, depth: map<Id, nat>, visited: set<Id>,
                                      current: Id, queue: seq<Id>, id: Id)
    requires InProgress(r, root, ids, h, depth, visited, current, queue) && (current, id) in r && id !in visited
    ensures InProgress(r, root, ids + [id], h, depth[id := depth[current] + 1], visited + {id}, current, queue + [id])
  {
    LayersNew(r, root, ids, h, depth, visited, id);
    assert [root] + (ids + [id]) == ([root] + ids) + [id];
  }

  lemma {:induction false} RefIdsNext(refs: seq<Reference>, i: nat)
    requires i < |refs|
    ensures RefIds(refs[..i + 1]) == RefIds(refs[..i]) + {refs[i].id}
  {
    assert refs[..i + 1][..i] == refs[..i];
  }

  lemma {:induction false} NeighbourReached(bucket: Bucket, root: Id, current: Id, i: nat)
    requires Reaches(Pairs(bucket), root, current) && i < |ListAt(bucket, current)|
    ensures var id := ListAt(bucket, current)[i].id;
      id in Universe(bucket, root) && Reaches(Pairs(bucket), root, id) && (current, id) in Pairs(bucket)
  {
    var id := ListAt(bucket, current)[i].id;
    RefIdsMember(bucket[current], id);
    PairsAt(bucket, current, id);
    ReachesStep(Pairs(bucket), root, current, id);
    assert (current, id).1 == id;
  }

  lemma {:induction false} Discover(r: Relation, root: Id, visited: set<Id>, result: seq<GraphNode>, node: GraphNode)
    requires Discovered(r, root, visited, NodeIds(result)) && node.id !in visited && Reaches(r, root, node.id)
    ensures Discovered(r, root, visited + {node.id}, NodeIds(result + [node]))
    ensures NodeIds(result + [node]) == NodeIds(result) + [node.id]
  {
    var ids := NodeIds(result);
    assert NodeIds(result + [node]) == ids + [node.id];
    assert node.id !in ids;
  }

  method TransitiveDeps(db: DB, id: Id) returns (nodes: seq<GraphNode>)
    requires db.Valid()
    ensures NoDuplicates(NodeIds(nodes)) && Described(db.bySource, db.rollouts, nodes)
    ensures forall y :: y in NodeIds(nodes) <==> y != id && Reaches(db.links, id, y)
    ensures NearestFirst(db.links, id, NodeIds(nodes))
  {
    nodes := BfsTraverse(db.bySource, db.rollouts, id);
  }

  /** By the mirror of the two buckets, exactly the ids whose dependencies lead to `id`. */
  method TransitiveDependents(db: DB, id: Id) returns (nodes: seq<GraphNode>)
    requires db.Valid()
    ensures NoDuplicates(NodeIds(nodes)) && Described(db.byTarget, db.rollouts, nodes)
    ensures forall y :: y in NodeIds(nodes) <==> y != id && Reaches(db.links, y, id)
    ensures NearestFirst(Pairs(db.byTarget), id, NodeIds(nodes))
  {
    nodes := BfsTraverse(db.byTarget, db.rollouts, id);
    forall y ensures Reaches(Pairs(db.byTarget), id, y) <==> Reaches(db.links, y, id) {
      if Reaches(Pairs(db.byTarget), id, y) { ReachesReversed(Pairs(db.byTarget), db.links, id, y); }
      if Reaches(db.links, y, id) { ReachesReversed(db.links, Pairs(db.byTarget), y, id); }
    }
  }
}
