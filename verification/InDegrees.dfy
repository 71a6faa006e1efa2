/** The two maps that Kahn's algorithm works on: in-degrees and adjacency lists. */
module InDegrees {
  import opened Ordering
  import opened Graphs

  function Lookup(adjacency: map<Id, seq<Id>>, t: Id): seq<Id> {
    if t in adjacency then adjacency[t] else []
  }

  /** The ids with degree zero, in whatever order the map yields them, then sorted. */
  method ZeroDegree(inDegree: map<Id, int>) returns (ids: seq<Id>)
    ensures Sorted(ids) && NoDuplicates(ids)
    ensures forall x :: x in ids <==> x in inDegree && inDegree[x] == 0
  {
    ids := [];
    var rest := inDegree.Keys;
    while rest != {}
      invariant rest <= inDegree.Keys && NoDuplicates(ids)
      invariant forall x :: x in ids <==> x in inDegree && x !in rest && inDegree[x] == 0
      decreases |rest|
    {
      var id :| id in rest;
      rest := rest - {id};
      if inDegree[id] == 0 {
        ids := ids + [id];
      }
    }
    SortSorted(ids);
    SortNoDuplicates(ids);
    SortElements(ids);
    ids := Sort(ids);
  }
}
