/** Directed graphs on ids, described by the walks in them. */
module Graphs {
  import opened Ordering

  type Id = string

  /** A pair `(a, b)` says that `a` depends on `b`. */
  type Relation = set<(Id, Id)>

  ghost predicate Walk(r: Relation, p: seq<Id>) {
    |p| > 0 && forall i :: 0 <= i < |p| - 1 ==> (p[i], p[i + 1]) in r
  }

  ghost predicate WalkFrom(r: Relation, a: Id, p: seq<Id>) {
    Walk(r, p) && p[0] == a
  }

  ghost predicate Closed(r: Relation, c: seq<Id>) {
    Walk(r, c) && |c| >= 2 && c[0] == c[|c| - 1]
  }

  ghost predicate Acyclic(r: Relation) {
    forall c :: !Closed(r, c)
  }

  ghost predicate OnCycle(r: Relation, b: Id) {
    exists c :: Closed(r, c) && c[0] == b
  }

  /** Some walk from `a` ends on a cycle. */
  ghost predicate CycleReachable(r: Relation, a: Id) {
    exists p :: WalkFrom(r, a, p) && OnCycle(r, p[|p| - 1])
  }

  function Restrict(r: Relation, nodes: set<Id>): Relation {
    set e | e in r && e.0 in nodes && e.1 in nodes
  }

  function ToSet<T(==)>(s: seq<T>): set<T> {
    set x | x in s
  }

  // ---- Pigeonhole ----

  lemma {:induction false} NoDuplicatesBound<T>(s: seq<T>, S: set<T>)
    requires NoDuplicates(s) && forall x :: x in s ==> x in S
    ensures |s| <= |S|
  {
    if s != [] {
      var n := |s| - 1;
      var t := s[..n];
      forall x | x in t ensures x in S - {s[n]} { }
      NoDuplicatesBound(t, S - {s[n]});
    }
  }

  lemma {:induction false} ToSetSnoc<T>(s: seq<T>, x: T)
    ensures ToSet(s + [x]) == ToSet(s) + {x}
  { }

  lemma {:induction false} NoDuplicatesSize<T>(s: seq<T>)
    ensures |ToSet(s)| <= |s|
    ensures |ToSet(s)| == |s| <==> NoDuplicates(s)
  {
    if s != [] {
      var n := |s| - 1;
      NoDuplicatesSize(s[..n]);
      ToSetSnoc(s[..n], s[n]);
      NoDuplicatesSnoc(s[..n], s[n]);
      assert s == s[..n] + [s[n]];
    }
  }

  lemma {:induction false} NoDuplicatesSnoc<T>(s: seq<T>, x: T)
    ensures NoDuplicates(s + [x]) <==> NoDuplicates(s) && x !in s
  {
    var t := s + [x];
    if NoDuplicates(t) {
      forall i | 0 <= i < |s| ensures s[i] != x {
        assert t[i] != t[|s|];
      }
      forall i, j | 0 <= i < j < |s| ensures s[i] != s[j] {
        assert t[i] != t[j];
      }
    }
  }

  // ---- Walks ----

  lemma {:induction false} WalkSlice(r: Relation, p: seq<Id>, i: nat, j: nat)
    requires Walk(r, p) && i < j <= |p|
    ensures Walk(r, p[i..j])
  {
    var q := p[i..j];
    forall k | 0 <= k < |q| - 1 ensures (q[k], q[k + 1]) in r {
      assert q[k] == p[i + k] && q[k + 1] == p[i + k + 1];
    }
  }

  lemma {:induction false} WalkCons(r: Relation, a: Id, p: seq<Id>)
    requires Walk(r, p) && (a, p[0]) in r
    ensures Walk(r, [a] + p)
  {
    var q := [a] + p;
    forall k | 0 <= k < |q| - 1 ensures (q[k], q[k + 1]) in r {
      if k > 0 { assert q[k] == p[k - 1] && q[k + 1] == p[k]; }
    }
  }

  lemma {:induction false} WalkJoin(r: Relation, p: seq<Id>, q: seq<Id>)
    requires Walk(r, p) && Walk(r, q) && p[|p| - 1] == q[0]
    ensures Walk(r, p + q[1..])
  {
    var w := p + q[1..];
    forall k | 0 <= k < |w| - 1 ensures (w[k], w[k + 1]) in r {
      if k < |p| - 1 {
        assert w[k] == p[k] && w[k + 1] == p[k + 1];
      } else {
        assert w[k] == q[k - (|p| - 1)] && w[k + 1] == q[k - (|p| - 1) + 1];
      }
    }
  }

  /** A walk longer than the number of nodes it may visit closes a cycle on the way. */
  lemma {:induction false} LongWalkRevisits(r: Relation, nodes: set<Id>, p: seq<Id>)
    requires Walk(r, p) && |p| > |nodes| && forall i :: 0 <= i < |p| ==> p[i] in nodes
    ensures CycleReachable(r, p[0]) && !Acyclic(r)
  {
    if NoDuplicates(p) {
      NoDuplicatesBound(p, nodes);
      assert false;
    }
    var i, j :| 0 <= i < j < |p| && p[i] == p[j];
    var c := p[i..j + 1];
    WalkSlice(r, p, i, j + 1);
    assert Closed(r, c);
    var w := p[..i + 1];
    WalkSlice(r, p, 0, i + 1);
    assert w == p[0..i + 1];
    assert WalkFrom(r, p[0], w) && OnCycle(r, w[|w| - 1]);
  }

  ghost predicate HasSuccessorIn(r: Relation, nodes: set<Id>, x: Id) {
    exists y :: y in nodes && (x, y) in r
  }

  ghost predicate NoSink(r: Relation, nodes: set<Id>) {
    forall x :: x in nodes ==> HasSuccessorIn(r, nodes, x)
  }

  /** Where every node has a successor, walks of any length exist. */
  lemma {:induction false} EndlessWalk(r: Relation, nodes: set<Id>, a: Id, n: nat) returns (p: seq<Id>)
    requires a in nodes && NoSink(r, nodes)
    ensures WalkFrom(r, a, p) && |p| == n + 1 && forall i :: 0 <= i < |p| ==> p[i] in nodes
    decreases n
  {
    if n == 0 {
      p := [a];
    } else {
      assert HasSuccessorIn(r, nodes, a);
      var y :| y in nodes && (a, y) in r;
      var q := EndlessWalk(r, nodes, y, n - 1);
      WalkCons(r, a, q);
      p := [a] + q;
    }
  }

  lemma {:induction false} NoSinkMeansCycle(r: Relation, nodes: set<Id>, a: Id)
    requires a in nodes && NoSink(r, nodes)
    ensures CycleReachable(r, a) && !Acyclic(r)
  {
    var p := EndlessWalk(r, nodes, a, |nodes|);
    LongWalkRevisits(r, nodes, p);
  }

  /** A numbering that drops along every pair rules out cycles. */
  ghost predicate Descending(r: Relation, rank: map<Id, int>) {
    forall a, b :: (a, b) in r ==> a in rank && b in rank && rank[b] < rank[a]
  }

  lemma {:induction false} DescendingWalk(r: Relation, rank: map<Id, int>, p: seq<Id>)
    requires Descending(r, rank) && Walk(r, p) && |p| >= 2
    ensures p[0] in rank && p[|p| - 1] in rank && rank[p[|p| - 1]] <= rank[p[0]] - (|p| - 1)
  {
    var n := |p| - 1;
    assert (p[n - 1], p[n]) in r by { assert n - 1 + 1 == n; }
    if n > 1 {
      assert p[..n] == p[0..n];
      WalkSlice(r, p, 0, n);
      DescendingWalk(r, rank, p[..n]);
    }
  }

  lemma {:induction false} DescendingIsAcyclic(r: Relation, rank: map<Id, int>)
    requires Descending(r, rank)
    ensures Acyclic(r)
  {
    forall c ensures !Closed(r, c) {
      if Closed(r, c) { DescendingWalk(r, rank, c); assert false; }
    }
  }

  lemma {:induction false} OrderedIsAcyclic(r: Relation, order: Id -> int)
    requires forall a, b :: (a, b) in r ==> order(b) < order(a)
    ensures Acyclic(r)
  {
    var nodes := (set e | e in r :: e.0) + (set e | e in r :: e.1);
    var rank := map x | x in nodes :: order(x);
    forall a, b | (a, b) in r ensures a in rank && b in rank && rank[b] < rank[a] {
      assert (a, b).0 in nodes && (a, b).1 in nodes;
    }
    DescendingIsAcyclic(r, rank);
  }

  lemma {:induction false} WalkMonotone(r: Relation, r': Relation, p: seq<Id>)
    requires r <= r' && Walk(r, p)
    ensures Walk(r', p)
  { }

  lemma {:induction false} AcyclicMonotone(r: Relation, r': Relation)
    requires r <= r' && Acyclic(r')
    ensures Acyclic(r)
  {
    forall c ensures !Closed(r, c) {
      if Closed(r, c) { WalkMonotone(r, r', c); assert Closed(r', c); }
    }
  }

  lemma {:induction false} AcyclicNoReachableCycle(r: Relation, a: Id)
    requires Acyclic(r)
    ensures !CycleReachable(r, a)
  { }

  // ---- Reachability ----

  ghost predicate Reaches(r: Relation, a: Id, b: Id) {
    exists p :: WalkFrom(r, a, p) && p[|p| - 1] == b
  }

  lemma {:induction false} ReachesSelf(r: Relation, a: Id)
    ensures Reaches(r, a, a)
  {
    assert WalkFrom(r, a, [a]);
  }

  lemma {:induction false} ReachesStep(r: Relation, a: Id, b: Id, c: Id)
    requires Reaches(r, a, b) && (b, c) in r
    ensures Reaches(r, a, c)
  {
    var p :| WalkFrom(r, a, p) && p[|p| - 1] == b;
    assert Walk(r, [b, c]);
    WalkJoin(r, p, [b, c]);
    assert WalkFrom(r, a, p + [b, c][1..]);
  }

  /** Walks cannot leave a set closed under the relation. */
  lemma {:induction false} WalkStaysIn(r: Relation, S: set<Id>, p: seq<Id>)
    requires Walk(r, p) && p[0] in S
    requires forall a, b :: (a, b) in r && a in S ==> b in S
    ensures forall i :: 0 <= i < |p| ==> p[i] in S
    ensures Walk(Restrict(r, S), p)
  {
    if |p| > 1 {
      assert (p[0], p[0 + 1]) in r;
      WalkSlice(r, p, 1, |p|);
      var q := p[1..];
      assert q == p[1..|p|];
      WalkStaysIn(r, S, q);
      forall i | 0 <= i < |p| ensures p[i] in S {
        if i > 0 { assert p[i] == q[i - 1]; }
      }
    }
  }

  lemma {:induction false} ReachesStaysIn(r: Relation, S: set<Id>, a: Id, b: Id)
    requires a in S && Reaches(r, a, b) && forall x, y :: (x, y) in r && x in S ==> y in S
    ensures b in S
  {
    var p :| WalkFrom(r, a, p) && p[|p| - 1] == b;
    WalkStaysIn(r, S, p);
  }

  /** Reading every pair backwards reverses reachability. */
  lemma {:induction false} ReachesReversed(r: Relation, r': Relation, a: Id, b: Id)
    requires forall x, y :: (x, y) in r <==> (y, x) in r'
    requires Reaches(r, a, b)
    ensures Reaches(r', b, a)
  {
    var p :| WalkFrom(r, a, p) && p[|p| - 1] == b;
    var n := |p|;
    var q := seq(n, i requires 0 <= i < n => p[n - 1 - i]);
    forall i | 0 <= i < |q| - 1 ensures (q[i], q[i + 1]) in r' {
      var k := n - 2 - i;
      assert (p[k], p[k + 1]) in r;
    }
    assert WalkFrom(r', b, q);
  }

  // ---- Contraction ----

  /** A walk from `a` to `b` that passes through nothing in `S` on the way. */
  ghost predicate Passage(r: Relation, S: set<Id>, a: Id, b: Id, p: seq<Id>) {
    Walk(r, p) && |p| >= 2 && p[0] == a && p[|p| - 1] == b && forall i :: 0 < i < |p| - 1 ==> p[i] !in S
  }

  /** The graph that is left on `S` once everything else is passed through. */
  ghost function Contracted(r: Relation, S: set<Id>): Relation {
    set a, b | a in S && b in S && (exists p :: Passage(r, S, a, b, p)) :: (a, b)
  }

  function Outside(r: Relation, S: set<Id>): Relation {
    set e | e in r && e.0 !in S && e.1 !in S
  }

  lemma {:induction false} FirstIn(S: set<Id>, p: seq<Id>) returns (j: nat)
    requires |p| >= 2 && p[|p| - 1] in S
    ensures 1 <= j < |p| && p[j] in S && forall i :: 0 < i < j ==> p[i] !in S
  {
    j := 1;
    while p[j] !in S
      invariant 1 <= j < |p| && forall i :: 0 < i < j ==> p[i] !in S
      decreases |p| - j
    {
      j := j + 1;
    }
  }

  lemma {:induction false} ContractWalk(r: Relation, S: set<Id>, p: seq<Id>) returns (q: seq<Id>)
    requires Walk(r, p) && |p| >= 2 && p[0] in S && p[|p| - 1] in S
    ensures Walk(Contracted(r, S), q) && |q| >= 2 && q[0] == p[0] && q[|q| - 1] == p[|p| - 1]
    decreases |p|
  {
    var j := FirstIn(S, p);
    var n := |p|;
    WalkSlice(r, p, 0, j + 1);
    assert Passage(r, S, p[0], p[j], p[0..j + 1]);
    if j == n - 1 {
      q := [p[0], p[j]];
    } else {
      WalkSlice(r, p, j, n);
      var rest := ContractWalk(r, S, p[j..n]);
      WalkCons(Contracted(r, S), p[0], rest);
      q := [p[0]] + rest;
    }
  }

  lemma {:induction false} ExpandWalk(r: Relation, S: set<Id>, q: seq<Id>) returns (p: seq<Id>)
    requires Walk(Contracted(r, S), q) && |q| >= 2
    ensures Walk(r, p) && |p| >= 2 && p[0] == q[0] && p[|p| - 1] == q[|q| - 1]
    decreases |q|
  {
    assert (q[0], q[0 + 1]) in Contracted(r, S);
    var head :| Passage(r, S, q[0], q[1], head);
    if |q| == 2 {
      p := head;
    } else {
      WalkSlice(Contracted(r, S), q, 1, |q|);
      var tail := ExpandWalk(r, S, q[1..|q|]);
      WalkJoin(r, head, tail);
      p := head + tail[1..];
    }
  }

  /** A cycle may start anywhere on it. */
  lemma {:induction false} Rotated(r: Relation, c: seq<Id>, k: nat)
    requires Closed(r, c) && k < |c|
    ensures var d := c[k..] + c[..k + 1][1..]; Closed(r, d) && d[0] == c[k]
  {
    var n := |c|;
    WalkSlice(r, c, k, n);
    WalkSlice(r, c, 0, k + 1);
    assert c[k..] == c[k..n] && c[..k + 1] == c[0..k + 1];
    WalkJoin(r, c[k..], c[..k + 1]);
  }

  /** A graph is acyclic exactly when nothing cycles outside `S` and what is left on `S` is acyclic. */
  lemma {:induction false} ContractionAcyclicIff(r: Relation, S: set<Id>)
    ensures Acyclic(r) <==> Acyclic(Outside(r, S)) && Acyclic(Contracted(r, S))
  {
    if Acyclic(r) {
      AcyclicMonotone(Outside(r, S), r);
      if c :| Closed(Contracted(r, S), c) {
        var p := ExpandWalk(r, S, c);
        assert Closed(r, p);
      }
    } else {
      var c :| Closed(r, c);
      if k :| 0 <= k < |c| && c[k] in S {
        Rotated(r, c, k);
        var q := ContractWalk(r, S, c[k..] + c[..k + 1][1..]);
        assert Closed(Contracted(r, S), q);
      } else {
        forall i | 0 <= i < |c| - 1 ensures (c[i], c[i + 1]) in Outside(r, S) { }
        assert Closed(Outside(r, S), c);
      }
    }
  }

  // ---- Searches ----

  /** Everything visited but no longer queued has all its neighbours visited. */
  ghost predicate Frontier(r: Relation, visited: set<Id>, queue: seq<Id>) {
    && (forall a :: a in queue ==> a in visited)
    && forall a, b :: (a, b) in r && a in visited && a !in queue ==> b in visited
  }

  /** Marking and queueing one more id keeps the queue made of the old one and what was marked since. */
  lemma {:induction false} QueueGrows(queue0: seq<Id>, queue: seq<Id>, visited0: set<Id>, visited: set<Id>, id: Id)
    requires visited0 <= visited && id !in visited
    requires forall a :: a in queue <==> a in queue0 || a in visited - visited0
    ensures forall a :: a in queue + [id] <==> a in queue0 || a in visited + {id} - visited0
  { }
}
