/** The order that Kahn's algorithm with smallest-id tie-breaking produces, and what is true of it. */
module Kahn {
  import opened Ordering
  import opened Graphs

  /** Ids of the batch not yet emitted whose in-batch targets all are. */
  ghost function Ready(r: Relation, batch: set<Id>, done: set<Id>): set<Id> {
    set x | x in batch && x !in done && forall t :: (x, t) in r && t in batch ==> t in done
  }

  ghost predicate IsLeast(x: Id, S: set<Id>) {
    x in S && forall y :: y in S ==> LessEq(x, y)
  }

  lemma {:induction false} LeastExists(S: set<Id>)
    requires S != {}
    ensures exists x :: IsLeast(x, S)
  {
    var a :| a in S;
    if S == {a} {
      assert IsLeast(a, S);
    } else {
      var T := S - {a};
      assert S == T + {a};
      LeastExists(T);
      var b :| IsLeast(b, T);
      LessTotal(a, b);
      var x := if LessEq(a, b) then a else b;
      forall y | y in S ensures LessEq(x, y) {
        if y != a {
          assert LessEq(b, y);
          LessEqTransitive(x, b, y);
        }
      }
      assert IsLeast(x, S);
    }
  }

  lemma {:induction false} LeastUnique(x: Id, y: Id, S: set<Id>)
    requires IsLeast(x, S) && IsLeast(y, S)
    ensures x == y
  {
    LessEqAntisymmetric(x, y);
  }

  ghost function Least(S: set<Id>): (x: Id)
    requires S != {}
    ensures IsLeast(x, S)
  {
    LeastExists(S);
    var x :| IsLeast(x, S); x
  }

  /** The elements of a set of ids in increasing order. */
  ghost function InOrder(S: set<Id>): seq<Id>
    decreases |S|
  {
    if S == {} then [] else [Least(S)] + InOrder(S - {Least(S)})
  }

  lemma {:induction false} InOrderUnique(s: seq<Id>, S: set<Id>)
    requires Sorted(s) && NoDuplicates(s) && forall x :: x in s <==> x in S
    ensures s == InOrder(S)
    decreases |s|
  {
    if s == [] {
      assert S == {};
    } else {
      assert s[0] in s;
      assert IsLeast(s[0], S);
      LeastUnique(s[0], Least(S), S);
      var t := s[1..];
      assert s == [s[0]] + t;
      forall x ensures x in t <==> x in S - {s[0]} {
        if x in t { assert x in s; }
      }
      InOrderUnique(t, S - {s[0]});
    }
  }

  lemma {:induction false} InOrderElements(S: set<Id>)
    ensures forall x :: x in InOrder(S) <==> x in S
    ensures NoDuplicates(InOrder(S))
    decreases |S|
  {
    if S != {} {
      var x := Least(S);
      InOrderElements(S - {x});
      assert InOrder(S) == [x] + InOrder(S - {x});
      assert x !in InOrder(S - {x});
    }
  }

  lemma {:induction false} InOrderSorted(S: set<Id>)
    ensures Sorted(InOrder(S))
    decreases |S|
  {
    if S != {} {
      var x, rest := Least(S), InOrder(S - {Least(S)});
      InOrderSorted(S - {x});
      InOrderElements(S - {x});
      forall j | 0 <= j < |rest| ensures LessEq(x, rest[j]) {
        assert rest[j] in rest;
      }
      assert InOrder(S) == [x] + rest;
    }
  }

  /** What is emitted once the ids in `done` are out. */
  ghost function KahnFrom(r: Relation, batch: set<Id>, done: set<Id>): seq<Id>
    decreases |batch - done|
  {
    var ready := Ready(r, batch, done);
    if ready == {} then []
    else
      var x := Least(ready);
      assert batch - (done + {x}) == batch - done - {x};
      [x] + KahnFrom(r, batch, done + {x})
  }

  ghost function KahnOrder(r: Relation, batch: set<Id>): seq<Id> {
    KahnFrom(r, batch, {})
  }

  /** Every element is the least ready one at its turn, and at the end nothing is ready. */
  ghost predicate Greedy(r: Relation, batch: set<Id>, done: set<Id>, s: seq<Id>) {
    && (forall i :: 0 <= i < |s| ==> IsLeast(s[i], Ready(r, batch, done + ToSet(s[..i]))))
    && Ready(r, batch, done + ToSet(s)) == {}
  }

  lemma {:induction false} KahnFromGreedy(r: Relation, batch: set<Id>, done: set<Id>)
    ensures Greedy(r, batch, done, KahnFrom(r, batch, done))
    decreases |batch - done|
  {
    var ready := Ready(r, batch, done);
    if ready == {} {
      assert done + ToSet<Id>([]) == done;
    } else {
      var x := Least(ready);
      assert batch - (done + {x}) == batch - done - {x};
      KahnFromGreedy(r, batch, done + {x});
      GreedyCons(r, batch, done, x, KahnFrom(r, batch, done + {x}));
    }
  }

  lemma {:induction false} GreedyCons(r: Relation, batch: set<Id>, done: set<Id>, x: Id, t: seq<Id>)
    requires IsLeast(x, Ready(r, batch, done)) && Greedy(r, batch, done + {x}, t)
    ensures Greedy(r, batch, done, [x] + t)
  {
    var s := [x] + t;
    forall i | 0 <= i < |s| ensures IsLeast(s[i], Ready(r, batch, done + ToSet(s[..i]))) {
      PrefixSet(x, t, i);
      if i == 0 {
        assert done + ToSet(s[..0]) == done;
      } else {
        assert done + ToSet(s[..i]) == done + {x} + ToSet(t[..i - 1]);
      }
    }
    PrefixSet(x, t, |s|);
    assert s[..|s|] == s && t[..|t|] == t;
    assert done + ToSet(s) == done + {x} + ToSet(t);
  }

  lemma {:induction false} PrefixSet(x: Id, t: seq<Id>, i: nat)
    requires i <= |t| + 1
    ensures ToSet(([x] + t)[..i]) == if i == 0 then {} else {x} + ToSet(t[..i - 1])
  {
    if i > 0 {
      assert ([x] + t)[..i] == [x] + t[..i - 1];
    }
  }

  /** The order lists each id of the batch once, after all of its in-batch targets. */
  ghost predicate Topological(r: Relation, batch: set<Id>, q: seq<Id>) {
    && NoDuplicates(q)
    && ToSet(q) == batch
    && AfterTargets(r, batch, q)
  }

  ghost predicate AfterTargets(r: Relation, batch: set<Id>, q: seq<Id>) {
    forall i, t :: 0 <= i < |q| && (q[i], t) in r && t in batch ==> t in q[..i]
  }

  lemma {:induction false} KahnOrderSound(r: Relation, batch: set<Id>)
    ensures var s := KahnOrder(r, batch);
      NoDuplicates(s) && ToSet(s) <= batch && AfterTargets(r, batch, s)
  {
    KahnFromGreedy(r, batch, {});
    var s := KahnOrder(r, batch);
    forall i | 0 <= i < |s|
      ensures s[i] in batch && s[i] !in s[..i]
      ensures forall t :: (s[i], t) in r && t in batch ==> t in s[..i]
    {
      assert IsLeast(s[i], Ready(r, batch, {} + ToSet(s[..i])));
    }
    forall i, j | 0 <= i < j < |s| ensures s[i] != s[j] {
      assert s[i] in s[..j];
    }
  }

  /** Positions in an order that respects targets give a descending numbering. */
  lemma {:induction false} OrderIsAcyclic(r: Relation, batch: set<Id>, q: seq<Id>)
    requires NoDuplicates(q) && ToSet(q) <= batch && AfterTargets(r, batch, q)
    ensures Acyclic(Restrict(r, ToSet(q)))
  {
    var rank := map x | x in ToSet(q) :: PositionIn(q, x);
    var r' := Restrict(r, ToSet(q));
    forall a, b | (a, b) in r' ensures a in rank && b in rank && rank[b] < rank[a] {
      var i := PositionIn(q, a);
      assert b in q[..i];
      var j :| 0 <= j < i && q[j] == b;
      assert PositionIn(q, b) == j;
    }
    DescendingIsAcyclic(r', rank);
  }

  ghost function PositionIn<T>(q: seq<T>, x: T): (i: int)
    requires x in q
    ensures 0 <= i < |q| && q[i] == x
  {
    var i :| 0 <= i < |q| && q[i] == x; i
  }

  /** An emitted id cannot reach a cycle; one left over always does. */
  lemma {:induction false} KahnEmitsExactly(r: Relation, batch: set<Id>, x: Id)
    ensures x in KahnOrder(r, batch) <==> x in batch && !CycleReachable(Restrict(r, batch), x)
  {
    var s := KahnOrder(r, batch);
    var rb := Restrict(r, batch);
    KahnOrderSound(r, batch);
    if x in s {
      assert x in ToSet(s);
      EmittedIsSafe(r, batch, s, x);
    } else if x in batch {
      var left := batch - ToSet(s);
      KahnFromGreedy(r, batch, {});
      forall y | y in left ensures HasSuccessorIn(rb, left, y) {
        assert y !in Ready(r, batch, {} + ToSet(s));
        var t :| (y, t) in r && t in batch && t !in ToSet(s);
        assert t in left && (y, t) in rb;
      }
      NoSinkMeansCycle(rb, left, x);
    }
  }

  lemma {:induction false} EmittedIsSafe(r: Relation, batch: set<Id>, s: seq<Id>, x: Id)
    requires NoDuplicates(s) && ToSet(s) <= batch && AfterTargets(r, batch, s) && x in s
    ensures x in batch && !CycleReachable(Restrict(r, batch), x)
  {
    var S := ToSet(s);
    var rb := Restrict(r, batch);
    assert x in S;
    forall a, b | (a, b) in rb && a in S ensures b in S {
      var i := PositionIn(s, a);
      assert b in s[..i];
    }
    OrderIsAcyclic(r, batch, s);
    if CycleReachable(rb, x) {
      var p :| WalkFrom(rb, x, p) && OnCycle(rb, p[|p| - 1]);
      WalkStaysIn(rb, S, p);
      var c :| Closed(rb, c) && c[0] == p[|p| - 1];
      WalkStaysIn(rb, S, c);
      assert Restrict(rb, S) == Restrict(r, S);
      assert Closed(Restrict(r, S), c);
    }
  }

  lemma {:induction false} KahnComplete(r: Relation, batch: set<Id>)
    requires Acyclic(Restrict(r, batch))
    ensures Topological(r, batch, KahnOrder(r, batch))
  {
    KahnOrderSound(r, batch);
    forall x | x in batch ensures x in KahnOrder(r, batch) {
      AcyclicNoReachableCycle(Restrict(r, batch), x);
      KahnEmitsExactly(r, batch, x);
    }
  }

  /** Among all topological orders of the batch, Kahn's is first in dictionary order. */
  lemma {:induction false} KahnIsLexLeast(r: Relation, batch: set<Id>, q: seq<Id>)
    requires Topological(r, batch, q)
    ensures Topological(r, batch, KahnOrder(r, batch))
    ensures LexLessEq(KahnOrder(r, batch), q)
  {
    OrderIsAcyclic(r, batch, q);
    KahnComplete(r, batch);
    KahnFromGreedy(r, batch, {});
    LexLeastFrom(r, batch, KahnOrder(r, batch), q, 0);
  }

  lemma {:induction false} LexLeastFrom(r: Relation, batch: set<Id>, s: seq<Id>, q: seq<Id>, i: nat)
    requires Greedy(r, batch, {}, s) && Topological(r, batch, s) && Topological(r, batch, q)
    requires i <= |s| && i <= |q| && s[..i] == q[..i]
    ensures LexLessEq(s, q)
    decreases |s| - i
  {
    if i == |s| {
      assert s == q[..i];
    } else {
      NextIsLeast(r, batch, s, q, i);
      if s[i] == q[i] {
        assert s[..i + 1] == s[..i] + [s[i]];
        assert q[..i + 1] == q[..i] + [q[i]];
        LexLeastFrom(r, batch, s, q, i + 1);
      }
    }
  }

  /** What any other order has next was ready too. */
  lemma {:induction false} NextIsLeast(r: Relation, batch: set<Id>, s: seq<Id>, q: seq<Id>, i: nat)
    requires Greedy(r, batch, {}, s) && Topological(r, batch, s) && Topological(r, batch, q)
    requires i < |s| && i <= |q| && s[..i] == q[..i]
    ensures i < |q| && LessEq(s[i], q[i])
  {
    assert IsLeast(s[i], Ready(r, batch, {} + ToSet(s[..i])));
    assert s[i] in ToSet(q);
    var k :| 0 <= k < |q| && q[k] == s[i];
    assert s[i] !in q[..i];
    NextIsReady(r, batch, q, i);
    assert {} + ToSet(s[..i]) == ToSet(q[..i]);
  }

  lemma {:induction false} NextIsReady(r: Relation, batch: set<Id>, q: seq<Id>, i: nat)
    requires Topological(r, batch, q) && i < |q|
    ensures q[i] in Ready(r, batch, ToSet(q[..i]))
  {
    assert q[i] in ToSet(q) && q[i] !in q[..i];
  }

  /** An acyclic relation on finitely many ids can be numbered downwards. */
  lemma {:induction false} AcyclicHasRank(r: Relation, nodes: set<Id>) returns (rank: map<Id, int>)
    requires Acyclic(r) && forall a, b :: (a, b) in r ==> a in nodes && b in nodes
    ensures Descending(r, rank) && rank.Keys == nodes && forall x :: x in rank ==> 0 <= rank[x] < |nodes|
  {
    assert forall e :: e in Restrict(r, nodes) ==> e in r;
    AcyclicMonotone(Restrict(r, nodes), r);
    KahnComplete(r, nodes);
    var q := KahnOrder(r, nodes);
    NoDuplicatesSize(q);
    rank := map x | x in nodes :: (assert x in ToSet(q); PositionIn(q, x));
    forall a, b | (a, b) in r ensures a in rank && b in rank && rank[b] < rank[a] {
      assert a in ToSet(q) && b in ToSet(q);
      var i := PositionIn(q, a);
      assert (q[i], b) in r;
      assert b in q[..i];
    }
  }
}
