/** Grouping services into start levels, and the reverse for stopping. */
module StartOrder {
  import opened Ordering
  import opened Slices
  import opened Graphs
  import opened Kahn
  import opened InDegrees
  import opened Compositions

  function Deps(services: Services, s: Name): set<Name>
    requires s in services
  {
    services[s].dependsOn.Keys
  }

  /** The services all of whose dependency chains end within `k` services. */
  ghost function Low(services: Services, k: nat): set<Name> {
    if k == 0 then {} else set s | s in services && Deps(services, s) <= Low(services, k - 1)
  }

  lemma {:induction false} LowGrows(services: Services, k: nat)
    ensures Low(services, k) <= Low(services, k + 1) <= services.Keys
  {
    if k > 0 {
      LowGrows(services, k - 1);
    }
  }

  lemma {:induction false} LowMonotone(services: Services, j: nat, k: nat)
    requires j <= k
    ensures Low(services, j) <= Low(services, k)
    decreases k
  {
    if j < k {
      LowMonotone(services, j, k - 1);
      LowGrows(services, k - 1);
    }
  }

  /** The first `k` start levels, each in name order. */
  ghost function LevelsOf(services: Services, k: nat): (levels: seq<seq<Name>>)
    ensures |levels| == k
  {
    if k == 0 then [] else LevelsOf(services, k - 1) + [InOrder(Low(services, k) - Low(services, k - 1))]
  }

  lemma {:induction false} LevelAt(services: Services, n: nat, k: nat)
    requires k < n
    ensures LevelsOf(services, n)[k] == InOrder(Low(services, k + 1) - Low(services, k))
    ensures forall x :: x in LevelsOf(services, n)[k] <==> x in Low(services, k + 1) && x !in Low(services, k)
    ensures NoDuplicates(LevelsOf(services, n)[k])
  {
    LevelElement(services, n, k);
    InOrderElements(Low(services, k + 1) - Low(services, k));
  }

  lemma {:induction false} LevelElement(services: Services, n: nat, k: nat)
    requires k < n
    ensures LevelsOf(services, n)[k] == InOrder(Low(services, k + 1) - Low(services, k))
  {
    if k < n - 1 { LevelElement(services, n - 1, k); }
  }

  /** Within a level, services come in the order of their names. */
  lemma {:induction false} LevelInNameOrder(services: Services, levels: seq<seq<Name>>, k: nat)
    requires AreLevels(services, levels) && k < |levels|
    ensures Sorted(levels[k]) && NoDuplicates(levels[k]) && levels[k] != []
  {
    LevelAt(services, |levels|, k);
    InOrderSorted(Low(services, k + 1) - Low(services, k));
    assert levels[k] in levels;
  }

  /** The services have been grouped into levels completely. */
  ghost predicate AreLevels(services: Services, levels: seq<seq<Name>>) {
    levels == LevelsOf(services, |levels|) && Low(services, |levels|) == services.Keys && [] !in levels
  }

  datatype StartResult = Levels(levels: seq<seq<Name>>) | CycleDetected

  // ---- In-degrees ----

  /** The list names, once each, the services outside `rest` that depend on `d`. */
  ghost predicate ListsDependents(services: Services, rest: set<Name>, d: Name, list: seq<Name>) {
    NoDuplicates(list) && forall s :: s in list <==> s in services && s !in rest && d in Deps(services, s)
  }

  ghost predicate AreDependents(services: Services, rest: set<Name>, dependents: map<Name, seq<Name>>) {
    forall d :: ListsDependents(services, rest, d, Lookup(dependents, d))
  }

  /** What is left of the in-degree map once the services in `removed` are gone. */
  ghost predicate Degrees(services: Services, removed: set<Name>, inDegree: map<Name, int>) {
    && inDegree.Keys == services.Keys - removed
    && forall s :: s in inDegree ==> inDegree[s] == |Deps(services, s) - removed|
  }

  method BuildGraph(services: Services) returns (inDegree: map<Name, int>, dependents: map<Name, seq<Name>>)
    ensures Degrees(services, {}, inDegree) && AreDependents(services, {}, dependents)
  {
    inDegree := map s | s in services :: 0;
    dependents := map[];
    var rest := services.Keys;
    while rest != {}
      invariant rest <= services.Keys && inDegree.Keys == services.Keys
      invariant forall s :: s in services ==> inDegree[s] == if s in rest then 0 else |Deps(services, s)|
      invariant AreDependents(services, rest, dependents)
      decreases |rest|
    {
      var name :| name in rest;
      inDegree, dependents := AddEntries(services, name, rest, inDegree, dependents);
      rest := rest - {name};
    }
    NothingRemoved(services, inDegree);
  }

  lemma {:induction false} NothingRemoved(services: Services, inDegree: map<Name, int>)
    requires inDegree.Keys == services.Keys && forall s :: s in services ==> inDegree[s] == |Deps(services, s)|
    ensures Degrees(services, {}, inDegree)
  {
    forall s | s in services ensures Deps(services, s) - {} == Deps(services, s) { }
  }

  /** Counts the entries of one service and files it under each of their targets. */
  method AddEntries(services: Services, name: Name, ghost rest: set<Name>,
                    inDegree0: map<Name, int>, dependents0: map<Name, seq<Name>>)
    returns (inDegree: map<Name, int>, dependents: map<Name, seq<Name>>)
    requires name in services && name in rest && name in inDegree0 && inDegree0[name] == 0
    requires AreDependents(services, rest, dependents0)
    ensures inDegree == inDegree0[name := |Deps(services, name)|]
    ensures AreDependents(services, rest - {name}, dependents)
  {
    inDegree, dependents := inDegree0, dependents0;
    ghost var all := Deps(services, name);
    var targets := services[name].dependsOn.Keys;
    while targets != {}
      invariant targets <= all
      invariant inDegree == inDegree0[name := |all| - |targets|]
      invariant forall d :: Filed(name, d in all - targets, Lookup(dependents0, d), Lookup(dependents, d))
      decreases |targets|
    {
      var d :| d in targets;
      assert Filed(name, false, Lookup(dependents0, d), Lookup(dependents, d));
      targets := targets - {d};
      inDegree := inDegree[name := inDegree[name] + 1];
      dependents := dependents[d := Lookup(dependents, d) + [name]];
    }
    forall d ensures ListsDependents(services, rest - {name}, d, Lookup(dependents, d)) {
      assert Filed(name, d in all, Lookup(dependents0, d), Lookup(dependents, d));
      assert ListsDependents(services, rest, d, Lookup(dependents0, d));
      FiledLists(services, rest, name, d, Lookup(dependents0, d));
    }
  }

  predicate Filed(name: Name, now: bool, before: seq<Name>, after: seq<Name>) {
    after == if now then before + [name] else before
  }

  lemma {:induction false} FiledLists(services: Services, rest: set<Name>, name: Name, d: Name, list: seq<Name>)
    requires name in services && name in rest && ListsDependents(services, rest, d, list)
    ensures ListsDependents(services, rest - {name}, d, if d in Deps(services, name) then list + [name] else list)
  { }

  // ---- Levels ----

  /** Everything removed has all its dependencies removed. */
  ghost predicate RemovedClosed(services: Services, removed: set<Name>) {
    removed <= services.Keys && forall s :: s in removed ==> Deps(services, s) <= removed
  }

  /** Removes a whole level; no entry already deleted is ever touched again. */
  method RemoveLevel(services: Services, dependents: map<Name, seq<Name>>, level: seq<Name>,
                     ghost removed: set<Name>, inDegree0: map<Name, int>)
    returns (inDegree: map<Name, int>)
    requires AreDependents(services, {}, dependents) && RemovedClosed(services, removed)
    requires Degrees(services, removed, inDegree0) && NoDuplicates(level)
    requires forall x :: x in level <==> x in services && x !in removed && Deps(services, x) <= removed
    ensures Degrees(services, removed + ToSet(level), inDegree)
  {
    inDegree := inDegree0;
    assert removed + ToSet(level[..0]) == removed;
    for j := 0 to |level|
      invariant Degrees(services, removed + ToSet(level[..j]), inDegree)
    {
      LevelMember(services, dependents, removed, level, j);
      inDegree := RemoveOne(services, dependents, level[j], removed + ToSet(level[..j]), inDegree);
    }
    assert level[..|level|] == level;
  }

  lemma {:induction false} LevelMember(services: Services, dependents: map<Name, seq<Name>>, removed: set<Name>,
                                       level: seq<Name>, j: nat)
    requires AreDependents(services, {}, dependents) && RemovedClosed(services, removed) && NoDuplicates(level)
    requires forall x :: x in level <==> x in services && x !in removed && Deps(services, x) <= removed
    requires j < |level|
    ensures var gone := removed + ToSet(level[..j]);
      && level[j] in services.Keys - gone
      && removed + ToSet(level[..j + 1]) == gone + {level[j]}
      && forall s :: s in Lookup(dependents, level[j]) ==> s in services.Keys - gone && s != level[j]
  {
    var name := level[j];
    assert name in level && name !in level[..j];
    assert level[..j + 1] == level[..j] + [name];
    assert ListsDependents(services, {}, name, Lookup(dependents, name));
    forall s | s in Lookup(dependents, name) ensures s in services.Keys - (removed + ToSet(level[..j])) && s != name {
      assert s in services && name in Deps(services, s);
      assert s !in removed && s !in level;
      assert forall x :: x in level[..j] ==> x in level;
    }
  }

  method RemoveOne(services: Services, dependents: map<Name, seq<Name>>, name: Name,
                   ghost removed: set<Name>, inDegree0: map<Name, int>)
    returns (inDegree: map<Name, int>)
    requires AreDependents(services, {}, dependents) && Degrees(services, removed, inDegree0) && name in inDegree0
    requires forall s :: s in Lookup(dependents, name) ==> s in inDegree0 && s != name
    ensures Degrees(services, removed + {name}, inDegree)
  {
    assert ListsDependents(services, {}, name, Lookup(dependents, name));
    inDegree := Decrement(Lookup(dependents, name), inDegree0 - {name});
    forall s | s in inDegree ensures inDegree[s] == |Deps(services, s) - (removed + {name})| {
      OneFewer(Deps(services, s), removed, name);
    }
  }

  lemma {:induction false} OneFewer(deps: set<Name>, removed: set<Name>, name: Name)
    requires name !in removed
    ensures |deps - (removed + {name})| == |deps - removed| - (if name in deps then 1 else 0)
  {
    if name in deps {
      assert deps - removed == deps - (removed + {name}) + {name};
    } else {
      assert deps - removed == deps - (removed + {name});
    }
  }

  method Decrement(ds: seq<Name>, inDegree0: map<Name, int>) returns (inDegree: map<Name, int>)
    requires NoDuplicates(ds) && forall s :: s in ds ==> s in inDegree0
    ensures inDegree.Keys == inDegree0.Keys
    ensures forall s :: s in inDegree ==> inDegree[s] == inDegree0[s] - (if s in ds then 1 else 0)
  {
    inDegree := inDegree0;
    for i := 0 to |ds|
      invariant inDegree.Keys == inDegree0.Keys
      invariant forall s :: s in inDegree ==> inDegree[s] == inDegree0[s] - (if s in ds[..i] then 1 else 0)
    {
      assert ds[i] in ds && ds[i] !in ds[..i];
      assert ds[..i + 1] == ds[..i] + [ds[i]];
      inDegree := inDegree[ds[i] := inDegree[ds[i]] - 1];
    }
    assert ds[..|ds|] == ds;
  }

  lemma {:induction false} ZeroDegreeIsLevel(services: Services, k: nat, inDegree: map<Name, int>, level: seq<Name>)
    requires Degrees(services, Low(services, k), inDegree)
    requires forall x :: x in level <==> x in inDegree && inDegree[x] == 0
    ensures forall x :: x in level <==> x in services && x !in Low(services, k) && Deps(services, x) <= Low(services, k)
    ensures forall x :: x in level <==> x in Low(services, k + 1) && x !in Low(services, k)
    ensures Low(services, k) + ToSet(level) == Low(services, k + 1)
    ensures RemovedClosed(services, Low(services, k))
  {
    LowGrows(services, k);
    forall x ensures x in level <==> x in services && x !in Low(services, k) && Deps(services, x) <= Low(services, k) {
      if x in inDegree { NoneLeft(Deps(services, x), Low(services, k)); }
    }
    LowClosed(services, k);
  }

  lemma {:induction false} LowClosed(services: Services, k: nat)
    ensures RemovedClosed(services, Low(services, k))
  {
    LowGrows(services, k);
    if k > 0 { LowGrows(services, k - 1); }
  }

  lemma {:induction false} NoneLeft(A: set<Name>, B: set<Name>)
    ensures |A - B| == 0 <==> A <= B
  {
    if |A - B| == 0 {
      forall x | x in A ensures x in B { assert x in A - B || x in B; }
    } else {
      var x :| x in A - B;
    }
  }

  /** The levels peeled off so far, and the in-degrees of the rest. */
  ghost predicate PeelState(services: Services, levels: seq<seq<Name>>, inDegree: map<Name, int>) {
    && levels == LevelsOf(services, |levels|) && [] !in levels
    && Degrees(services, Low(services, |levels|), inDegree)
  }

  /** No service is left that could start. */
  ghost predicate Exhausted(services: Services, levels: seq<seq<Name>>, inDegree: map<Name, int>) {
    && PeelState(services, levels, inDegree)
    && Low(services, |levels|) == Low(services, |levels| + 1)
  }

  method StartOrder(services: Services) returns (r: StartResult)
    ensures r.Levels? <==> WellFounded(services)
    ensures r.Levels? ==> AreLevels(services, r.levels)
  {
    var inDegree, dependents := BuildGraph(services);
    var levels;
    levels, inDegree := PeelLevels(services, dependents, inDegree);
    Verdict(services, levels, inDegree);
    r := if |inDegree| > 0 then CycleDetected else Levels(levels);
  }

  lemma {:induction false} Verdict(services: Services, levels: seq<seq<Name>>, inDegree: map<Name, int>)
    requires Exhausted(services, levels, inDegree)
    ensures |inDegree| == 0 <==> WellFounded(services)
    ensures |inDegree| == 0 ==> AreLevels(services, levels)
  {
    var low := Low(services, |levels|);
    LevelsExhausted(services, |levels|);
    LowGrows(services, |levels|);
    NoneLeft(services.Keys, low);
    assert |inDegree| == |inDegree.Keys| == |services.Keys - low|;
  }

  /** Peels off levels until no service has in-degree zero. */
  method PeelLevels(services: Services, dependents: map<Name, seq<Name>>, inDegree0: map<Name, int>)
    returns (levels: seq<seq<Name>>, inDegree: map<Name, int>)
    requires AreDependents(services, {}, dependents) && Degrees(services, {}, inDegree0)
    ensures Exhausted(services, levels, inDegree)
  {
    levels, inDegree := [], inDegree0;
    while true
      invariant PeelState(services, levels, inDegree)
      decreases Unplaced(services, |levels|)
    {
      var level;
      level, inDegree := Peel(services, dependents, levels, inDegree);
      if |level| == 0 {
        break;
      }
      levels := levels + [level];
    }
  }

  ghost function Unplaced(services: Services, k: nat): set<Name> {
    services.Keys - Low(services, k)
  }

  /** One round: the services with in-degree zero, sorted, and the in-degrees without them. */
  method Peel(services: Services, dependents: map<Name, seq<Name>>, ghost levels: seq<seq<Name>>, inDegree0: map<Name, int>)
    returns (level: seq<Name>, inDegree: map<Name, int>)
    requires AreDependents(services, {}, dependents) && PeelState(services, levels, inDegree0)
    ensures level == [] ==> Exhausted(services, levels, inDegree)
    ensures level != [] ==> PeelState(services, levels + [level], inDegree)
    ensures level != [] ==> Unplaced(services, |levels + [level]|) < Unplaced(services, |levels|)
  {
    level := ZeroDegree(inDegree0);
    PeelStep(services, levels, inDegree0, level);
    inDegree := inDegree0;
    if |level| > 0 {
      inDegree := RemoveLevel(services, dependents, level, Low(services, |levels|), inDegree0);
    }
  }

  lemma {:induction false} PeelStep(services: Services, levels: seq<seq<Name>>, inDegree: map<Name, int>, level: seq<Name>)
    requires PeelState(services, levels, inDegree) && Sorted(level) && NoDuplicates(level)
    requires forall x :: x in level <==> x in inDegree && inDegree[x] == 0
    ensures var low := Low(services, |levels|);
      && RemovedClosed(services, low)
      && (forall x :: x in level <==> x in services && x !in low && Deps(services, x) <= low)
      && low + ToSet(level) == Low(services, |levels| + 1)
    ensures level == [] ==> Exhausted(services, levels, inDegree)
    ensures level != [] ==> levels + [level] == LevelsOf(services, |levels| + 1)
    ensures level != [] ==> Unplaced(services, |levels| + 1) < Unplaced(services, |levels|)
  {
    var k := |levels|;
    ZeroDegreeIsLevel(services, k, inDegree, level);
    InOrderUnique(level, Low(services, k + 1) - Low(services, k));
    LowGrows(services, k);
    if level == [] {
      assert ToSet(level) == {};
    } else {
      LevelShrinksRest(services, k, level[0]);
    }
  }

  lemma {:induction false} LevelShrinksRest(services: Services, k: nat, x: Name)
    requires x in Low(services, k + 1) && x !in Low(services, k)
    ensures Unplaced(services, k + 1) < Unplaced(services, k)
  {
    LowGrows(services, k);
    assert x in Unplaced(services, k) && x !in Unplaced(services, k + 1);
  }

  // ---- Success means well-founded ----

  ghost function LevelOf(services: Services, k: nat, s: Name): (j: nat)
    requires s in Low(services, k)
    ensures j < k && s in Low(services, j + 1) && s !in Low(services, j)
  {
    if s in Low(services, k - 1) then LevelOf(services, k - 1, s) else k - 1
  }

  lemma {:induction false} LevelDrops(services: Services, k: nat, s: Name, d: Name)
    requires s in Low(services, k) && s in services && d in Deps(services, s)
    ensures d in Low(services, k) && LevelOf(services, k, d) < LevelOf(services, k, s)
  {
    var j := LevelOf(services, k, s);
    assert d in Low(services, j);
    LowMonotone(services, j, k);
    if LevelOf(services, k, d) >= j {
      LowMonotone(services, j, LevelOf(services, k, d));
    }
  }

  lemma {:induction false} AllLowIsWellFounded(services: Services, k: nat)
    requires Low(services, k) == services.Keys
    ensures WellFounded(services)
  {
    var rank: map<Name, int> := map s | s in services :: LevelOf(services, k, s);
    forall s, d | (s, d) in DependsOn(services) ensures s in rank && d in rank && rank[d] < rank[s] {
      LevelDrops(services, k, s, d);
    }
    DescendingIsAcyclic(DependsOn(services), rank);
    forall s, d | s in services && d in services[s].dependsOn ensures d in services {
      DependsOnPair(services, s, d);
    }
  }

  /** When no further level exists, everything has been placed iff the graph is well-founded. */
  lemma {:induction false} LevelsExhausted(services: Services, k: nat)
    requires Low(services, k) == Low(services, k + 1)
    ensures Low(services, k) == services.Keys <==> WellFounded(services)
  {
    LowGrows(services, k);
    var low := Low(services, k);
    if low == services.Keys {
      AllLowIsWellFounded(services, k);
    } else if TargetsExist(services) {
      StuckMeansCycle(services, low);
    }
  }

  lemma {:induction false} StuckMeansCycle(services: Services, low: set<Name>)
    requires low < services.Keys && TargetsExist(services)
    requires forall s :: s in services && Deps(services, s) <= low ==> s in low
    ensures !Acyclic(DependsOn(services))
  {
    var left := services.Keys - low;
    var a :| a in services.Keys && a !in low;
    forall x | x in left ensures HasSuccessorIn(DependsOn(services), left, x) {
      var d :| d in Deps(services, x) && d !in low;
      DependsOnPair(services, x, d);
      assert d in left;
    }
    NoSinkMeansCycle(DependsOn(services), left, a);
  }

  // ---- Levels are longest chains ----

  /** A service is low exactly when every chain from it stays among the services and is short. */
  lemma {:induction false} LowIffShortChains(services: Services, k: nat, s: Name)
    requires s in services
    ensures s in Low(services, k) <==>
      forall p :: WalkFrom(DependsOn(services), s, p) ==> |p| <= k && forall i :: 0 <= i < |p| ==> p[i] in services
    decreases k
  {
    var r := DependsOn(services);
    if s in Low(services, k) {
      forall p | WalkFrom(r, s, p) ensures |p| <= k && forall i :: 0 <= i < |p| ==> p[i] in services {
        LowChain(services, k, p);
      }
    } else {
      var p := LongChain(services, k, s);
      assert WalkFrom(r, s, p);
    }
  }

  lemma {:induction false} LowChain(services: Services, k: nat, p: seq<Name>)
    requires Walk(DependsOn(services), p) && p[0] in Low(services, k)
    ensures |p| <= k && forall i :: 0 <= i < |p| ==> p[i] in services
    decreases k
  {
    if |p| > 1 {
      var r := DependsOn(services);
      assert (p[0], p[0 + 1]) in r;
      DependsOnPair(services, p[0], p[1]);
      WalkSlice(r, p, 1, |p|);
      assert p[1..|p|] == p[1..];
      LowChain(services, k - 1, p[1..]);
      forall i | 0 <= i < |p| ensures p[i] in services {
        if i > 0 { assert p[i] == p[1..][i - 1]; }
      }
    }
  }

  lemma {:induction false} LongChain(services: Services, k: nat, s: Name) returns (p: seq<Name>)
    requires s in services && s !in Low(services, k)
    ensures WalkFrom(DependsOn(services), s, p)
    ensures |p| == k + 1 || exists i :: 0 <= i < |p| && p[i] !in services
    decreases k
  {
    if k == 0 {
      p := [s];
    } else {
      var d :| d in Deps(services, s) && d !in Low(services, k - 1);
      DependsOnPair(services, s, d);
      if d in services {
        var q := LongChain(services, k - 1, d);
        WalkCons(DependsOn(services), s, q);
        p := [s] + q;
        if i :| 0 <= i < |q| && q[i] !in services { assert p[i + 1] == q[i]; }
      } else {
        p := [s, d];
        assert p[1] !in services;
      }
    }
  }

  /** The level of a service is the length of its longest dependency chain. */
  lemma {:induction false} LevelIsLongestChain(services: Services, levels: seq<seq<Name>>, k: nat, s: Name)
    requires AreLevels(services, levels)
    requires k < |levels| && s in levels[k]
    ensures exists p :: WalkFrom(DependsOn(services), s, p) && |p| == k + 1
    ensures forall p :: WalkFrom(DependsOn(services), s, p) ==> |p| <= k + 1
  {
    LevelAt(services, |levels|, k);
    LowGrows(services, k);
    LowIffShortChains(services, k + 1, s);
    var p := LongChain(services, k, s);
    forall i | 0 <= i < |p| ensures p[i] in services {
      LowChain(services, k + 1, p);
    }
  }

  /** Every service is in exactly one level. */
  lemma {:induction false} LevelsPartition(services: Services, levels: seq<seq<Name>>, s: Name)
    requires AreLevels(services, levels) && s in services
    ensures exists k :: 0 <= k < |levels| && s in levels[k] && forall j :: 0 <= j < |levels| && s in levels[j] ==> j == k
  {
    var k := LevelOf(services, |levels|, s);
    LevelAt(services, |levels|, k);
    forall j | 0 <= j < |levels| && s in levels[j] ensures j == k {
      LevelAt(services, |levels|, j);
      OneLevel(services, j, k, s);
    }
  }

  lemma {:induction false} OneLevel(services: Services, j: nat, k: nat, s: Name)
    requires s in Low(services, j + 1) && s !in Low(services, j)
    requires s in Low(services, k + 1) && s !in Low(services, k)
    ensures j == k
  {
    if j < k { LowMonotone(services, j + 1, k); }
    if k < j { LowMonotone(services, k + 1, j); }
  }

  /** A dependency starts in a strictly earlier level. */
  lemma {:induction false} DependencyStartsEarlier(services: Services, levels: seq<seq<Name>>, k: nat, s: Name, d: Name)
    returns (j: nat)
    requires AreLevels(services, levels)
    requires k < |levels| && s in levels[k] && s in services && d in Deps(services, s)
    ensures j < k && d in levels[j]
  {
    LevelAt(services, |levels|, k);
    assert d in Low(services, k);
    j := LevelOf(services, k, d);
    LevelAt(services, |levels|, j);
  }

  // ---- Stopping ----

  method StopOrder(services: Services) returns (r: StartResult)
    ensures r.Levels? <==> WellFounded(services)
    ensures r.Levels? ==> AreLevels(services, Reversed(r.levels))
  {
    r := StartOrder(services);
    if r.Levels? {
      var levels := r.levels;
      var slice := new seq<Name>[|levels|](i requires 0 <= i < |levels| => levels[i]);
      assert slice[..] == levels;
      ReverseSlice(slice);
      ReversedTwice(levels);
      r := Levels(slice[..]);
    }
  }

  lemma {:induction false} ReversedTwice<T>(s: seq<T>)
    ensures Reversed(Reversed(s)) == s
  { }

  /** When stopping, every dependent goes in a strictly earlier level than its dependencies. */
  lemma {:induction false} DependentStopsEarlier(services: Services, stops: seq<seq<Name>>, k: nat, s: Name, d: Name)
    returns (j: nat)
    requires AreLevels(services, Reversed(stops))
    requires k < |stops| && s in stops[k] && s in services && d in Deps(services, s)
    ensures k < j < |stops| && d in stops[j]
  {
    var n := |stops| - 1;
    assert Reversed(stops)[n - k] == stops[k];
    var i := DependencyStartsEarlier(services, Reversed(stops), n - k, s, d);
    j := n - i;
  }
}
