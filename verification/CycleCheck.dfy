/** Validating the dependency graph: missing references, and cycles by depth-first colouring. */
module CycleCheck {
  import opened Graphs
  import opened Compositions

  datatype Color = White | Gray | Black

  /** Every name that can come up: services and whatever they depend on, service or not. */
  function Universe(services: Services): set<Name> {
    services.Keys + (set e | e in DependsOn(services) :: e.1)
  }

  lemma {:induction false} TargetInUniverse(services: Services, s: Name, d: Name)
    requires s in services && d in services[s].dependsOn
    ensures d in Universe(services)
  {
    DependsOnPair(services, s, d);
    assert (s, d).1 == d;
  }

  function ColorOf(colors: map<Name, Color>, n: Name): Color {
    if n in colors then colors[n] else White
  }

  function DepsOf(services: Services, n: Name): set<Name> {
    if n in services then services[n].dependsOn.Keys else {}
  }

  /** Black names in order of completion: each comes after everything it depends on. */
  ghost predicate FinishOrder(services: Services, colors: map<Name, Color>, finished: seq<Name>) {
    && (forall n :: n in finished <==> ColorOf(colors, n) == Black)
    && (forall i :: 0 <= i < |finished| ==> DepsBefore(services, finished, i))
  }

  ghost predicate DepsBefore(services: Services, finished: seq<Name>, i: nat)
    requires i < |finished|
  {
    forall d :: d in DepsOf(services, finished[i]) ==> d in finished[..i]
  }

  /** The gray names are the current path, which is a chain of dependencies. */
  ghost predicate GrayPath(services: Services, colors: map<Name, Color>, path: seq<Name>) {
    && (forall n :: n in path <==> ColorOf(colors, n) == Gray)
    && (path == [] || Walk(DependsOn(services), path))
  }

  ghost predicate Sound(services: Services, colors: map<Name, Color>, finished: seq<Name>, path: seq<Name>) {
    FinishOrder(services, colors, finished) && GrayPath(services, colors, path)
  }

  /** Colouring only ever darkens. */
  ghost predicate Darkened(before: map<Name, Color>, after: map<Name, Color>) {
    && (forall n :: ColorOf(before, n) == Black ==> ColorOf(after, n) == Black)
    && (forall n :: ColorOf(after, n) == White ==> ColorOf(before, n) == White)
  }

  ghost function Whites(services: Services, colors: map<Name, Color>): set<Name> {
    set n | n in Universe(services) && ColorOf(colors, n) == White
  }

  lemma {:induction false} FewerWhites(services: Services, before: map<Name, Color>, after: map<Name, Color>, n: Name)
    requires Darkened(before, after) && n in Universe(services)
    requires ColorOf(before, n) == White && ColorOf(after, n) != White
    ensures Whites(services, after) < Whites(services, before)
  {
    assert n in Whites(services, before) && n !in Whites(services, after);
  }

  // ---- Steps on the ghost state ----

  lemma {:induction false} EnterSound(services: Services, colors: map<Name, Color>, finished: seq<Name>, path: seq<Name>, node: Name)
    requires Sound(services, colors, finished, path) && ColorOf(colors, node) == White
    requires path == [] || (path[|path| - 1], node) in DependsOn(services)
    ensures Sound(services, colors[node := Gray], finished, path + [node])
  {
    var path' := path + [node];
    assert Walk(DependsOn(services), path') by {
      if path != [] {
        assert Walk(DependsOn(services), [path[|path| - 1], node]);
        WalkJoin(DependsOn(services), path, [path[|path| - 1], node]);
        assert path + [path[|path| - 1], node][1..] == path';
      }
    }
    forall n ensures n in finished <==> ColorOf(colors[node := Gray], n) == Black { }
  }

  /** Meeting a gray name closes a cycle. */
  lemma {:induction false} GrayMeansCycle(services: Services, colors: map<Name, Color>, path: seq<Name>, d: Name)
    requires GrayPath(services, colors, path) && path != [] && ColorOf(colors, d) == Gray
    requires (path[|path| - 1], d) in DependsOn(services)
    ensures !Acyclic(DependsOn(services))
  {
    var r := DependsOn(services);
    assert d in path;
    var i :| 0 <= i < |path| && path[i] == d;
    WalkSlice(r, path, i, |path|);
    var tail := path[i..|path|];
    assert Walk(r, [path[|path| - 1], d]);
    WalkJoin(r, tail, [path[|path| - 1], d]);
    assert Closed(r, tail + [path[|path| - 1], d][1..]);
  }

  lemma {:induction false} LeaveSound(services: Services, colors: map<Name, Color>, finished: seq<Name>, path: seq<Name>, node: Name)
    requires Sound(services, colors, finished, path + [node]) && node !in path
    requires forall d :: d in DepsOf(services, node) ==> ColorOf(colors, d) == Black
    ensures Sound(services, colors[node := Black], finished + [node], path)
  {
    var finished' := finished + [node];
    var colors' := colors[node := Black];
    forall i | 0 <= i < |finished'| ensures DepsBefore(services, finished', i) {
      if i < |finished| {
        assert DepsBefore(services, finished, i);
        assert finished'[..i] == finished[..i];
      } else {
        assert finished'[..i] == finished;
      }
    }
    forall n ensures n in finished' <==> ColorOf(colors', n) == Black { }
    if path != [] {
      WalkSlice(DependsOn(services), path + [node], 0, |path|);
      assert (path + [node])[0..|path|] == path;
    }
    forall n ensures n in path <==> ColorOf(colors', n) == Gray {
      assert n in path + [node] <==> n in path || n == node;
    }
  }

  /** Once every service is black, completion order numbers the graph downwards. */
  lemma {:induction false} AllBlackIsAcyclic(services: Services, colors: map<Name, Color>, finished: seq<Name>)
    requires FinishOrder(services, colors, finished) && forall s :: s in services ==> ColorOf(colors, s) == Black
    ensures Acyclic(DependsOn(services))
  {
    var r := DependsOn(services);
    var rank := map n | n in ToSet(finished) :: FirstIndex(finished, n);
    forall a, b | (a, b) in r ensures a in rank && b in rank && rank[b] < rank[a] {
      DependsOnPair(services, a, b);
      assert a in finished;
      var i := FirstIndex(finished, a);
      assert DepsBefore(services, finished, i);
      assert b in finished[..i];
      var j :| 0 <= j < i && finished[..i][j] == b;
      assert finished[j] == b;
      FirstIndexLeast(finished, b, j);
    }
    DescendingIsAcyclic(r, rank);
  }

  ghost function FirstIndex(s: seq<Name>, x: Name): (i: int)
    requires x in s
    ensures 0 <= i < |s| && s[i] == x
  {
    if s[0] == x then 0 else 1 + FirstIndex(s[1..], x)
  }

  lemma {:induction false} FirstIndexLeast(s: seq<Name>, x: Name, j: nat)
    requires j < |s| && s[j] == x
    ensures FirstIndex(s, x) <= j
  {
    if s[0] != x {
      assert s[1..][j - 1] == x;
      FirstIndexLeast(s[1..], x, j - 1);
    }
  }

  // ---- The search ----

  class CycleDetector {
    const services: Services
    var colors: map<Name, Color>

    /** The names completed so far. */
    ghost var finished: seq<Name>

    constructor (services: Services)
      ensures this.services == services && Sound(services, colors, finished, [])
      ensures forall n :: ColorOf(colors, n) == White
    {
      this.services := services;
      this.colors := map s | s in services :: White;
      this.finished := [];
    }

    /**
     * Visits everything reachable from a white node. Reports an error only if there is a cycle; without one
     * the node ends up black and the path above it is as before. The search need not start from a sound
     * state: an earlier error leaves gray names behind, but then a cycle is already known.
     */
    method DfsVisit(node: Name, ghost path: seq<Name>) returns (err: bool)
      requires Sound(services, colors, finished, path) || !Acyclic(DependsOn(services))
      requires node in Universe(services) && ColorOf(colors, node) == White
      requires path == [] || (path[|path| - 1], node) in DependsOn(services)
      modifies this
      ensures Darkened(old(colors), colors) && Whites(services, colors) < old(Whites(services, colors))
      ensures err ==> !Acyclic(DependsOn(services))
      ensures !err ==> ColorOf(colors, node) == Black
      ensures !err && old(Sound(services, colors, finished, path)) ==> Sound(services, colors, finished, path)
      decreases Whites(services, colors), 0
    {
      ghost var wasSound := Sound(services, colors, finished, path);
      if wasSound {
        EnterSound(services, colors, finished, path, node);
      }
      colors := colors[node := Gray];
      FewerWhites(services, old(colors), colors, node);
      if node in services {
        err := VisitDeps(node, path + [node]);
        if err {
          return;
        }
      }
      if wasSound {
        LeaveSound(services, colors, finished, path, node);
      }
      finished := finished + [node];
      colors := colors[node := Black];
      err := false;
    }

    /** Looks at each dependency of a gray service, in whatever order the map yields them. */
    method VisitDeps(node: Name, ghost path: seq<Name>) returns (err: bool)
      requires Sound(services, colors, finished, path) || !Acyclic(DependsOn(services))
      requires node in services && path != [] && path[|path| - 1] == node
      modifies this
      ensures Darkened(old(colors), colors) && Whites(services, colors) <= old(Whites(services, colors))
      ensures err ==> !Acyclic(DependsOn(services))
      ensures !err && old(Sound(services, colors, finished, path)) ==> Sound(services, colors, finished, path)
      ensures !err ==> forall d :: d in DepsOf(services, node) ==> ColorOf(colors, d) == Black
      decreases Whites(services, colors), 1
    {
      var rest := services[node].dependsOn.Keys;
      while rest != {}
        invariant rest <= services[node].dependsOn.Keys
        invariant Sound(services, colors, finished, path) || !Acyclic(DependsOn(services))
        invariant old(Sound(services, colors, finished, path)) ==> Sound(services, colors, finished, path)
        invariant Darkened(old(colors), colors) && Whites(services, colors) <= old(Whites(services, colors))
        invariant forall d :: d in services[node].dependsOn.Keys - rest ==> ColorOf(colors, d) == Black
        decreases |rest|
      {
        var dep :| dep in rest;
        DependsOnPair(services, node, dep);
        TargetInUniverse(services, node, dep);
        if ColorOf(colors, dep) == Gray {
          if Sound(services, colors, finished, path) {
            GrayMeansCycle(services, colors, path, dep);
          }
          return true;
        }
        if ColorOf(colors, dep) == White {
          err := DfsVisit(dep, path);
          if err {
            return;
          }
        }
        rest := rest - {dep};
      }
      err := false;
    }
  }

  /** Counts the errors of the depth-first search started from every service still white. */
  method DetectCycles(services: Services) returns (errors: nat)
    ensures errors == 0 <==> Acyclic(DependsOn(services))
  {
    var detector := new CycleDetector(services);
    errors := 0;
    var rest := services.Keys;
    while rest != {}
      invariant rest <= services.Keys && detector.services == services && fresh(detector)
      invariant errors > 0 ==> !Acyclic(DependsOn(services))
      invariant Sound(services, detector.colors, detector.finished, []) || !Acyclic(DependsOn(services))
      invariant errors == 0 ==> Sound(services, detector.colors, detector.finished, [])
      invariant errors == 0 ==> forall s :: s in services.Keys - rest ==> ColorOf(detector.colors, s) != White
      decreases |rest|
    {
      var name :| name in rest;
      if ColorOf(detector.colors, name) == White {
        var err := detector.DfsVisit(name, []);
        if err {
          errors := errors + 1;
        }
      }
      rest := rest - {name};
    }
    if errors == 0 {
      AllBlackIsAcyclic(services, detector.colors, detector.finished);
    }
  }

  method ValidateReferences(services: Services) returns (errors: nat)
    ensures errors == 0 <==> TargetsExist(services)
  {
    errors := 0;
    var rest := services.Keys;
    while rest != {}
      invariant rest <= services.Keys
      invariant errors == 0 <==> forall s, d :: s in services && s !in rest && d in services[s].dependsOn ==> d in services
      decreases |rest|
    {
      var name :| name in rest;
      var targets := services[name].dependsOn.Keys;
      while targets != {}
        invariant targets <= services[name].dependsOn.Keys
        invariant errors == 0 <==>
          && (forall s, d :: s in services && s !in rest && d in services[s].dependsOn ==> d in services)
          && (forall d :: d in services[name].dependsOn && d !in targets ==> d in services)
        decreases |targets|
      {
        var dep :| dep in targets;
        targets := targets - {dep};
        if dep !in services {
          errors := errors + 1;
        }
      }
      rest := rest - {name};
    }
  }

  /** No errors exactly when every target exists and the graph is acyclic, which is when services can be started. */
  method Validate(services: Services) returns (errors: nat)
    ensures errors == 0 <==> WellFounded(services)
  {
    var missing := ValidateReferences(services);
    var cycles := DetectCycles(services);
    errors := missing + cycles;
  }
}
