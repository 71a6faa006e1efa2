/** Expanding init containers into services chained before their main service. */
module InitContainers {
  import opened Ordering
  import opened Graphs
  import opened Kahn
  import opened Compositions
  import opened StartOrder
  import CycleCheck
  import Filter

  const COMPLETED := "service_completed_successfully"

  function InitServiceName(serviceName: Name, initName: string): Name {
    serviceName + "-init-" + initName
  }

  /** The service generated for the `i`-th init container. */
  function Generated(services: Services, s: Name, i: nat): Name
    requires s in services && i < |services[s].inits|
  {
    InitServiceName(s, services[s].inits[i].name)
  }

  /** The first init takes over what the main service depends on; each other one depends on the init before it. */
  function InitService(name: Name, svc: Service, i: nat): Service
    requires i < |svc.inits|
  {
    var ic := svc.inits[i];
    var deps := if i == 0 then svc.dependsOn else map[InitServiceName(name, svc.inits[i - 1].name) := COMPLETED];
    Service(ic.image, "no", "", ic.volumes, [], [], [], deps)
  }

  function InitServices(name: Name, svc: Service, n: nat): Services
    requires n <= |svc.inits|
  {
    if n == 0 then map[]
    else InitServices(name, svc, n - 1)[InitServiceName(name, svc.inits[n - 1].name) := InitService(name, svc, n - 1)]
  }

  /** The main service, depending on its last init as well. */
  function MainService(name: Name, svc: Service): Service {
    if svc.inits == [] then svc
    else svc.(dependsOn := svc.dependsOn[InitServiceName(name, svc.inits[|svc.inits| - 1].name) := COMPLETED])
  }

  /** What processing the given services in turn writes. */
  function Synthesized(services: Services, names: seq<Name>): Services
    requires forall x :: x in names ==> x in services
  {
    if names == [] then map[]
    else
      var name := names[|names| - 1];
      assert name in names;
      var svc := services[name];
      (Synthesized(services, names[..|names| - 1]) + InitServices(name, svc, |svc.inits|))[name := MainService(name, svc)]
  }

  ghost function SynthesizedAll(services: Services): Services {
    InOrderElements(services.Keys);
    Synthesized(services, InOrder(services.Keys))
  }

  // ---- The algorithm ----

  method SynthesizeForService(name: Name, svc: Service) returns (services: Services, mainDeps: map<Name, string>)
    requires svc.inits != []
    ensures services == InitServices(name, svc, |svc.inits|)
    ensures mainDeps == map[InitServiceName(name, svc.inits[|svc.inits| - 1].name) := COMPLETED]
  {
    services := map[];
    var prevInitName := "";
    for i := 0 to |svc.inits|
      invariant services == InitServices(name, svc, i)
      invariant i > 0 ==> prevInitName == InitServiceName(name, svc.inits[i - 1].name)
    {
      var ic := svc.inits[i];
      var initName := InitServiceName(name, ic.name);
      var initDeps: map<Name, string> := map[];
      if i == 0 {
        initDeps := svc.dependsOn;
      } else {
        initDeps := initDeps[prevInitName := COMPLETED];
      }
      services := services[initName := Service(ic.image, "no", "", ic.volumes, [], [], [], initDeps)];
      prevInitName := initName;
    }
    mainDeps := map[prevInitName := COMPLETED];
  }

  method SynthesizeInitContainers(comp: Composition) returns (out: Composition)
    ensures out == comp.(services := SynthesizedAll(comp.services))
  {
    var services := comp.services;
    var names := SortedKeys(services);
    InOrderUnique(names, services.Keys);
    var newServices: Services := map[];
    for i := 0 to |names|
      invariant forall x :: x in names[..i] ==> x in services
      invariant newServices == Synthesized(services, names[..i])
    {
      assert names[i] in names;
      SynthesizedNext(services, names, i);
      newServices := ProcessService(names[i], services[names[i]], newServices);
    }
    assert names[..|names|] == names;
    out := comp.(services := newServices);
  }

  /** One round of the loop: the service as it is, or its inits and then the service depending on the last one. */
  method ProcessService(name: Name, svc: Service, before: Services) returns (after: Services)
    ensures after == (before + InitServices(name, svc, |svc.inits|))[name := MainService(name, svc)]
  {
    if |svc.inits| == 0 {
      assert before + InitServices(name, svc, 0) == before;
      after := before[name := svc];
    } else {
      var initSvcs, mainDeps := SynthesizeForService(name, svc);
      after := before + initSvcs;
      assert svc.dependsOn + mainDeps == MainService(name, svc).dependsOn;
      after := after[name := svc.(dependsOn := svc.dependsOn + mainDeps)];
    }
  }

  lemma {:induction false} SynthesizedNext(services: Services, names: seq<Name>, i: nat)
    requires i < |names| && names[i] in services && forall x :: x in names[..i] ==> x in services
    ensures forall x :: x in names[..i + 1] ==> x in services
    ensures var svc := services[names[i]];
      Synthesized(services, names[..i + 1])
      == (Synthesized(services, names[..i]) + InitServices(names[i], svc, |svc.inits|))[names[i] := MainService(names[i], svc)]
  {
    assert names[..i + 1] == names[..i] + [names[i]] && names[..i + 1][..i] == names[..i];
  }

  // ---- Who writes what ----

  ghost predicate Generates(services: Services, s: Name, x: Name) {
    s in services && exists i :: 0 <= i < |services[s].inits| && Generated(services, s, i) == x
  }

  ghost predicate IsInit(services: Services, s: Name, i: nat, x: Name) {
    s in services && i < |services[s].inits| && Generated(services, s, i) == x
  }

  /** No generated name is a service already. */
  ghost predicate NamesFree(services: Services) {
    forall s, x :: Generates(services, s, x) ==> x !in services
  }

  /** A name that is not a service is generated for one service at most. */
  ghost predicate OneOwner(services: Services) {
    forall s, t, x :: Generates(services, s, x) && Generates(services, t, x) && x !in services ==> s == t
  }

  /** Nothing depends on a name that is only about to be generated. */
  ghost predicate Unreferenced(services: Services) {
    forall s, x :: Generates(services, s, x) && x !in services ==> x !in CycleCheck.Universe(services)
  }

  ghost predicate DistinctInits(svc: Service) {
    forall i, j :: 0 <= i < j < |svc.inits| ==> svc.inits[i].name != svc.inits[j].name
  }

  ghost predicate AllDistinct(services: Services) {
    forall s :: s in services ==> DistinctInits(services[s])
  }

  /** In a filtered composition every target is a service, so nothing refers to a generated name. */
  lemma {:induction false} TargetsExistUnreferenced(services: Services)
    requires TargetsExist(services)
    ensures Unreferenced(services)
  {
    forall e | e in DependsOn(services) ensures e.1 in services {
      DependsOnPair(services, e.0, e.1);
    }
  }

  lemma {:induction false} SameInitName(s: Name, a: string, b: string)
    requires InitServiceName(s, a) == InitServiceName(s, b)
    ensures a == b
  {
    var p := s + "-init-";
    assert InitServiceName(s, a) == p + a && InitServiceName(s, b) == p + b;
    assert (p + a)[|p|..] == a && (p + b)[|p|..] == b;
  }

  lemma {:induction false} InitServicesAt(name: Name, svc: Service, n: nat, x: Name)
    requires n <= |svc.inits|
    ensures x in InitServices(name, svc, n) <==> exists i :: 0 <= i < n && InitServiceName(name, svc.inits[i].name) == x
  {
    if n > 0 {
      InitServicesAt(name, svc, n - 1, x);
    }
  }

  lemma {:induction false} GeneratedKeys(services: Services, s: Name, x: Name)
    requires s in services
    ensures x in InitServices(s, services[s], |services[s].inits|) <==> Generates(services, s, x)
  {
    var svc := services[s];
    InitServicesAt(s, svc, |svc.inits|, x);
    if i :| 0 <= i < |svc.inits| && InitServiceName(s, svc.inits[i].name) == x {
      assert Generated(services, s, i) == x;
    }
    if Generates(services, s, x) {
      var i :| 0 <= i < |svc.inits| && Generated(services, s, i) == x;
      assert InitServiceName(s, svc.inits[i].name) == x;
    }
  }

  /** The last init of that name is the one written. */
  ghost predicate LastOfName(svc: Service, i: nat, n: nat) {
    i < n <= |svc.inits| && forall j :: i < j < n ==> svc.inits[j].name != svc.inits[i].name
  }

  lemma {:induction false} InitServicesValue(name: Name, svc: Service, n: nat, i: nat)
    requires LastOfName(svc, i, n)
    ensures var x := InitServiceName(name, svc.inits[i].name);
      x in InitServices(name, svc, n) && InitServices(name, svc, n)[x] == InitService(name, svc, i)
  {
    if i < n - 1 {
      InitServicesValue(name, svc, n - 1, i);
      if InitServiceName(name, svc.inits[i].name) == InitServiceName(name, svc.inits[n - 1].name) {
        SameInitName(name, svc.inits[i].name, svc.inits[n - 1].name);
      }
    }
  }

  lemma {:induction false} LastIndex(svc: Service, i: nat, n: nat) returns (j: nat)
    requires i < n <= |svc.inits|
    ensures i <= j && LastOfName(svc, j, n) && svc.inits[j].name == svc.inits[i].name
    decreases n - i
  {
    if k :| i < k < n && svc.inits[k].name == svc.inits[i].name {
      j := LastIndex(svc, k, n);
    } else {
      j := i;
    }
  }

  /** A later service that neither is `x` nor generates it leaves `x` alone. */
  lemma {:induction false} WrittenLast(services: Services, names: seq<Name>, k: nat, x: Name)
    requires (forall n :: n in names ==> n in services) && k < |names|
    requires forall j :: k < j < |names| ==> names[j] != x && !Generates(services, names[j], x)
    ensures forall n :: n in names[..k + 1] ==> n in services
    ensures x in Synthesized(services, names) <==> x in Synthesized(services, names[..k + 1])
    ensures x in Synthesized(services, names) ==>
      Synthesized(services, names)[x] == Synthesized(services, names[..k + 1])[x]
  {
    var n := |names| - 1;
    if k == n {
      assert names[..k + 1] == names;
    } else {
      var init := names[..n];
      assert init[..k + 1] == names[..k + 1];
      WrittenLast(services, init, k, x);
      LeftAlone(services, names, x);
    }
  }

  lemma {:induction false} LeftAlone(services: Services, names: seq<Name>, x: Name)
    requires (forall n :: n in names ==> n in services) && names != []
    requires names[|names| - 1] != x && !Generates(services, names[|names| - 1], x)
    ensures var before := Synthesized(services, names[..|names| - 1]);
      && (x in Synthesized(services, names) <==> x in before)
      && (x in before ==> Synthesized(services, names)[x] == before[x])
  {
    assert names[|names| - 1] in names;
    GeneratedKeys(services, names[|names| - 1], x);
  }

  /** A service that nothing processed after it generates ends up as its own main service. */
  lemma {:induction false} OwnEntry(services: Services, names: seq<Name>, k: nat)
    requires (forall n :: n in names ==> n in services) && k < |names| && NoDuplicates(names)
    requires forall j :: k < j < |names| ==> !Generates(services, names[j], names[k])
    ensures names[k] in services && names[k] in Synthesized(services, names)
    ensures Synthesized(services, names)[names[k]] == MainService(names[k], services[names[k]])
  {
    assert names[k] in names;
    WrittenLast(services, names, k, names[k]);
    assert names[..k + 1][k] == names[k];
  }

  /** A service's name sorts before every name generated for it. */
  lemma {:induction false} PrefixLess(a: string, b: string)
    requires b != ""
    ensures Less(a, a + b)
  {
    if a != "" {
      PrefixLess(a[1..], b);
      assert (a + b)[1..] == a[1..] + b;
    }
  }

  lemma {:induction false} LaterDoesNotGenerate(services: Services, names: seq<Name>, k: nat, j: nat)
    requires Sorted(names) && k < j < |names|
    ensures !Generates(services, names[j], names[k])
  {
    if Generates(services, names[j], names[k]) {
      var i :| 0 <= i < |services[names[j]].inits| && Generated(services, names[j], i) == names[k];
      var suffix := "-init-" + services[names[j]].inits[i].name;
      assert names[k] == names[j] + suffix;
      PrefixLess(names[j], suffix);
      LessEqAntisymmetric(names[j], names[k]);
    }
  }

  /** Services are handled in name order and a generated name sorts after its service, so an existing service always wins. */
  lemma {:induction false} SynthesizedMain(services: Services, s: Name)
    requires s in services
    ensures s in SynthesizedAll(services) && SynthesizedAll(services)[s] == MainService(s, services[s])
  {
    InOrderElements(services.Keys);
    InOrderSorted(services.Keys);
    var names := InOrder(services.Keys);
    var k :| 0 <= k < |names| && names[k] == s;
    forall j | k < j < |names| ensures !Generates(services, names[j], names[k]) {
      LaterDoesNotGenerate(services, names, k, j);
    }
    OwnEntry(services, names, k);
  }

  /**
   * The entry written last under a name that is not a service: for the greatest service that generates it,
   * and the last of its inits of that name.
   */
  ghost predicate Writes(services: Services, s: Name, i: nat, x: Name) {
    && x !in services && IsInit(services, s, i, x) && LastOfName(services[s], i, |services[s].inits|)
    && forall u :: Generates(services, u, x) ==> LessEq(u, s)
  }

  lemma {:induction false} SynthesizedInit(services: Services, s: Name, i: nat, x: Name)
    requires Writes(services, s, i, x)
    ensures x in SynthesizedAll(services) && SynthesizedAll(services)[x] == InitService(s, services[s], i)
  {
    InOrderElements(services.Keys);
    InOrderSorted(services.Keys);
    var names := InOrder(services.Keys);
    var k :| 0 <= k < |names| && names[k] == s;
    forall j | k < j < |names| ensures names[j] != x && !Generates(services, names[j], x) {
      assert names[j] in names;
      if Generates(services, names[j], x) {
        LessEqAntisymmetric(names[j], s);
      }
    }
    WrittenLast(services, names, k, x);
    assert names[..k + 1][k] == s;
    InitServicesValue(s, services[s], |services[s].inits|, i);
  }

  /** The last of the listed services that generates a name. */
  lemma {:induction false} LastGenerator(services: Services, names: seq<Name>, x: Name) returns (k: nat)
    requires exists s :: s in names && Generates(services, s, x)
    ensures k < |names| && Generates(services, names[k], x)
    ensures forall j :: k < j < |names| ==> !Generates(services, names[j], x)
  {
    var n := |names| - 1;
    if Generates(services, names[n], x) {
      k := n;
    } else {
      assert names == names[..n] + [names[n]];
      k := LastGenerator(services, names[..n], x);
    }
  }

  lemma {:induction false} WriterExists(services: Services, x: Name) returns (s: Name, i: nat)
    requires x !in services && exists u :: Generates(services, u, x)
    ensures Writes(services, s, i, x)
  {
    InOrderElements(services.Keys);
    InOrderSorted(services.Keys);
    var names := InOrder(services.Keys);
    var k := LastGenerator(services, names, x);
    s := names[k];
    var j :| 0 <= j < |services[s].inits| && Generated(services, s, j) == x;
    i := LastIndex(services[s], j, |services[s].inits|);
    forall u | Generates(services, u, x) ensures LessEq(u, s) {
      var l :| 0 <= l < |names| && names[l] == u;
      assert l <= k;
    }
  }

  lemma {:induction false} WriterUnique(services: Services, s: Name, i: nat, t: Name, j: nat, x: Name)
    requires Writes(services, s, i, x) && Writes(services, t, j, x)
    ensures s == t && i == j
  {
    assert Generates(services, s, x) && Generates(services, t, x);
    LessEqAntisymmetric(s, t);
    SameInitName(s, services[s].inits[i].name, services[s].inits[j].name);
  }

  /** With distinct init names and one owner each, every new name is written for its own init. */
  lemma {:induction false} OwnWrites(services: Services, s: Name, i: nat)
    requires OneOwner(services) && AllDistinct(services) && s in services && i < |services[s].inits|
    requires Generated(services, s, i) !in services
    ensures Writes(services, s, i, Generated(services, s, i))
  {
    assert DistinctInits(services[s]);
    assert Generates(services, s, Generated(services, s, i));
  }

  // ---- What is written, for any composition ----

  /** An entry written for the `i`-th init of `s`. */
  ghost predicate WrittenFor(services: Services, s: Name, i: nat, x: Name, svc: Service) {
    IsInit(services, s, i, x) && svc == InitService(s, services[s], i)
  }

  lemma {:induction false} InitServicesEntry(name: Name, svc: Service, n: nat, x: Name) returns (i: nat)
    requires n <= |svc.inits| && x in InitServices(name, svc, n)
    ensures i < n && InitServiceName(name, svc.inits[i].name) == x
    ensures InitServices(name, svc, n)[x] == InitService(name, svc, i)
  {
    if InitServiceName(name, svc.inits[n - 1].name) == x {
      i := n - 1;
    } else {
      i := InitServicesEntry(name, svc, n - 1, x);
    }
  }

  lemma {:induction false} WrittenSomehow(services: Services, names: seq<Name>, x: Name)
    requires (forall n :: n in names ==> n in services) && x in Synthesized(services, names)
    ensures x in services || exists s: Name, i: nat :: WrittenFor(services, s, i, x, Synthesized(services, names)[x])
  {
    var n := |names| - 1;
    var name := names[n];
    assert name in names;
    if name != x {
      if x in InitServices(name, services[name], |services[name].inits|) {
        var i := InitServicesEntry(name, services[name], |services[name].inits|, x);
        assert WrittenFor(services, name, i, x, Synthesized(services, names)[x]);
      } else {
        WrittenSomehow(services, names[..n], x);
      }
    }
  }

  lemma {:induction false} AllWritten(services: Services, names: seq<Name>, s: Name, x: Name)
    requires (forall n :: n in names ==> n in services) && s in names && Generates(services, s, x)
    ensures x in Synthesized(services, names)
  {
    var n := |names| - 1;
    assert names == names[..n] + [names[n]];
    if s == names[n] {
      GeneratedKeys(services, s, x);
    } else {
      AllWritten(services, names[..n], s, x);
    }
  }

  /** The names are those of the services and those generated, nothing else. */
  lemma {:induction false} SynthesizedKeys(services: Services, x: Name)
    ensures x in SynthesizedAll(services) <==> x in services || exists s :: Generates(services, s, x)
    ensures x in SynthesizedAll(services) && x !in services ==>
      exists s: Name, i: nat :: WrittenFor(services, s, i, x, SynthesizedAll(services)[x])
  {
    InOrderElements(services.Keys);
    if x in services {
      SynthesizedMain(services, x);
    } else if s :| Generates(services, s, x) {
      AllWritten(services, InOrder(services.Keys), s, x);
    }
    if x in SynthesizedAll(services) && x !in services {
      WrittenSomehow(services, InOrder(services.Keys), x);
      var s: Name, i: nat :| WrittenFor(services, s, i, x, SynthesizedAll(services)[x]);
      assert Generates(services, s, x);
    }
  }

  // ---- What the entries say ----

  /**
   * A service with inits waits for its last init to complete; all else about it, and what it asked of others, is
   * as before.
   */
  lemma {:induction false} MainWaitsForLast(services: Services, s: Name)
    requires s in services && services[s].inits != []
    ensures s in SynthesizedAll(services)
    ensures var svc, out := services[s], SynthesizedAll(services)[s];
      var last := s + "-init-" + svc.inits[|svc.inits| - 1].name;
      && last in out.dependsOn && out.dependsOn[last] == "service_completed_successfully"
      && (forall d :: d != last ==> (d in out.dependsOn <==> d in svc.dependsOn))
      && (forall d :: d != last && d in svc.dependsOn ==> out.dependsOn[d] == svc.dependsOn[d])
      && out.(dependsOn := svc.dependsOn) == svc
  {
    SynthesizedMain(services, s);
  }

  /** A service without inits is left alone. */
  lemma {:induction false} WithoutInitsUnchanged(services: Services, s: Name)
    requires s in services && services[s].inits == []
    ensures s in SynthesizedAll(services) && SynthesizedAll(services)[s] == services[s]
  {
    SynthesizedMain(services, s);
  }

  /**
   * An init has its own image and mounts, never restarts and is nothing else's main service; the first asks what
   * the service asked, each later one waits for the one before it to complete.
   */
  lemma {:induction false} InitWaitsForPrevious(services: Services, s: Name, i: nat, x: Name)
    requires Writes(services, s, i, x)
    ensures x == s + "-init-" + services[s].inits[i].name && x in SynthesizedAll(services)
    ensures var ic, out := services[s].inits[i], SynthesizedAll(services)[x];
      && out.image == ic.image && out.volumes == ic.volumes && out.restart == "no" && out.networkMode == ""
      && out.inits == [] && out.profiles == [] && out.extensionProfiles == []
      && out.dependsOn == if i == 0 then services[s].dependsOn
                          else map[s + "-init-" + services[s].inits[i - 1].name := "service_completed_successfully"]
  {
    SynthesizedInit(services, s, i, x);
  }

  // ---- The new dependency graph ----

  function LastInit(services: Services, s: Name): Name
    requires s in services && services[s].inits != []
  {
    Generated(services, s, |services[s].inits| - 1)
  }

  ghost predicate ChainPair(services: Services, a: Name, b: Name) {
    if a in services then b in services[a].dependsOn || (services[a].inits != [] && b == LastInit(services, a))
    else exists s: Name, i: nat :: InitChain(services, s, i, a, b)
  }

  ghost predicate InitChain(services: Services, s: Name, i: nat, a: Name, b: Name) {
    Writes(services, s, i, a) && if i == 0 then b in services[s].dependsOn else b == Generated(services, s, i - 1)
  }

  /** A service keeps its dependencies and gains its last init, in any composition. */
  lemma {:induction false} MainPairs(services: Services, a: Name, b: Name)
    requires a in services
    ensures (a, b) in DependsOn(SynthesizedAll(services)) <==> ChainPair(services, a, b)
  {
    SynthesizedMain(services, a);
    DependsOnPair(SynthesizedAll(services), a, b);
  }

  /** The pairs of the expanded composition, whatever the names. */
  lemma {:induction false} ExpandedPairs(services: Services, a: Name, b: Name)
    ensures (a, b) in DependsOn(SynthesizedAll(services)) <==> ChainPair(services, a, b)
  {
    var out := SynthesizedAll(services);
    if a in services {
      MainPairs(services, a, b);
    } else {
      DependsOnPair(out, a, b);
      SynthesizedKeys(services, a);
      if a in out && b in out[a].dependsOn {
        var s, i := WriterExists(services, a);
        SynthesizedInit(services, s, i, a);
        assert InitChain(services, s, i, a, b);
      }
      if ChainPair(services, a, b) {
        var s: Name, i: nat :| InitChain(services, s, i, a, b);
        SynthesizedInit(services, s, i, a);
      }
    }
  }

  // ---- Acyclicity, for any composition ----

  /** What each service and each new name leads to, read off the composition itself. */
  ghost function Chain(services: Services): Relation {
    DependsOn(services)
    + (set s | s in services && services[s].inits != [] :: (s, LastInit(services, s)))
    + (set s, d | s in services && d in services[s].dependsOn && WritesOwn(services, s, 0) :: (Generated(services, s, 0), d))
    + (set s, i | s in services && 0 < i < |services[s].inits| && WritesOwn(services, s, i) ::
         (Generated(services, s, i), Generated(services, s, i - 1)))
  }

  ghost predicate WritesOwn(services: Services, s: Name, i: nat) {
    s in services && i < |services[s].inits| && Writes(services, s, i, Generated(services, s, i))
  }

  lemma {:induction false} ChainHolds(services: Services, a: Name, b: Name)
    requires ChainPair(services, a, b)
    ensures (a, b) in Chain(services)
  {
    DependsOnPair(services, a, b);
    if a !in services {
      var s: Name, i: nat :| InitChain(services, s, i, a, b);
      assert WritesOwn(services, s, i) && a == Generated(services, s, i);
    }
  }

  lemma {:induction false} ChainOnly(services: Services, a: Name, b: Name)
    requires (a, b) in Chain(services)
    ensures ChainPair(services, a, b)
  {
    DependsOnPair(services, a, b);
    if s :| WritesOwn(services, s, 0) && b in services[s].dependsOn && a == Generated(services, s, 0) {
      assert InitChain(services, s, 0, a, b);
    } else if s, i :| 0 < i && WritesOwn(services, s, i) && a == Generated(services, s, i) && b == Generated(services, s, i - 1) {
      assert InitChain(services, s, i, a, b);
    }
  }

  lemma {:induction false} ExpandedIsChain(services: Services)
    ensures DependsOn(SynthesizedAll(services)) == Chain(services)
  {
    forall a, b ensures (a, b) in DependsOn(SynthesizedAll(services)) <==> (a, b) in Chain(services) {
      ExpandedPairs(services, a, b);
      if ChainPair(services, a, b) { ChainHolds(services, a, b); }
      if (a, b) in Chain(services) { ChainOnly(services, a, b); }
    }
  }

  /** No new names go round in a circle, and passing through them no service leads back to itself. */
  ghost predicate ExpandsAcyclic(services: Services) {
    Acyclic(Outside(Chain(services), services.Keys)) && Acyclic(Contracted(Chain(services), services.Keys))
  }

  /** The exact condition, for every composition. */
  lemma {:induction false} AcyclicIff(services: Services)
    ensures Acyclic(DependsOn(SynthesizedAll(services))) <==> ExpandsAcyclic(services)
  {
    ExpandedIsChain(services);
    ContractionAcyclicIff(Chain(services), services.Keys);
  }

  /** Expanding never removes a cycle, whatever the names. */
  lemma {:induction false} CyclesStay(services: Services)
    requires Acyclic(DependsOn(SynthesizedAll(services)))
    ensures Acyclic(DependsOn(services))
  {
    forall e | e in DependsOn(services) ensures e in DependsOn(SynthesizedAll(services)) {
      DependsOnPair(services, e.0, e.1);
      MainPairs(services, e.0, e.1);
    }
    AcyclicMonotone(DependsOn(services), DependsOn(SynthesizedAll(services)));
  }

  // ---- Distinct init names ----

  /** Where the service written for stands in name order, counted from the end, and the place of its init. */
  ghost function WriterRank(services: Services, names: seq<Name>, M: nat, x: Name): int {
    if exists s: Name, i: nat :: s in names && Writes(services, s, i, x) then
      var s: Name, i: nat :| s in names && Writes(services, s, i, x);
      1 + Slot(|names| - PositionIn(names, s), M) + i
    else 0
  }

  lemma {:induction false} WriterRankIs(services: Services, names: seq<Name>, M: nat, s: Name, i: nat, x: Name)
    requires s in names && Writes(services, s, i, x)
    ensures WriterRank(services, names, M, x) == 1 + Slot(|names| - PositionIn(names, s), M) + i
  {
    var t: Name, j: nat :| t in names && Writes(services, t, j, x)
      && WriterRank(services, names, M, x) == 1 + Slot(|names| - PositionIn(names, t), M) + j;
    WriterUnique(services, s, i, t, j, x);
  }

  lemma {:induction false} LaterPosition(names: seq<Name>, s: Name, t: Name)
    requires Sorted(names) && s in names && t in names && s != t && LessEq(s, t)
    ensures PositionIn(names, s) < PositionIn(names, t)
  {
    if PositionIn(names, t) < PositionIn(names, s) {
      LessEqAntisymmetric(s, t);
    }
  }

  lemma {:induction false} SameIndex(services: Services, s: Name, i: nat, j: nat)
    requires s in services && DistinctInits(services[s]) && i < |services[s].inits| && j < |services[s].inits|
    requires Generated(services, s, i) == Generated(services, s, j)
    ensures i == j
  {
    SameInitName(s, services[s].inits[i].name, services[s].inits[j].name);
  }

  /** From a new name to the new name before it: the same service's init before, or a greater service. */
  lemma {:induction false} WriterRankDrops(services: Services, names: seq<Name>, M: nat, s: Name, i: nat, x: Name)
    requires AllDistinct(services) && Sorted(names) && forall u :: u in names <==> u in services
    requires forall u :: u in services ==> |services[u].inits| < M
    requires 0 < i && Writes(services, s, i, x) && Generated(services, s, i - 1) !in services
    ensures WriterRank(services, names, M, Generated(services, s, i - 1)) < WriterRank(services, names, M, x)
  {
    var y := Generated(services, s, i - 1);
    assert Generates(services, s, y);
    var t, j := WriterExists(services, y);
    WriterRankIs(services, names, M, s, i, x);
    WriterRankIs(services, names, M, t, j, y);
    if t == s {
      SameIndex(services, s, j, i - 1);
    }
    PlaceDrops(names, M, s, i, t, j);
  }

  lemma {:induction false} PlaceDrops(names: seq<Name>, M: nat, s: Name, i: nat, t: Name, j: nat)
    requires Sorted(names) && s in names && t in names && LessEq(s, t) && i < M && j < M
    requires s == t ==> j < i
    ensures Slot(|names| - PositionIn(names, t), M) + j < Slot(|names| - PositionIn(names, s), M) + i
  {
    if s != t {
      LaterPosition(names, s, t);
      SlotBelow(|names| - PositionIn(names, t), |names| - PositionIn(names, s), M);
    }
  }

  lemma {:induction false} SlotBelow(a: int, b: int, M: nat)
    requires 0 <= a < b
    ensures Slot(a, M) + M <= Slot(b, M)
  {
    StepUp(a + 1, b, M);
  }

  /** With distinct init names new names never go round in a circle, however many services generate them. */
  lemma {:induction false} DistinctNeverCircle(services: Services)
    requires AllDistinct(services) && Unreferenced(services)
    ensures Acyclic(Outside(Chain(services), services.Keys))
  {
    InOrderElements(services.Keys);
    InOrderSorted(services.Keys);
    var bound := InitBound(services);
    NewNamesDescend(services, InOrder(services.Keys), bound + 1);
  }

  lemma {:induction false} NewNamesDescend(services: Services, names: seq<Name>, M: nat)
    requires AllDistinct(services) && Unreferenced(services) && Sorted(names) && forall u :: u in names <==> u in services
    requires forall u :: u in services ==> |services[u].inits| < M
    ensures Acyclic(Outside(Chain(services), services.Keys))
  {
    var r := Outside(Chain(services), services.Keys);
    var order := (x: Name) => WriterRank(services, names, M, x);
    forall a, b | (a, b) in r ensures order(b) < order(a) {
      ChainOnly(services, a, b);
      NewNameDrops(services, names, M, a, b);
    }
    OrderedIsAcyclic(r, order);
  }

  lemma {:induction false} NewNameDrops(services: Services, names: seq<Name>, M: nat, a: Name, b: Name)
    requires AllDistinct(services) && Unreferenced(services) && Sorted(names) && forall u :: u in names <==> u in services
    requires forall u :: u in services ==> |services[u].inits| < M
    requires ChainPair(services, a, b) && a !in services && b !in services
    ensures WriterRank(services, names, M, b) < WriterRank(services, names, M, a)
  {
    var s: Name, i: nat :| InitChain(services, s, i, a, b);
    if i == 0 {
      NoWriter(services, names, M, s, b);
      WriterRankIs(services, names, M, s, i, a);
    } else {
      WriterRankDrops(services, names, M, s, i, a);
    }
  }

  lemma {:induction false} NoWriter(services: Services, names: seq<Name>, M: nat, s: Name, d: Name)
    requires Unreferenced(services) && s in services && d in services[s].dependsOn && d !in services
    ensures WriterRank(services, names, M, d) == 0
  {
    CycleCheck.TargetInUniverse(services, s, d);
    forall t: Name, i: nat ensures !Writes(services, t, i, d) {
      if IsInit(services, t, i, d) { assert Generates(services, t, d); }
    }
  }

  /** With distinct init names the graph passed through onto the services decides. */
  lemma {:induction false} DistinctAcyclicIff(services: Services)
    requires AllDistinct(services) && Unreferenced(services)
    ensures Acyclic(DependsOn(SynthesizedAll(services))) <==> Acyclic(Contracted(Chain(services), services.Keys))
  {
    AcyclicIff(services);
    DistinctNeverCircle(services);
  }

  // ---- An existing service under a generated name ----

  /** The `i`-th init of `s` is replaced by an existing service, and no later one is. */
  ghost predicate ReplacedAt(services: Services, s: Name, i: nat) {
    && s in services && i < |services[s].inits| && Generated(services, s, i) in services
    && !CutOff(services, s, i)
  }

  /** An existing service stands in the place of a later init, so the chain from `s` stops there. */
  ghost predicate CutOff(services: Services, s: Name, i: nat)
    requires s in services
  {
    exists j :: i < j < |services[s].inits| && Generated(services, s, j) in services
  }

  /** Each service and the existing service that its chain of inits runs into. */
  ghost function Detours(services: Services): Relation {
    set s, i | s in services && 0 <= i < |services[s].inits| && ReplacedAt(services, s, i) :: (s, Generated(services, s, i))
  }

  lemma {:induction false} DetourPair(services: Services, a: Name, b: Name)
    ensures (a, b) in Detours(services) <==> exists i: nat :: ReplacedAt(services, a, i) && b == Generated(services, a, i)
  {
    if (a, b) in Detours(services) {
      var s, i :| s in services && 0 <= i < |services[s].inits| && ReplacedAt(services, s, i)
        && (a, b) == (s, Generated(services, s, i));
    }
  }

  /** A numbering of names that drops along dependencies and detours, with room for the inits. */
  ghost predicate GoodRank(services: Services, rank: map<Name, int>, T: nat, M: nat) {
    && rank.Keys == CycleCheck.Universe(services)
    && Descending(DependsOn(services) + Detours(services), rank)
    && (forall x :: x in rank ==> 0 <= rank[x] < T)
    && forall s :: s in services ==> |services[s].inits| + 1 < M
  }

  lemma {:induction false} InitBound(services: Services) returns (bound: nat)
    ensures forall s :: s in services ==> |services[s].inits| <= bound
    decreases |services|
  {
    if services == map[] {
      bound := 0;
    } else {
      var t :| t in services;
      var rest := services - {t};
      assert |rest.Keys| < |services.Keys| by { assert rest.Keys == services.Keys - {t}; }
      var b := InitBound(rest);
      bound := if |services[t].inits| > b then |services[t].inits| else b;
      forall s | s in services ensures |services[s].inits| <= bound {
        if s != t { assert s in rest && rest[s] == services[s]; }
      }
    }
  }

  /** Room for `M` numbers below each rank. */
  function Slot(k: int, M: nat): nat {
    if k <= 0 then 0 else Slot(k - 1, M) + M
  }

  lemma {:induction false} StepUp(a: int, b: int, M: nat)
    requires a <= b
    ensures Slot(a, M) <= Slot(b, M)
    decreases b - a
  {
    if a < b { StepUp(a, b - 1, M); }
  }

  ghost predicate HasOwner(services: Services, x: Name) {
    exists s: Name, i: nat :: IsInit(services, s, i, x)
  }

  /** The service and place a generated name stands for. */
  ghost function Owner(services: Services, x: Name): (o: (Name, nat))
    requires HasOwner(services, x)
    ensures IsInit(services, o.0, o.1, x)
  {
    var s: Name, i: nat :| IsInit(services, s, i, x); (s, i)
  }

  /** Where the inits of a service go: right below it, or on top of everything once cut off. */
  ghost function Base(services: Services, rank: map<Name, int>, T: nat, M: nat, s: Name, i: nat): nat
    requires s in services
  {
    if CutOff(services, s, i) then Slot(T, M) else if s in rank then Slot(rank[s], M) else 0
  }

  ghost function NewRank(services: Services, rank: map<Name, int>, T: nat, M: nat, x: Name): int {
    if x in rank then Slot(rank[x] + 1, M)
    else if HasOwner(services, x) then
      var (s, i) := Owner(services, x);
      Base(services, rank, T, M, s, i) + 1 + i
    else 0
  }

  /** A numbering of all names in which every name has its place. */
  ghost predicate Placed(services: Services, rank: map<Name, int>, T: nat, M: nat, order: Name -> int) {
    && GoodRank(services, rank, T, M)
    && (forall x :: x in rank ==> order(x) == Slot(rank[x] + 1, M))
    && (forall s, i: nat :: s in services && i < |services[s].inits| && Generated(services, s, i) !in services ==>
          order(Generated(services, s, i)) == Base(services, rank, T, M, s, i) + 1 + i)
  }

  lemma {:induction false} InitRank(services: Services, rank: map<Name, int>, T: nat, M: nat, s: Name, i: nat)
    requires OneOwner(services) && AllDistinct(services) && Unreferenced(services)
    requires rank.Keys == CycleCheck.Universe(services) && s in services && i < |services[s].inits|
    requires Generated(services, s, i) !in services
    ensures NewRank(services, rank, T, M, Generated(services, s, i)) == Base(services, rank, T, M, s, i) + 1 + i
  {
    var x := Generated(services, s, i);
    assert Generates(services, s, x) && IsInit(services, s, i, x);
    var (t, j) := Owner(services, x);
    assert Generates(services, t, x);
    SameInitName(s, services[s].inits[i].name, services[s].inits[j].name);
    assert DistinctInits(services[s]);
  }

  /** What a service depends on, or runs into, is numbered below its inits. */
  lemma {:induction false} BelowInits(services: Services, rank: map<Name, int>, T: nat, M: nat, order: Name -> int, s: Name, d: Name)
    requires Placed(services, rank, T, M, order) && (s, d) in DependsOn(services) + Detours(services)
    ensures s in rank && d in rank && order(d) <= Slot(rank[s], M) && order(d) <= Slot(T, M)
  {
    StepUp(rank[d] + 1, rank[s], M);
    StepUp(rank[d] + 1, T, M);
  }

  lemma {:induction false} ServiceRank(services: Services, rank: map<Name, int>, T: nat, M: nat, order: Name -> int, s: Name)
    requires Placed(services, rank, T, M, order) && s in services
    ensures s in rank && order(s) == Slot(rank[s], M) + M <= Slot(T, M) && M > |services[s].inits| + 1
  {
    assert s in CycleCheck.Universe(services);
    SlotNext(rank[s], T, M);
  }

  lemma {:induction false} SlotNext(k: nat, T: nat, M: nat)
    requires k < T
    ensures Slot(k + 1, M) == Slot(k, M) + M <= Slot(T, M)
  {
    StepUp(k + 1, T, M);
  }

  lemma {:induction false} LastInitDrops(services: Services, rank: map<Name, int>, T: nat, M: nat, order: Name -> int, s: Name)
    requires Placed(services, rank, T, M, order) && s in services && services[s].inits != []
    ensures order(LastInit(services, s)) < order(s)
  {
    var n := |services[s].inits| - 1;
    ServiceRank(services, rank, T, M, order, s);
    if LastInit(services, s) in services {
      assert ReplacedAt(services, s, n);
      DetourPair(services, s, LastInit(services, s));
      BelowInits(services, rank, T, M, order, s, LastInit(services, s));
    } else {
      assert order(Generated(services, s, n)) == Base(services, rank, T, M, s, n) + 1 + n;
    }
  }

  lemma {:induction false} FirstInitDrops(services: Services, rank: map<Name, int>, T: nat, M: nat, order: Name -> int, s: Name, d: Name)
    requires Placed(services, rank, T, M, order) && s in services && services[s].inits != []
    requires Generated(services, s, 0) !in services && d in services[s].dependsOn
    ensures order(d) < order(Generated(services, s, 0))
  {
    DependsOnPair(services, s, d);
    BelowInits(services, rank, T, M, order, s, d);
  }

  lemma {:induction false} CutOffNext(services: Services, s: Name, i: nat)
    requires s in services && 0 < i < |services[s].inits|
    ensures CutOff(services, s, i - 1) <==> Generated(services, s, i) in services || CutOff(services, s, i)
  {
    if CutOff(services, s, i - 1) && Generated(services, s, i) !in services {
      var j :| i - 1 < j < |services[s].inits| && Generated(services, s, j) in services;
      assert i < j;
    }
  }

  lemma {:induction false} KeptInitDrops(services: Services, rank: map<Name, int>, T: nat, M: nat, order: Name -> int, s: Name, i: nat)
    requires Placed(services, rank, T, M, order) && s in services && 0 < i < |services[s].inits|
    requires Generated(services, s, i) !in services && Generated(services, s, i - 1) !in services
    ensures order(Generated(services, s, i - 1)) < order(Generated(services, s, i))
  {
    CutOffNext(services, s, i);
  }

  lemma {:induction false} ReplacedInitDrops(services: Services, rank: map<Name, int>, T: nat, M: nat, order: Name -> int, s: Name, i: nat)
    requires Placed(services, rank, T, M, order) && s in services && 0 < i < |services[s].inits|
    requires Generated(services, s, i) !in services && Generated(services, s, i - 1) in services
    ensures order(Generated(services, s, i - 1)) < order(Generated(services, s, i))
  {
    var y := Generated(services, s, i - 1);
    ServiceRank(services, rank, T, M, order, s);
    ServiceRank(services, rank, T, M, order, y);
    if !CutOff(services, s, i) {
      CutOffNext(services, s, i);
      assert ReplacedAt(services, s, i - 1);
      DetourPair(services, s, y);
      BelowInits(services, rank, T, M, order, s, y);
    }
  }

  lemma {:induction false} OrderDrops(services: Services, rank: map<Name, int>, T: nat, M: nat, order: Name -> int, a: Name, b: Name)
    requires Placed(services, rank, T, M, order) && ChainPair(services, a, b)
    ensures order(b) < order(a)
  {
    if a in services {
      if b in services[a].dependsOn {
        DependsOnPair(services, a, b);
        BelowInits(services, rank, T, M, order, a, b);
        ServiceRank(services, rank, T, M, order, a);
      } else {
        LastInitDrops(services, rank, T, M, order, a);
      }
    } else {
      var s: Name, i: nat :| InitChain(services, s, i, a, b);
      if i == 0 {
        FirstInitDrops(services, rank, T, M, order, s, b);
      } else if b in services {
        ReplacedInitDrops(services, rank, T, M, order, s, i);
      } else {
        KeptInitDrops(services, rank, T, M, order, s, i);
      }
    }
  }

  lemma {:induction false} RelationInUniverse(services: Services)
    ensures forall a, b :: (a, b) in DependsOn(services) + Detours(services) ==>
      a in CycleCheck.Universe(services) && b in CycleCheck.Universe(services)
  {
    forall a, b | (a, b) in DependsOn(services) + Detours(services)
      ensures a in CycleCheck.Universe(services) && b in CycleCheck.Universe(services)
    {
      DependsOnPair(services, a, b);
      DetourPair(services, a, b);
      if (a, b) in DependsOn(services) {
        CycleCheck.TargetInUniverse(services, a, b);
      }
    }
  }

  /** Going down the inits that are not replaced, numbers keep dropping. */
  lemma {:induction false} DetourDrops(services: Services, rank: map<Name, int>, s: Name, i: nat, k: nat)
    requires OneOwner(services) && AllDistinct(services) && Descending(DependsOn(SynthesizedAll(services)), rank)
    requires ReplacedAt(services, s, i) && i <= k < |services[s].inits|
    ensures s in rank && Generated(services, s, k) in rank && rank[Generated(services, s, k)] < rank[s]
    decreases |services[s].inits| - k
  {
    var n := |services[s].inits|;
    if k == n - 1 {
      MainPairs(services, s, LastInit(services, s));
    } else {
      DetourDrops(services, rank, s, i, k + 1);
      var a, b := Generated(services, s, k + 1), Generated(services, s, k);
      assert a !in services;
      OwnWrites(services, s, k + 1);
      assert InitChain(services, s, k + 1, a, b);
      ExpandedPairs(services, a, b);
    }
  }

  /**
   * With distinct init names, generated for one service each: an existing service takes the place of an init
   * of the same name, and the expanded graph is acyclic exactly when the dependencies together with those
   * detours are.
   */
  lemma {:induction false} AcyclicIffDetours(services: Services)
    requires OneOwner(services) && AllDistinct(services) && Unreferenced(services)
    ensures Acyclic(DependsOn(SynthesizedAll(services))) <==> Acyclic(DependsOn(services) + Detours(services))
  {
    var out, r := SynthesizedAll(services), DependsOn(services) + Detours(services);
    if Acyclic(r) {
      DetoursSuffice(services);
    }
    if Acyclic(DependsOn(out)) {
      RelationInUniverse(out);
      var rank := AcyclicHasRank(DependsOn(out), CycleCheck.Universe(out));
      forall a, b | (a, b) in r ensures a in rank && b in rank && rank[b] < rank[a] {
        DependsOnPair(services, a, b);
        DetourPair(services, a, b);
        if (a, b) in DependsOn(services) {
          MainPairs(services, a, b);
        } else {
          var i: nat :| ReplacedAt(services, a, i) && b == Generated(services, a, i);
          DetourDrops(services, rank, a, i, i);
        }
      }
      DescendingIsAcyclic(r, rank);
    }
  }

  lemma {:induction false} DetoursSuffice(services: Services)
    requires OneOwner(services) && AllDistinct(services) && Unreferenced(services)
    requires Acyclic(DependsOn(services) + Detours(services))
    ensures Acyclic(DependsOn(SynthesizedAll(services)))
  {
    var out, r := SynthesizedAll(services), DependsOn(services) + Detours(services);
    RelationInUniverse(services);
    var rank := AcyclicHasRank(r, CycleCheck.Universe(services));
    var bound := InitBound(services);
    var T, M := |CycleCheck.Universe(services)|, bound + 2;
    var order := (x: Name) => NewRank(services, rank, T, M, x);
    forall s, i: nat | s in services && i < |services[s].inits| && Generated(services, s, i) !in services
      ensures order(Generated(services, s, i)) == Base(services, rank, T, M, s, i) + 1 + i
    {
      InitRank(services, rank, T, M, s, i);
    }
    assert Placed(services, rank, T, M, order);
    PlacedIsAcyclic(services, rank, T, M, order);
  }

  lemma {:induction false} PlacedIsAcyclic(services: Services, rank: map<Name, int>, T: nat, M: nat, order: Name -> int)
    requires Placed(services, rank, T, M, order)
    ensures Acyclic(DependsOn(SynthesizedAll(services)))
  {
    var out := SynthesizedAll(services);
    forall a, b | (a, b) in DependsOn(out) ensures order(b) < order(a) {
      ExpandedPairs(services, a, b);
      OrderDrops(services, rank, T, M, order, a, b);
    }
    OrderedIsAcyclic(DependsOn(out), order);
  }

  /** An existing service under the name of an init, depending on that init's service, closes a cycle. */
  lemma {:induction false} ReplacedInitLoops(services: Services, s: Name)
    requires s in services && services[s].inits != []
    requires LastInit(services, s) in services && s in services[LastInit(services, s)].dependsOn
    ensures !Acyclic(DependsOn(SynthesizedAll(services)))
  {
    var x, r := LastInit(services, s), DependsOn(SynthesizedAll(services));
    MainPairs(services, s, x);
    MainPairs(services, x, s);
    assert Closed(r, [s, x, s]);
  }

  // ---- Repeated names ----

  ghost function NamesFrom(services: Services, s: Name, i: nat): set<Name>
    requires s in services
  {
    set k | i <= k < |services[s].inits| :: Generated(services, s, k)
  }

  /** The name is written for a service's own init: it is no service, and no greater service generates it. */
  ghost predicate OwnName(services: Services, s: Name, x: Name) {
    x !in services && forall u :: Generates(services, u, x) ==> LessEq(u, s)
  }

  /**
   * The init written last under a repeated name depends on the one before it; as long as the names after the
   * first occurrence are the service's own, nothing leads below it.
   */
  lemma {:induction false} RepeatedInitLoops(services: Services, s: Name, i: nat, j: nat)
    requires s in services && i < j < |services[s].inits| && services[s].inits[i].name == services[s].inits[j].name
    requires forall k :: i < k < |services[s].inits| ==> OwnName(services, s, Generated(services, s, k))
    ensures !Acyclic(DependsOn(SynthesizedAll(services)))
  {
    var out, svc := SynthesizedAll(services), services[s];
    var nodes := NamesFrom(services, s, i + 1);
    forall x | x in nodes ensures HasSuccessorIn(DependsOn(out), nodes, x) {
      var k :| i + 1 <= k < |svc.inits| && Generated(services, s, k) == x;
      var e := LastIndex(svc, k, |svc.inits|);
      assert OwnName(services, s, Generated(services, s, k));
      SynthesizedInit(services, s, e, x);
      var y := Generated(services, s, e - 1);
      DependsOnPair(out, x, y);
      assert y == Generated(services, s, if e - 1 == i then j else e - 1);
      assert y in nodes;
    }
    assert Generated(services, s, j) in nodes;
    NoSinkMeansCycle(DependsOn(out), nodes, Generated(services, s, j));
  }

  /** Two services that generate one name: the greater one's entry takes the place of the other's last init. */
  lemma {:induction false} SharedNameLoops(services: Services, s: Name, t: Name)
    requires s in services && services[s].inits != [] && Writes(services, t, 0, LastInit(services, s))
    requires s in services[t].dependsOn
    ensures !Acyclic(DependsOn(SynthesizedAll(services)))
  {
    var x, r := LastInit(services, s), DependsOn(SynthesizedAll(services));
    MainPairs(services, s, x);
    assert InitChain(services, t, 0, x, s);
    ExpandedPairs(services, x, s);
    assert Closed(r, [s, x, s]);
  }

  lemma {:induction false} NoDetours(services: Services)
    requires NamesFree(services)
    ensures Detours(services) == {}
  {
    forall s: Name, i: nat ensures !ReplacedAt(services, s, i) {
      if s in services && i < |services[s].inits| {
        assert Generates(services, s, Generated(services, s, i));
      }
    }
  }

  /**
   * With new names, generated for one service each: the expanded graph is acyclic exactly when the original is
   * and no service names two of its inits alike.
   */
  lemma {:induction false} AcyclicPreserved(services: Services)
    requires NamesFree(services) && OneOwner(services) && Unreferenced(services)
    ensures Acyclic(DependsOn(SynthesizedAll(services))) <==> Acyclic(DependsOn(services)) && AllDistinct(services)
  {
    if AllDistinct(services) {
      NoDetours(services);
      assert DependsOn(services) + Detours(services) == DependsOn(services);
      AcyclicIffDetours(services);
    } else {
      var s :| s in services && !DistinctInits(services[s]);
      var i, j :| 0 <= i < j < |services[s].inits| && services[s].inits[i].name == services[s].inits[j].name;
      forall k | i < k < |services[s].inits| ensures OwnName(services, s, Generated(services, s, k)) {
        assert Generates(services, s, Generated(services, s, k));
      }
      RepeatedInitLoops(services, s, i, j);
    }
  }

  // ---- Two compositions that lose acyclicity ----

  function Plain(inits: seq<InitContainer>, dependsOn: map<Name, string>): Service {
    Service("", "", "", [], [], [], inits, dependsOn)
  }

  /** One service without dependencies, two of its inits called alike. */
  lemma {:induction false} TwoInitsAlike(x: string)
    ensures var ic := InitContainer(x, "", []); var services := map["s" := Plain([ic, ic], map[])];
      WellFounded(services) && !Acyclic(DependsOn(SynthesizedAll(services)))
  {
    var ic := InitContainer(x, "", []);
    var services := map["s" := Plain([ic, ic], map[])];
    assert DependsOn(services) == {};
    DescendingIsAcyclic(DependsOn(services), map[]);
    forall s, y | Generates(services, s, y) ensures s == "s" && y !in services {
      assert y == "s-init-" + x && |y| >= 7;
    }
    assert Generates(services, "s", Generated(services, "s", 1));
    RepeatedInitLoops(services, "s", 0, 1);
  }

  /** A service already called what the init of the service it depends on would be. */
  lemma {:induction false} ServiceCalledLikeInit(x: string)
    ensures var y := InitServiceName("s", x);
      var services := map["s" := Plain([InitContainer(x, "", [])], map[]), y := Plain([], map["s" := ""])];
      WellFounded(services) && !Acyclic(DependsOn(SynthesizedAll(services)))
  {
    var y := InitServiceName("s", x);
    assert |y| >= 7;
    var services := map["s" := Plain([InitContainer(x, "", [])], map[]), y := Plain([], map["s" := ""])];
    forall a, b | (a, b) in DependsOn(services) ensures a == y && b == "s" {
      DependsOnPair(services, a, b);
    }
    DescendingIsAcyclic(DependsOn(services), map["s" := 0, y := 1]);
    assert LastInit(services, "s") == y;
    ReplacedInitLoops(services, "s");
  }

  /** Two services that generate one name, the greater depending on the other. */
  lemma {:induction false} TwoServicesOneName(x: string, y: string)
    ensures var t := InitServiceName("s", x);
      var services := map["s" := Plain([InitContainer(x + "-init-" + y, "", [])], map[]),
                          t := Plain([InitContainer(y, "", [])], map["s" := ""])];
      && WellFounded(services) && NamesFree(services) && AllDistinct(services)
      && !Acyclic(DependsOn(SynthesizedAll(services)))
  {
    var t := InitServiceName("s", x);
    var services := map["s" := Plain([InitContainer(x + "-init-" + y, "", [])], map[]),
                        t := Plain([InitContainer(y, "", [])], map["s" := ""])];
    var name := InitServiceName(t, y);
    assert name == InitServiceName("s", x + "-init-" + y);
    assert |name| > |t| >= 7;
    forall a, b | (a, b) in DependsOn(services) ensures a == t && b == "s" {
      DependsOnPair(services, a, b);
    }
    DescendingIsAcyclic(DependsOn(services), map["s" := 0, t := 1]);
    assert t == "s" + ("-init-" + x);
    PrefixLess("s", "-init-" + x);
    forall u, z | Generates(services, u, z) ensures z == name && LessEq(u, t) { }
    assert Writes(services, t, 0, name);
    SharedNameLoops(services, "s", t);
  }

  // ---- Starting the expanded composition ----

  /** Every target exists exactly when it did before. */
  lemma {:induction false} TargetsPreserved(services: Services)
    requires Unreferenced(services)
    ensures TargetsExist(SynthesizedAll(services)) <==> TargetsExist(services)
  {
    var out := SynthesizedAll(services);
    if TargetsExist(services) {
      forall a, b | a in out && b in out[a].dependsOn ensures b in out {
        TargetPresent(services, a, b);
      }
    }
    if TargetsExist(out) {
      forall s, d | s in services && d in services[s].dependsOn ensures d in services {
        SynthesizedMain(services, s);
        assert d in out[s].dependsOn;
        SynthesizedKeys(services, d);
        CycleCheck.TargetInUniverse(services, s, d);
      }
    }
  }

  lemma {:induction false} TargetPresent(services: Services, a: Name, b: Name)
    requires TargetsExist(services) && a in SynthesizedAll(services) && b in SynthesizedAll(services)[a].dependsOn
    ensures b in SynthesizedAll(services)
  {
    var out := SynthesizedAll(services);
    SynthesizedKeys(services, b);
    if a in services {
      SynthesizedMain(services, a);
      if b !in services {
        assert b == Generated(services, a, |services[a].inits| - 1);
        assert Generates(services, a, b);
      }
    } else {
      SynthesizedKeys(services, a);
      var s: Name, i: nat :| WrittenFor(services, s, i, a, out[a]);
      if b !in services {
        assert b == Generated(services, s, i - 1);
        assert Generates(services, s, b);
      }
    }
  }

  /** The expanded composition can be started exactly when all targets exist and it expands without a cycle. */
  lemma {:induction false} StartableIff(services: Services)
    requires Unreferenced(services)
    ensures WellFounded(SynthesizedAll(services)) <==> TargetsExist(services) && ExpandsAcyclic(services)
  {
    AcyclicIff(services);
    TargetsPreserved(services);
  }

  /** With new names of one owner each: exactly when the original can and init names are distinct. */
  lemma {:induction false} StartablePreserved(services: Services)
    requires NamesFree(services) && OneOwner(services) && Unreferenced(services)
    ensures WellFounded(SynthesizedAll(services)) <==> WellFounded(services) && AllDistinct(services)
  {
    AcyclicPreserved(services);
    TargetsPreserved(services);
  }

  /**
   * Filtering, then expanding, as a composition is brought up: every target exists, so it can be started exactly
   * when it expands without a cycle, whatever the names.
   */
  lemma {:induction false} TransformedStartable(comp: Composition, active: seq<string>)
    ensures var services := Filter.Filtered(comp, active).services;
      WellFounded(SynthesizedAll(services)) <==> ExpandsAcyclic(services)
  {
    var services := Filter.Filtered(comp, active).services;
    Filter.FilteredIsClosed(comp, active);
    TargetsExistUnreferenced(services);
    StartableIff(services);
  }

  /**
   * In the start levels of the expanded composition: everything the service depended on is strictly before its
   * first init, the inits are in strictly increasing levels as declared, and the service is after its last init.
   */
  lemma {:induction false} InitsStartInOrder(services: Services, k: nat, s: Name)
    requires NamesFree(services) && OneOwner(services) && Unreferenced(services)
    requires s in services && services[s].inits != []
    requires Low(SynthesizedAll(services), k) == SynthesizedAll(services).Keys
    ensures var out, n := SynthesizedAll(services), |services[s].inits|;
      && s in out
      && (forall i :: 0 <= i < n ==> Generated(services, s, i) in out)
      && (forall d :: d in services[s].dependsOn ==>
            d in out && LevelOf(out, k, d) < LevelOf(out, k, Generated(services, s, 0)))
      && (forall i :: 0 < i < n ==>
            LevelOf(out, k, Generated(services, s, i - 1)) < LevelOf(out, k, Generated(services, s, i)))
      && LevelOf(out, k, Generated(services, s, n - 1)) < LevelOf(out, k, s)
  {
    var out, n := SynthesizedAll(services), |services[s].inits|;
    AllLowIsWellFounded(out, k);
    AcyclicPreserved(services);
    SynthesizedMain(services, s);
    forall i | 0 <= i < n ensures Generated(services, s, i) in out && out[Generated(services, s, i)] == InitService(s, services[s], i) {
      assert Generates(services, s, Generated(services, s, i));
      OwnWrites(services, s, i);
      SynthesizedInit(services, s, i, Generated(services, s, i));
    }
    forall d | d in services[s].dependsOn
      ensures d in out && LevelOf(out, k, d) < LevelOf(out, k, Generated(services, s, 0))
    {
      LevelDrops(out, k, Generated(services, s, 0), d);
    }
    forall i | 0 < i < n
      ensures LevelOf(out, k, Generated(services, s, i - 1)) < LevelOf(out, k, Generated(services, s, i))
    {
      LevelDrops(out, k, Generated(services, s, i), Generated(services, s, i - 1));
    }
    LevelDrops(out, k, s, Generated(services, s, n - 1));
  }

  // ---- Expanding twice ----

  /**
   * Expanding an expanded composition changes nothing, whatever the names. The main services still declare their
   * inits, so the second pass generates those again; but every generated name is a service by then, and wins.
   */
  lemma {:induction false} ExpansionIdempotent(services: Services)
    ensures SynthesizedAll(SynthesizedAll(services)) == SynthesizedAll(services)
  {
    var once := SynthesizedAll(services);
    forall x | x in once ensures x in SynthesizedAll(once) && SynthesizedAll(once)[x] == once[x] {
      SynthesizedMain(once, x);
      MainUnchanged(services, x);
    }
    forall x | x in SynthesizedAll(once) ensures x in once {
      SynthesizedKeys(once, x);
      if x !in once {
        var s :| Generates(once, s, x);
        RegeneratedExists(services, s, x);
      }
    }
  }

  lemma {:induction false} MainUnchanged(services: Services, x: Name)
    requires x in SynthesizedAll(services)
    ensures MainService(x, SynthesizedAll(services)[x]) == SynthesizedAll(services)[x]
  {
    var once := SynthesizedAll(services);
    if x in services {
      SynthesizedMain(services, x);
      assert MainService(x, once[x]).dependsOn == once[x].dependsOn;
    } else {
      SynthesizedKeys(services, x);
      var s: Name, i: nat :| WrittenFor(services, s, i, x, once[x]);
    }
  }

  lemma {:induction false} RegeneratedExists(services: Services, s: Name, x: Name)
    requires Generates(SynthesizedAll(services), s, x)
    ensures x in SynthesizedAll(services)
  {
    var once := SynthesizedAll(services);
    InitsHaveNoInits(services, s);
    SynthesizedMain(services, s);
    var i :| 0 <= i < |once[s].inits| && Generated(once, s, i) == x;
    assert Generated(services, s, i) == x;
    assert Generates(services, s, x);
    SynthesizedKeys(services, x);
  }

  lemma {:induction false} InitsHaveNoInits(services: Services, s: Name)
    requires s in SynthesizedAll(services)
    ensures s in services || SynthesizedAll(services)[s].inits == []
  {
    SynthesizedKeys(services, s);
    if s !in services {
      var t: Name, j: nat :| WrittenFor(services, t, j, s, SynthesizedAll(services)[s]);
    }
  }
}
