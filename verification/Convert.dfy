/** Turning a composition into resource manifests and dependency edges, and those into a deployment. */
module Convert {
  import opened Options
  import opened Colons
  import opened Ordering
  import opened Graphs
  import opened Kahn
  import opened Requests
  import opened TopoSort
  import opened Store
  import opened Deployments
  import opened Conditions
  import opened Planning
  import opened PlanLaws
  import opened Compositions

  const API_VERSION := "cri.orchestrator.io/v1"

  type Kind = string

  function KeyOf(kind: Kind): Key {
    API_VERSION + "/" + kind
  }

  datatype Manifest = Manifest(kind: Kind, name: Id)

  /** `from` depends on `to`; an empty condition means started. */
  datatype Edge = Edge(from: Reference, to: Reference, condition: Condition)

  datatype Result = Converted(manifests: seq<Manifest>, edges: seq<Edge>) | ProjectRequired

  /** How the runtime refers to an image that a service declares. */
  type Resolver = string -> Id

  function ScopedId(project: string, name: string): Id {
    project + "/" + name
  }

  lemma {:induction false} ScopedIdInjective(project: string, a: string, b: string)
    requires ScopedId(project, a) == ScopedId(project, b)
    ensures a == b
  {
    var p := project + "/";
    assert ScopedId(project, a) == p + a && ScopedId(project, b) == p + b;
    assert (p + a)[|p|..] == a && (p + b)[|p|..] == b;
  }

  predicate HasPrefix(s: string, p: string) {
    p <= s
  }

  /** The named volume of a mount, or nothing for a bind mount. */
  function ExtractVolumeName(mount: string): string {
    var source := mount[..FirstColon(mount)];
    if HasPrefix(source, "/") || HasPrefix(source, "./") || HasPrefix(source, "~") || HasPrefix(source, "..") then ""
    else source
  }

  function MapCondition(condition: string): Condition {
    match condition
    case "service_started" => "started"
    case "service_healthy" => "healthy"
    case "service_completed_successfully" => "completed"
    case _ => ""
  }

  // ---- What the edges say ----

  function EdgePairs(edges: seq<Edge>): Relation {
    if edges == [] then {}
    else EdgePairs(edges[..|edges| - 1]) + {(edges[|edges| - 1].from.id, edges[|edges| - 1].to.id)}
  }

  lemma {:induction false} EdgePairsConcat(a: seq<Edge>, b: seq<Edge>)
    ensures EdgePairs(a + b) == EdgePairs(a) + EdgePairs(b)
  {
    if b == [] {
      assert a + b == a;
    } else {
      var n := |b| - 1;
      assert (a + b)[..|a| + n] == a + b[..n];
      EdgePairsConcat(a, b[..n]);
    }
  }

  predicate AnyNetworked(services: Services) {
    exists s :: s in services && services[s].networkMode != "host"
  }

  /** The volumes of the composition that a service mounts. */
  function MountedVolumes(comp: Composition, mounts: seq<string>): set<Name> {
    if mounts == [] then {}
    else
      var v := ExtractVolumeName(mounts[|mounts| - 1]);
      MountedVolumes(comp, mounts[..|mounts| - 1]) + (if v != "" && v in comp.volumes then {v} else {})
  }

  /** The resources that one service depends on. */
  function Targets(comp: Composition, project: string, resolve: Resolver, svc: Service): set<Id> {
    {project}
    + (if svc.image != "" then {resolve(svc.image)} else {})
    + (set v | v in MountedVolumes(comp, svc.volumes) :: ScopedId(project, v))
    + (set d | d in svc.dependsOn :: ScopedId(project, d))
  }

  function ServicePairs(project: string, s: Name, targets: set<Id>): Relation {
    set t | t in targets :: (ScopedId(project, s), t)
  }

  /** All dependency pairs of a composition's resources. */
  function ResourcePairs(comp: Composition, project: string, resolve: Resolver): Relation {
    set s, t | s in comp.services && t in Targets(comp, project, resolve, comp.services[s]) :: (ScopedId(project, s), t)
  }

  // ---- The conversion ----

  method BuildServiceEdges(comp: Composition, project: string, resolve: Resolver, s: Name, svc: Service, network: bool)
    returns (edges: seq<Edge>)
    requires svc.networkMode != "host" ==> network
    ensures EdgePairs(edges) == ServicePairs(project, s, Targets(comp, project, resolve, svc))
    ensures EdgesOf(project, s, svc, edges)
    ensures forall d :: d in svc.dependsOn ==> DependencyEdge(project, s, svc, d) in edges
    ensures forall e :: e in edges <==> ServiceEdge(comp, project, resolve, s, svc, e)
  {
    var svcRef := Reference(ScopedId(project, s), KeyOf("Service"));
    var base := BuildBaseEdges(project, resolve, s, svcRef, svc, network);
    var mounts := BuildVolumeEdges(comp, project, s, svcRef, svc, svc.volumes);
    var deps := BuildDependsOnEdges(project, s, svcRef, svc);
    EdgePairsConcat(base, mounts);
    EdgePairsConcat(base + mounts, deps);
    TargetsUnion(comp, project, resolve, s, svc);
    EdgesOfConcat(project, s, svc, base, mounts);
    EdgesOfConcat(project, s, svc, base + mounts, deps);
    edges := base + mounts + deps;
    forall e ensures e in edges <==> ServiceEdge(comp, project, resolve, s, svc, e) {
      EdgeSpelledOut(comp, project, resolve, s, svc, e);
    }
  }

  /** The edges to project, image and network. */
  ghost predicate BaseEdge(project: string, resolve: Resolver, s: Name, svc: Service, e: Edge) {
    var svcRef := Reference(ScopedId(project, s), KeyOf("Service"));
    || e == Edge(svcRef, Reference(project, KeyOf("Project")), "")
    || (svc.image != "" && e == Edge(svcRef, Reference(resolve(svc.image), KeyOf("Image")), ""))
    || (svc.networkMode != "host" && e == Edge(svcRef, Reference(project, KeyOf("Network")), ""))
  }

  ghost predicate IsDependencyEdge(project: string, s: Name, svc: Service, e: Edge) {
    exists d :: d in svc.dependsOn && e == DependencyEdge(project, s, svc, d)
  }

  lemma {:induction false} EdgeSpelledOut(comp: Composition, project: string, resolve: Resolver, s: Name, svc: Service, e: Edge)
    ensures ServiceEdge(comp, project, resolve, s, svc, e) <==>
      || BaseEdge(project, resolve, s, svc, e)
      || e in VolumeEdges(comp, project, s, svc.volumes)
      || IsDependencyEdge(project, s, svc, e)
  {
    VolumeEdgesIff(comp, project, s, svc, e);
    KeysSpelledOut();
    DependencySpelledOut(project, s, svc, e);
  }

  lemma {:induction false} KeysSpelledOut()
    ensures KeyOf("Service") == "cri.orchestrator.io/v1/Service" && KeyOf("Project") == "cri.orchestrator.io/v1/Project"
    ensures KeyOf("Image") == "cri.orchestrator.io/v1/Image" && KeyOf("Network") == "cri.orchestrator.io/v1/Network"
    ensures KeyOf("Volume") == "cri.orchestrator.io/v1/Volume"
  { }

  lemma {:induction false} DependencySpelledOut(project: string, s: Name, svc: Service, e: Edge)
    ensures IsDependencyEdge(project, s, svc, e) <==>
      && e.from == Reference(project + "/" + s, "cri.orchestrator.io/v1/Service")
      && exists d :: d in svc.dependsOn && e.to == Reference(project + "/" + d, "cri.orchestrator.io/v1/Service")
           && ConditionCalled(svc.dependsOn[d], e.condition)
  {
    KeysSpelledOut();
    forall d | d in svc.dependsOn ensures ConditionCalled(svc.dependsOn[d], e.condition) <==> e.condition == MapCondition(svc.dependsOn[d]) {
      ConditionNames(svc.dependsOn[d]);
    }
  }

  /** A named volume of the composition is among the mounts: the part before the colon, if it is no path. */
  ghost predicate NamedMount(comp: Composition, mounts: seq<string>, v: Name) {
    && v != "" && v in comp.volumes && ':' !in v
    && !("/" <= v) && !("./" <= v) && !("~" <= v) && !(".." <= v)
    && exists m :: m in mounts && Names(m, v)
  }

  predicate Names(mount: string, v: Name) {
    ':' !in v && (mount == v || v + ":" <= mount)
  }

  /** The three conditions under the names a run knows them by; any other is dropped. */
  ghost predicate ConditionCalled(asked: string, name: Condition) {
    || (asked == "service_started" && name == "started")
    || (asked == "service_healthy" && name == "healthy")
    || (asked == "service_completed_successfully" && name == "completed")
    || (asked !in ["service_started", "service_healthy", "service_completed_successfully"] && name == "")
  }

  /** All edges of a service, spelled out. */
  ghost predicate ServiceEdge(comp: Composition, project: string, resolve: Resolver, s: Name, svc: Service, e: Edge) {
    && e.from == Reference(project + "/" + s, "cri.orchestrator.io/v1/Service")
    && (|| (e.to == Reference(project, "cri.orchestrator.io/v1/Project") && e.condition == "")
        || (svc.image != "" && e.to == Reference(resolve(svc.image), "cri.orchestrator.io/v1/Image") && e.condition == "")
        || (svc.networkMode != "host" && e.to == Reference(project, "cri.orchestrator.io/v1/Network") && e.condition == "")
        || (exists v :: NamedMount(comp, svc.volumes, v)
              && e.to == Reference(project + "/" + v, "cri.orchestrator.io/v1/Volume") && e.condition == "")
        || (exists d :: d in svc.dependsOn && e.to == Reference(project + "/" + d, "cri.orchestrator.io/v1/Service")
              && ConditionCalled(svc.dependsOn[d], e.condition)))
  }

  lemma {:induction false} BeforeColonIs(mount: string, v: string)
    ensures ':' !in mount[..FirstColon(mount)]
    ensures mount[..FirstColon(mount)] == v <==> Names(mount, v)
  {
    var k := FirstColon(mount);
    assert k < |mount| ==> mount[..k + 1] == mount[..k] + ":";
    assert k == |mount| ==> mount[..k] == mount;
    if ':' !in v && mount == v {
      FirstColonAfter(v, "");
      assert v + "" == v && mount[..|v|] == v;
    } else if ':' !in v && v + ":" <= mount {
      var tail := mount[|v|..];
      assert mount == v + tail && tail[0] == ':';
      FirstColonAfter(v, tail);
    }
  }

  lemma {:induction false} MountedVolumeIff(comp: Composition, mounts: seq<string>, v: Name)
    ensures v in MountedVolumes(comp, mounts) <==> NamedMount(comp, mounts, v)
  {
    if mounts != [] {
      var n := |mounts| - 1;
      MountedVolumeIff(comp, mounts[..n], v);
      BeforeColonIs(mounts[n], v);
      SomeMountNext(mounts, n, v);
    }
  }

  lemma {:induction false} SomeMountNext(mounts: seq<string>, n: nat, v: Name)
    requires |mounts| == n + 1
    ensures (exists m :: m in mounts && Names(m, v)) <==> (exists m :: m in mounts[..n] && Names(m, v)) || Names(mounts[n], v)
  {
    assert mounts == mounts[..n] + [mounts[n]];
    assert mounts[n] in mounts;
  }

  function VolumeEdges(comp: Composition, project: string, s: Name, mounts: seq<string>): seq<Edge> {
    if mounts == [] then []
    else
      var n := |mounts| - 1;
      var before, v := VolumeEdges(comp, project, s, mounts[..n]), ExtractVolumeName(mounts[n]);
      if v != "" && v in comp.volumes then before + [VolumeEdge(project, s, v)] else before
  }

  function VolumeEdge(project: string, s: Name, v: Name): Edge {
    Edge(Reference(ScopedId(project, s), KeyOf("Service")), Reference(ScopedId(project, v), KeyOf("Volume")), "")
  }

  lemma {:induction false} VolumeEdgesIff(comp: Composition, project: string, s: Name, svc: Service, e: Edge)
    ensures e in VolumeEdges(comp, project, s, svc.volumes) <==>
      exists v :: NamedMount(comp, svc.volumes, v) && e == VolumeEdge(project, s, v)
  {
    VolumeEdgesMounted(comp, project, s, svc.volumes, e);
    forall v ensures v in MountedVolumes(comp, svc.volumes) <==> NamedMount(comp, svc.volumes, v) {
      MountedVolumeIff(comp, svc.volumes, v);
    }
  }

  lemma {:induction false} VolumeEdgesMounted(comp: Composition, project: string, s: Name, mounts: seq<string>, e: Edge)
    ensures e in VolumeEdges(comp, project, s, mounts) <==> exists v :: v in MountedVolumes(comp, mounts) && e == VolumeEdge(project, s, v)
  {
    if mounts != [] {
      VolumeEdgesMounted(comp, project, s, mounts[..|mounts| - 1], e);
    }
  }

  lemma {:induction false} EdgesOfConcat(project: string, s: Name, svc: Service, a: seq<Edge>, b: seq<Edge>)
    requires EdgesOf(project, s, svc, a) && EdgesOf(project, s, svc, b)
    ensures EdgesOf(project, s, svc, a + b)
  { }

  lemma {:induction false} ServicePairsUnion(project: string, s: Name, a: set<Id>, b: set<Id>)
    ensures ServicePairs(project, s, a + b) == ServicePairs(project, s, a) + ServicePairs(project, s, b)
  { }

  lemma {:induction false} TargetsUnion(comp: Composition, project: string, resolve: Resolver, s: Name, svc: Service)
    ensures ServicePairs(project, s, Targets(comp, project, resolve, svc))
         == ServicePairs(project, s, {project} + (if svc.image != "" then {resolve(svc.image)} else {}))
          + ServicePairs(project, s, set v | v in MountedVolumes(comp, svc.volumes) :: ScopedId(project, v))
          + ServicePairs(project, s, set d | d in svc.dependsOn :: ScopedId(project, d))
  {
    var base := {project} + (if svc.image != "" then {resolve(svc.image)} else {});
    var mounts := set v | v in MountedVolumes(comp, svc.volumes) :: ScopedId(project, v);
    var deps := set d | d in svc.dependsOn :: ScopedId(project, d);
    ServicePairsUnion(project, s, base, mounts);
    ServicePairsUnion(project, s, base + mounts, deps);
  }

  /** An edge of the service; if it carries a condition, it is that of one of its depends_on entries. */
  ghost predicate EdgeOf(project: string, s: Name, svc: Service, e: Edge) {
    && e.from.id == ScopedId(project, s)
    && (e.condition == "" || exists d :: d in svc.dependsOn && e == DependencyEdge(project, s, svc, d))
  }

  function DependencyEdge(project: string, s: Name, svc: Service, d: Name): Edge
    requires d in svc.dependsOn
  {
    Edge(Reference(ScopedId(project, s), KeyOf("Service")), Reference(ScopedId(project, d), KeyOf("Service")),
         MapCondition(svc.dependsOn[d]))
  }

  ghost predicate EdgesOf(project: string, s: Name, svc: Service, edges: seq<Edge>) {
    forall e :: e in edges ==> EdgeOf(project, s, svc, e)
  }

  /** The project, the image if there is one, and the network unless the service uses the host's. */
  method BuildBaseEdges(project: string, resolve: Resolver, s: Name, svcRef: Reference, svc: Service, network: bool)
    returns (edges: seq<Edge>)
    requires svcRef == Reference(ScopedId(project, s), KeyOf("Service"))
    ensures EdgePairs(edges) == ServicePairs(project, s, {project} + (if svc.image != "" then {resolve(svc.image)} else {}))
    ensures EdgesOf(project, s, svc, edges)
    requires svc.networkMode != "host" ==> network
    ensures forall e :: e in edges <==> BaseEdge(project, resolve, s, svc, e)
  {
    edges := [];
    ghost var seen: set<Id> := {};
    EdgeNext(edges, Edge(svcRef, Reference(project, KeyOf("Project")), ""), project, s, seen);
    edges := edges + [Edge(svcRef, Reference(project, KeyOf("Project")), "")];
    seen := seen + {project};
    if svc.image != "" {
      var e := Edge(svcRef, Reference(resolve(svc.image), KeyOf("Image")), "");
      EdgeNext(edges, e, project, s, seen);
      edges := edges + [e];
      seen := seen + {resolve(svc.image)};
    }
    if network && svc.networkMode != "host" {
      var e := Edge(svcRef, Reference(project, KeyOf("Network")), "");
      EdgeNext(edges, e, project, s, seen);
      edges := edges + [e];
      assert seen + {project} == seen;
    }
  }

  method BuildVolumeEdges(comp: Composition, project: string, s: Name, svcRef: Reference, ghost svc: Service, mounts: seq<string>)
    returns (edges: seq<Edge>)
    requires svcRef == Reference(ScopedId(project, s), KeyOf("Service"))
    ensures EdgePairs(edges) == ServicePairs(project, s, set v | v in MountedVolumes(comp, mounts) :: ScopedId(project, v))
    ensures EdgesOf(project, s, svc, edges) && edges == VolumeEdges(comp, project, s, mounts)
  {
    edges := [];
    for i := 0 to |mounts|
      invariant edges == VolumeEdges(comp, project, s, mounts[..i])
    {
      assert mounts[..i + 1][..i] == mounts[..i];
      var v := ExtractVolumeName(mounts[i]);
      if v != "" && v in comp.volumes {
        edges := edges + [Edge(svcRef, Reference(ScopedId(project, v), KeyOf("Volume")), "")];
      }
    }
    assert mounts[..|mounts|] == mounts;
    VolumePairs(comp, project, s, svc, mounts);
  }

  lemma {:induction false} VolumePairs(comp: Composition, project: string, s: Name, svc: Service, mounts: seq<string>)
    ensures var edges := VolumeEdges(comp, project, s, mounts);
      && EdgePairs(edges) == ServicePairs(project, s, set v | v in MountedVolumes(comp, mounts) :: ScopedId(project, v))
      && EdgesOf(project, s, svc, edges)
  {
    if mounts != [] {
      var n := |mounts| - 1;
      var before, v := VolumeEdges(comp, project, s, mounts[..n]), ExtractVolumeName(mounts[n]);
      VolumePairs(comp, project, s, svc, mounts[..n]);
      var mounted := MountedVolumes(comp, mounts[..n]);
      EdgeNext(before, VolumeEdge(project, s, v), project, s, set x | x in mounted :: ScopedId(project, x));
      assert (set x | x in mounted + {v} :: ScopedId(project, x)) == (set x | x in mounted :: ScopedId(project, x)) + {ScopedId(project, v)};
    }
  }

  lemma {:induction false} EdgeNext(edges: seq<Edge>, e: Edge, project: string, s: Name, seen: set<Id>)
    requires EdgePairs(edges) == ServicePairs(project, s, seen) && e.from.id == ScopedId(project, s)
    ensures EdgePairs(edges + [e]) == ServicePairs(project, s, seen + {e.to.id})
  {
    assert (edges + [e])[..|edges|] == edges;
  }

  method BuildDependsOnEdges(project: string, s: Name, svcRef: Reference, svc: Service) returns (edges: seq<Edge>)
    requires svcRef == Reference(ScopedId(project, s), KeyOf("Service"))
    ensures EdgePairs(edges) == ServicePairs(project, s, set d | d in svc.dependsOn :: ScopedId(project, d))
    ensures EdgesOf(project, s, svc, edges)
    ensures forall d :: d in svc.dependsOn ==> DependencyEdge(project, s, svc, d) in edges
    ensures forall e :: e in edges ==> IsDependencyEdge(project, s, svc, e)
  {
    var names := SortedKeys(svc.dependsOn);
    edges := [];
    for i := 0 to |names|
      invariant DependenciesDone(project, s, svc, names[..i], edges)
    {
      var d := names[i];
      assert d in names && names[..i + 1] == names[..i] + [d];
      DependencyNext(project, s, svc, names[..i], edges, d);
      edges := edges + [Edge(svcRef, Reference(ScopedId(project, d), KeyOf("Service")), MapCondition(svc.dependsOn[d]))];
    }
    assert names[..|names|] == names;
    AllDependenciesDone(project, s, svc, names, edges);
  }

  function ScopedNames(project: string, names: seq<Name>): set<Id> {
    set d | d in names :: ScopedId(project, d)
  }

  /** The edges of the dependencies named so far. */
  ghost predicate DependenciesDone(project: string, s: Name, svc: Service, names: seq<Name>, edges: seq<Edge>) {
    && EdgesOf(project, s, svc, edges)
    && (forall d :: d in names ==> d in svc.dependsOn && DependencyEdge(project, s, svc, d) in edges)
    && (forall e :: e in edges ==> IsDependencyEdge(project, s, svc, e))
    && EdgePairs(edges) == ServicePairs(project, s, ScopedNames(project, names))
  }

  lemma {:induction false} DependencyNext(
    project: string, s: Name, svc: Service, names: seq<Name>, edges: seq<Edge>, d: Name)
    requires DependenciesDone(project, s, svc, names, edges) && d in svc.dependsOn
    ensures DependenciesDone(project, s, svc, names + [d], edges + [DependencyEdge(project, s, svc, d)])
  {
    var e := DependencyEdge(project, s, svc, d);
    assert EdgeOf(project, s, svc, e);
    EdgesOfConcat(project, s, svc, edges, [e]);
    EdgeNext(edges, e, project, s, ScopedNames(project, names));
    assert ScopedNames(project, names + [d]) == ScopedNames(project, names) + {ScopedId(project, d)};
  }

  lemma {:induction false} AllDependenciesDone(
    project: string, s: Name, svc: Service, names: seq<Name>, edges: seq<Edge>)
    requires DependenciesDone(project, s, svc, names, edges) && forall d :: d in names <==> d in svc.dependsOn
    ensures EdgePairs(edges) == ServicePairs(project, s, set d | d in svc.dependsOn :: ScopedId(project, d))
    ensures EdgesOf(project, s, svc, edges)
    ensures forall d :: d in svc.dependsOn ==> DependencyEdge(project, s, svc, d) in edges
    ensures forall e :: e in edges ==> IsDependencyEdge(project, s, svc, e)
  {
    assert ScopedNames(project, names) == set d | d in svc.dependsOn :: ScopedId(project, d);
  }

  method Convert(comp: Composition, project: string, resolve: Resolver) returns (r: Result)
    ensures r.ProjectRequired? <==> project == ""
    ensures r.Converted? ==>
      && EdgePairs(r.edges) == ResourcePairs(comp, project, resolve)
      && ManifestNames(r.manifests) == ResourceIds(comp, project, resolve)
      && (forall e :: e in r.edges ==> e.from.id in ManifestNames(r.manifests))
      && EdgesDescribe(comp.services, project, r.edges)
      && StartsWithProject(comp, project, r.manifests)
      && (forall m :: m in r.manifests <==> IsManifest(comp, project, resolve, m))
      && r.manifests == ManifestList(comp, project, resolve)
      && EdgesListed(comp, project, resolve, comp.services.Keys, r.edges)
  {
    if project == "" {
      return ProjectRequired;
    }
    var manifests, edges := ConvertAll(comp, project, resolve);
    ManifestsListed(comp, project, resolve);
    r := Converted(manifests, edges);
  }

  /** The manifests in order, and the edges between them. */
  method ConvertAll(comp: Composition, project: string, resolve: Resolver) returns (manifests: seq<Manifest>, edges: seq<Edge>)
    ensures manifests == ManifestList(comp, project, resolve)
    ensures EdgesListed(comp, project, resolve, comp.services.Keys, edges)
    ensures EdgePairs(edges) == ResourcePairs(comp, project, resolve) && EdgesDescribe(comp.services, project, edges)
    ensures forall e :: e in edges ==> e.from.id in ServiceIds(comp.services, project)
  {
    var start, network := StartManifests(comp.services, project);
    var names := SortedKeys(comp.services);
    InOrderUnique(names, comp.services.Keys);
    var images := ConvertImages(comp.services, names, resolve);
    var volumes := ConvertVolumes(comp, project);
    var services;
    services, edges := ConvertServices(comp, project, resolve, names, network);
    manifests := start + images + volumes + services;
  }

  method StartManifests(services: Services, project: string) returns (manifests: seq<Manifest>, network: bool)
    ensures (network <==> AnyNetworked(services)) && manifests == StartList(project, network)
  {
    manifests := [Manifest("Project", project)];
    network := NeedsNetwork(services);
    if network {
      manifests := manifests + [Manifest("Network", project)];
    }
  }

  function StartList(project: string, network: bool): seq<Manifest> {
    [Manifest("Project", project)] + (if network then [Manifest("Network", project)] else [])
  }

  /** One manifest per name, in order. */
  function Each(kind: Kind, names: seq<string>, id: string -> Id): (ms: seq<Manifest>)
    ensures |ms| == |names| && forall i :: 0 <= i < |names| ==> ms[i] == Manifest(kind, id(names[i]))
  {
    seq(|names|, i requires 0 <= i < |names| => Manifest(kind, id(names[i])))
  }

  lemma {:induction false} EachNext(kind: Kind, names: seq<string>, id: string -> Id, i: nat)
    requires i < |names|
    ensures Each(kind, names[..i + 1], id) == Each(kind, names[..i], id) + [Manifest(kind, id(names[i]))]
  { }

  function Scoped(project: string): string -> Id {
    name => ScopedId(project, name)
  }

  function DeclaredImages(services: Services): set<string> {
    set s | s in services && services[s].image != "" :: services[s].image
  }

  /** All of them in order: the project, its network, then images, volumes and services by name. */
  ghost function ManifestList(comp: Composition, project: string, resolve: Resolver): seq<Manifest> {
    StartList(project, AnyNetworked(comp.services))
    + Each("Image", InOrder(DeclaredImages(comp.services)), resolve)
    + Each("Volume", InOrder(comp.volumes), Scoped(project))
    + Each("Service", InOrder(comp.services.Keys), Scoped(project))
  }

  lemma {:induction false} EachNames(kind: Kind, names: seq<string>, id: string -> Id)
    ensures ManifestNames(Each(kind, names, id)) == set n | n in names :: id(n)
  {
    if names != [] {
      var n := |names| - 1;
      EachNext(kind, names, id, n);
      assert names[..n + 1] == names && names == names[..n] + [names[n]];
      EachNames(kind, names[..n], id);
      NamesConcat(Each(kind, names[..n], id), [Manifest(kind, id(names[n]))]);
      OneName(Manifest(kind, id(names[n])));
    }
  }

  lemma {:induction false} OneName(m: Manifest)
    ensures ManifestNames([m]) == {m.name}
  {
    assert [m][..0] == [];
  }

  lemma {:induction false} EachMember(kind: Kind, names: seq<string>, id: string -> Id, m: Manifest)
    ensures m in Each(kind, names, id) <==> m.kind == kind && exists n :: n in names && m.name == id(n)
  {
    var ms := Each(kind, names, id);
    if m in ms {
      var i :| 0 <= i < |ms| && ms[i] == m;
      assert names[i] in names;
    }
    if n :| n in names && m == Manifest(kind, id(n)) {
      var i :| 0 <= i < |names| && names[i] == n;
      assert ms[i] == m;
    }
  }

  /** What is in the list, and the names in it. */
  lemma {:induction false} ManifestsListed(comp: Composition, project: string, resolve: Resolver)
    ensures var ms := ManifestList(comp, project, resolve);
      && ManifestNames(ms) == ResourceIds(comp, project, resolve) && StartsWithProject(comp, project, ms)
      && forall m :: m in ms <==> IsManifest(comp, project, resolve, m)
  {
    var network := AnyNetworked(comp.services);
    var start := StartList(project, network);
    var images, volumes, services := InOrder(DeclaredImages(comp.services)), InOrder(comp.volumes), InOrder(comp.services.Keys);
    var ims, vs, ss := Each("Image", images, resolve), Each("Volume", volumes, Scoped(project)), Each("Service", services, Scoped(project));
    InOrderElements(DeclaredImages(comp.services));
    InOrderElements(comp.volumes);
    InOrderElements(comp.services.Keys);
    StartNames(project, network, start);
    ListedNames(comp, project, resolve, start, images, volumes, services);
    forall m ensures m in start + ims + vs + ss <==> IsManifest(comp, project, resolve, m) {
      InFour(start, ims, vs, ss, m);
      EachMember("Image", images, resolve, m);
      EachMember("Volume", volumes, Scoped(project), m);
      EachMember("Service", services, Scoped(project), m);
      Spelled(comp, project, resolve, images, volumes, services, m);
    }
  }

  lemma {:induction false} InFour<T>(a: seq<T>, b: seq<T>, c: seq<T>, d: seq<T>, m: T)
    ensures m in a + b + c + d <==> m in a || m in b || m in c || m in d
  { }

  lemma {:induction false} Spelled(comp: Composition, project: string, resolve: Resolver, images: seq<string>, volumes: seq<Name>,
                                   services: seq<Name>, m: Manifest)
    requires forall x :: x in images <==> x in DeclaredImages(comp.services)
    requires (forall x :: x in volumes <==> x in comp.volumes) && forall x :: x in services <==> x in comp.services
    ensures IsManifest(comp, project, resolve, m) <==>
      || m in StartList(project, AnyNetworked(comp.services))
      || (m.kind == "Image" && exists n :: n in images && m.name == resolve(n))
      || (m.kind == "Volume" && exists n :: n in volumes && m.name == Scoped(project)(n))
      || (m.kind == "Service" && exists n :: n in services && m.name == Scoped(project)(n))
  {
    ImageDeclared(comp.services, resolve, m.name);
  }

  lemma {:induction false} ImageDeclared(services: Services, resolve: Resolver, id: Id)
    ensures (exists img :: img in DeclaredImages(services) && id == resolve(img)) <==>
      exists s :: s in services && services[s].image != "" && id == resolve(services[s].image)
  {
    if img :| img in DeclaredImages(services) && id == resolve(img) {
      var s :| s in services && services[s].image != "" && services[s].image == img;
    }
    if s :| s in services && services[s].image != "" && id == resolve(services[s].image) {
      assert services[s].image in DeclaredImages(services);
    }
  }

  lemma {:induction false} FourNames(a: seq<Manifest>, b: seq<Manifest>, c: seq<Manifest>, d: seq<Manifest>)
    ensures ManifestNames(a + b + c + d) == ManifestNames(a) + ManifestNames(b) + ManifestNames(c) + ManifestNames(d)
  {
    NamesConcat(a, b);
    NamesConcat(a + b, c);
    NamesConcat(a + b + c, d);
  }

  lemma {:induction false} ListedNames(comp: Composition, project: string, resolve: Resolver, start: seq<Manifest>,
                                       images: seq<string>, volumes: seq<Name>, services: seq<Name>)
    requires ManifestNames(start) == {project}
    requires forall x :: x in images <==> x in DeclaredImages(comp.services)
    requires (forall x :: x in volumes <==> x in comp.volumes) && forall x :: x in services <==> x in comp.services
    ensures ManifestNames(start + Each("Image", images, resolve) + Each("Volume", volumes, Scoped(project))
                          + Each("Service", services, Scoped(project))) == ResourceIds(comp, project, resolve)
  {
    var ims, vs, ss := Each("Image", images, resolve), Each("Volume", volumes, Scoped(project)), Each("Service", services, Scoped(project));
    FourNames(start, ims, vs, ss);
    EachNames("Image", images, resolve);
    EachNames("Volume", volumes, Scoped(project));
    EachNames("Service", services, Scoped(project));
    assert (set n | n in images :: resolve(n)) == ImageIds(comp.services, resolve);
    assert (set n | n in volumes :: Scoped(project)(n)) == VolumeIds(comp, project);
    assert (set n | n in services :: Scoped(project)(n)) == ServiceIds(comp.services, project);
  }

  /** No two are alike, unless two images that services declare resolve to one. */
  lemma {:induction false} ManifestsOnce(comp: Composition, project: string, resolve: Resolver)
    requires forall a, b :: a in DeclaredImages(comp.services) && b in DeclaredImages(comp.services) && resolve(a) == resolve(b) ==> a == b
    ensures NoDuplicates(ManifestList(comp, project, resolve))
  {
    var start := StartList(project, AnyNetworked(comp.services));
    var images, volumes, services := InOrder(DeclaredImages(comp.services)), InOrder(comp.volumes), InOrder(comp.services.Keys);
    InOrderElements(DeclaredImages(comp.services));
    InOrderElements(comp.volumes);
    InOrderElements(comp.services.Keys);
    EachOnce("Image", images, resolve);
    forall a, b | Scoped(project)(a) == Scoped(project)(b) ensures a == b { ScopedIdInjective(project, a, b); }
    EachOnce("Volume", volumes, Scoped(project));
    EachOnce("Service", services, Scoped(project));
    var ims, vs, ss := Each("Image", images, resolve), Each("Volume", volumes, Scoped(project)), Each("Service", services, Scoped(project));
    OnceInAll(start, ims, vs, ss);
  }

  lemma {:induction false} OnceInAll(start: seq<Manifest>, ims: seq<Manifest>, vs: seq<Manifest>, ss: seq<Manifest>)
    requires NoDuplicates(start) && forall m :: m in start ==> m.kind == "Project" || m.kind == "Network"
    requires NoDuplicates(ims) && forall m :: m in ims ==> m.kind == "Image"
    requires NoDuplicates(vs) && forall m :: m in vs ==> m.kind == "Volume"
    requires NoDuplicates(ss) && forall m :: m in ss ==> m.kind == "Service"
    ensures NoDuplicates(start + ims + vs + ss)
  {
    OnceConcat(start, ims);
    OnceConcat(start + ims, vs);
    OnceConcat(start + ims + vs, ss);
  }

  lemma {:induction false} EachOnce(kind: Kind, names: seq<string>, id: string -> Id)
    requires NoDuplicates(names) && forall a, b :: a in names && b in names && id(a) == id(b) ==> a == b
    ensures NoDuplicates(Each(kind, names, id)) && forall m :: m in Each(kind, names, id) ==> m.kind == kind
  {
    var ms := Each(kind, names, id);
    forall i, j | 0 <= i < j < |ms| ensures ms[i] != ms[j] {
      assert names[i] in names && names[j] in names;
    }
  }

  lemma {:induction false} OnceConcat(a: seq<Manifest>, b: seq<Manifest>)
    requires NoDuplicates(a) && NoDuplicates(b) && forall x, y :: x in a && y in b ==> x.kind != y.kind
    ensures NoDuplicates(a + b)
  {
    var s := a + b;
    forall i, j | 0 <= i < j < |s| ensures s[i] != s[j] {
      if i < |a| <= j {
        assert s[i] in a && s[j] in b;
      }
    }
  }

  /** All manifests of a composition, spelled out. */
  ghost predicate IsManifest(comp: Composition, project: string, resolve: Resolver, m: Manifest) {
    || m == Manifest("Project", project)
    || (m == Manifest("Network", project) && exists s :: s in comp.services && comp.services[s].networkMode != "host")
    || (m.kind == "Image" && exists s :: s in comp.services && comp.services[s].image != "" && m.name == resolve(comp.services[s].image))
    || (m.kind == "Volume" && exists v :: v in comp.volumes && m.name == project + "/" + v)
    || (m.kind == "Service" && exists s :: s in comp.services && m.name == project + "/" + s)
  }

  /** The edges are exactly those of the named services. */
  ghost predicate EdgesListed(comp: Composition, project: string, resolve: Resolver, names: set<Name>, edges: seq<Edge>) {
    forall e :: e in edges <==> exists s :: s in names && s in comp.services && ServiceEdge(comp, project, resolve, s, comp.services[s], e)
  }

  lemma {:induction false} ListedNext(comp: Composition, project: string, resolve: Resolver, names: set<Name>, edges: seq<Edge>,
                                      s: Name, more: seq<Edge>)
    requires EdgesListed(comp, project, resolve, names, edges) && s in comp.services
    requires forall e :: e in more <==> ServiceEdge(comp, project, resolve, s, comp.services[s], e)
    ensures EdgesListed(comp, project, resolve, names + {s}, edges + more)
  {
    forall e ensures e in edges + more <==>
      exists t :: t in names + {s} && t in comp.services && ServiceEdge(comp, project, resolve, t, comp.services[t], e)
    {
      assert e in edges + more <==> e in edges || e in more;
      if e in edges {
        var t :| t in names && t in comp.services && ServiceEdge(comp, project, resolve, t, comp.services[t], e);
        assert t in names + {s};
      }
      if e in more { assert s in names + {s}; }
    }
  }

  /** The names of the manifests. */
  function ManifestNames(ms: seq<Manifest>): set<Id> {
    if ms == [] then {} else ManifestNames(ms[..|ms| - 1]) + {ms[|ms| - 1].name}
  }

  lemma {:induction false} NamesConcat(a: seq<Manifest>, b: seq<Manifest>)
    ensures ManifestNames(a + b) == ManifestNames(a) + ManifestNames(b)
  {
    if b == [] {
      assert a + b == a;
    } else {
      var n := |b| - 1;
      assert (a + b)[..|a| + n] == a + b[..n];
      NamesConcat(a, b[..n]);
    }
  }

  function ImageIds(services: Services, resolve: Resolver): set<Id> {
    set s | s in services && services[s].image != "" :: resolve(services[s].image)
  }

  function VolumeIds(comp: Composition, project: string): set<Id> {
    set v | v in comp.volumes :: ScopedId(project, v)
  }

  function ServiceIds(services: Services, project: string): set<Id> {
    set s | s in services :: ScopedId(project, s)
  }

  function ResourceIds(comp: Composition, project: string, resolve: Resolver): set<Id> {
    {project} + ImageIds(comp.services, resolve) + VolumeIds(comp, project) + ServiceIds(comp.services, project)
  }

  /** The project manifest comes first; with any networked service the network follows, under the same id. */
  predicate StartsWithProject(comp: Composition, project: string, ms: seq<Manifest>) {
    && |ms| >= 1 && ms[0] == Manifest("Project", project)
    && (AnyNetworked(comp.services) ==> |ms| >= 2 && ms[1] == Manifest("Network", project))
  }

  lemma {:induction false} StartNames(project: string, network: bool, ms: seq<Manifest>)
    requires ms == if network then [Manifest("Project", project), Manifest("Network", project)] else [Manifest("Project", project)]
    ensures ManifestNames(ms) == {project}
  {
    var first := [Manifest("Project", project)];
    assert first[..0] == [] && ManifestNames(first[..0]) == {};
    assert ManifestNames(first) == {project};
    if network {
      assert ms[..1] == first;
    }
  }

  method NeedsNetwork(services: Services) returns (network: bool)
    ensures network <==> AnyNetworked(services)
  {
    var rest := services.Keys;
    while rest != {}
      invariant rest <= services.Keys
      invariant forall s :: s in services && s !in rest ==> services[s].networkMode == "host"
      decreases |rest|
    {
      var s :| s in rest;
      rest := rest - {s};
      if services[s].networkMode != "host" {
        return true;
      }
    }
    return false;
  }

  method ConvertImages(services: Services, names: seq<Name>, resolve: Resolver) returns (ms: seq<Manifest>)
    requires forall s :: s in names <==> s in services
    ensures ms == Each("Image", InOrder(DeclaredImages(services)), resolve)
  {
    var imageSet: map<string, bool> := map[];
    for i := 0 to |names|
      invariant forall img :: img in imageSet <==> exists k :: 0 <= k < i && services[names[k]].image == img && img != ""
    {
      assert names[i] in names;
      var img := services[names[i]].image;
      if img != "" {
        imageSet := imageSet[img := true];
      }
    }
    var images := SortedKeys(imageSet);
    ms := [];
    for i := 0 to |images|
      invariant ms == Each("Image", images[..i], resolve)
    {
      EachNext("Image", images, resolve, i);
      ms := ms + [Manifest("Image", resolve(images[i]))];
    }
    assert images[..|images|] == images;
    ImagesFound(services, names, images);
    InOrderUnique(images, DeclaredImages(services));
  }

  lemma {:induction false} ImagesFound(services: Services, names: seq<Name>, images: seq<string>)
    requires forall s :: s in names <==> s in services
    requires forall k :: 0 <= k < |names| ==> names[k] in services
    requires forall img :: img in images <==> exists k :: 0 <= k < |names| && services[names[k]].image == img && img != ""
    ensures forall img :: img in images <==> img in DeclaredImages(services)
  {
    forall s | s in services && services[s].image != "" ensures services[s].image in images {
      var k :| 0 <= k < |names| && names[k] == s;
    }
  }

  method ConvertVolumes(comp: Composition, project: string) returns (ms: seq<Manifest>)
    ensures ms == Each("Volume", InOrder(comp.volumes), Scoped(project))
  {
    var declared := map v | v in comp.volumes :: true;
    var volumes := SortedKeys(declared);
    ms := [];
    for i := 0 to |volumes|
      invariant ms == Each("Volume", volumes[..i], Scoped(project))
    {
      EachNext("Volume", volumes, Scoped(project), i);
      ms := ms + [Manifest("Volume", ScopedId(project, volumes[i]))];
    }
    assert volumes[..|volumes|] == volumes;
    assert forall v :: v in volumes <==> v in comp.volumes;
    InOrderUnique(volumes, comp.volumes);
  }

  /** Every edge belongs to a service, and every depends_on entry has its edge. */
  ghost predicate EdgesDescribe(services: Services, project: string, edges: seq<Edge>) {
    && (forall e :: e in edges ==> exists s :: s in services && EdgeOf(project, s, services[s], e))
    && (forall s, d :: s in services && d in services[s].dependsOn ==> DependencyEdge(project, s, services[s], d) in edges)
  }

  ghost predicate EdgesDescribeNamed(services: Services, project: string, names: seq<Name>, edges: seq<Edge>) {
    && (forall e :: e in edges ==> exists s :: s in services && EdgeOf(project, s, services[s], e))
    && (forall s, d :: s in names && s in services && d in services[s].dependsOn ==>
          DependencyEdge(project, s, services[s], d) in edges)
  }

  lemma {:induction false} DescribedNext(services: Services, project: string, names: seq<Name>, i: nat,
                                         edges: seq<Edge>, more: seq<Edge>)
    requires i < |names| && names[i] in services && EdgesDescribeNamed(services, project, names[..i], edges)
    requires EdgesOf(project, names[i], services[names[i]], more)
    requires forall d :: d in services[names[i]].dependsOn ==> DependencyEdge(project, names[i], services[names[i]], d) in more
    ensures EdgesDescribeNamed(services, project, names[..i + 1], edges + more)
  {
    assert names[..i + 1] == names[..i] + [names[i]];
  }

  /** The pairs contributed by the services named so far. */
  function PairsOf(comp: Composition, project: string, resolve: Resolver, names: seq<Name>): Relation
    requires forall s :: s in names ==> s in comp.services
  {
    set s, t | s in names && t in Targets(comp, project, resolve, comp.services[s]) :: (ScopedId(project, s), t)
  }

  method ConvertServices(comp: Composition, project: string, resolve: Resolver, names: seq<Name>, network: bool)
    returns (ms: seq<Manifest>, edges: seq<Edge>)
    requires (forall s :: s in names <==> s in comp.services) && (network <==> AnyNetworked(comp.services))
    ensures ms == Each("Service", names, Scoped(project))
    ensures EdgesListed(comp, project, resolve, comp.services.Keys, edges)
    ensures EdgePairs(edges) == ResourcePairs(comp, project, resolve)
    ensures EdgesDescribe(comp.services, project, edges)
  {
    ms, edges := [], [];
    NoServiceDone(comp, project, resolve, names);
    for i := 0 to |names|
      invariant ServicesDone(comp, project, resolve, names, i, ms, edges)
    {
      var s := names[i];
      assert s in names;
      var more := BuildServiceEdges(comp, project, resolve, s, comp.services[s], network);
      OneServiceMore(comp, project, resolve, names, i, ms, edges, more);
      ms := ms + [Manifest("Service", ScopedId(project, s))];
      edges := edges + more;
    }
    AllServicesDone(comp, project, resolve, names, ms, edges);
  }

  /** The manifests and edges of the first so many services. */
  ghost predicate ServicesDone(comp: Composition, project: string, resolve: Resolver, names: seq<Name>, i: nat,
                               ms: seq<Manifest>, edges: seq<Edge>)
  {
    && i <= |names| && (forall s :: s in names[..i] ==> s in comp.services)
    && EdgePairs(edges) == PairsOf(comp, project, resolve, names[..i])
    && EdgesDescribeNamed(comp.services, project, names[..i], edges)
    && EdgesListed(comp, project, resolve, ToSet(names[..i]), edges)
    && ms == Each("Service", names[..i], Scoped(project))
  }

  lemma {:induction false} NoServiceDone(comp: Composition, project: string, resolve: Resolver, names: seq<Name>)
    ensures ServicesDone(comp, project, resolve, names, 0, [], [])
  {
    assert PairsOf(comp, project, resolve, names[..0]) == {};
  }

  lemma {:induction false} OneServiceMore(comp: Composition, project: string, resolve: Resolver, names: seq<Name>, i: nat,
                                          ms: seq<Manifest>, edges: seq<Edge>, more: seq<Edge>)
    requires ServicesDone(comp, project, resolve, names, i, ms, edges) && i < |names| && names[i] in comp.services
    requires var s, svc := names[i], comp.services[names[i]];
      && EdgePairs(more) == ServicePairs(project, s, Targets(comp, project, resolve, svc))
      && EdgesOf(project, s, svc, more)
      && (forall d :: d in svc.dependsOn ==> DependencyEdge(project, s, svc, d) in more)
      && forall e :: e in more <==> ServiceEdge(comp, project, resolve, s, svc, e)
    ensures ServicesDone(comp, project, resolve, names, i + 1, ms + [Manifest("Service", ScopedId(project, names[i]))], edges + more)
  {
    EachNext("Service", names, Scoped(project), i);
    ServiceNext(comp, project, resolve, names, i, edges, more);
    DescribedNext(comp.services, project, names, i, edges, more);
    ListedNext(comp, project, resolve, ToSet(names[..i]), edges, names[i], more);
    assert names[..i + 1] == names[..i] + [names[i]];
    ToSetSnoc(names[..i], names[i]);
  }

  lemma {:induction false} AllServicesDone(comp: Composition, project: string, resolve: Resolver, names: seq<Name>,
                                           ms: seq<Manifest>, edges: seq<Edge>)
    requires ServicesDone(comp, project, resolve, names, |names|, ms, edges) && forall s :: s in names <==> s in comp.services
    ensures ms == Each("Service", names, Scoped(project)) && EdgesListed(comp, project, resolve, comp.services.Keys, edges)
    ensures EdgePairs(edges) == ResourcePairs(comp, project, resolve) && EdgesDescribe(comp.services, project, edges)
  {
    assert names[..|names|] == names;
    assert ToSet(names) == comp.services.Keys;
  }

  lemma {:induction false} ServiceNext(comp: Composition, project: string, resolve: Resolver, names: seq<Name>, i: nat,
                                       edges: seq<Edge>, more: seq<Edge>)
    requires i < |names| && names[i] in comp.services && forall s :: s in names[..i] ==> s in comp.services
    requires EdgePairs(edges) == PairsOf(comp, project, resolve, names[..i])
    requires EdgePairs(more) == ServicePairs(project, names[i], Targets(comp, project, resolve, comp.services[names[i]]))
    ensures forall s :: s in names[..i + 1] ==> s in comp.services
    ensures EdgePairs(edges + more) == PairsOf(comp, project, resolve, names[..i + 1])
  {
    var s := names[i];
    assert names[..i + 1] == names[..i] + [s];
    EdgePairsConcat(edges, more);
    PairsOfNext(comp, project, resolve, names[..i], s);
  }

  lemma {:induction false} PairsOfNext(
    comp: Composition, project: string, resolve: Resolver, names: seq<Name>, s: Name)
    requires s in comp.services && forall x :: x in names ==> x in comp.services
    ensures PairsOf(comp, project, resolve, names + [s])
         == PairsOf(comp, project, resolve, names)
          + ServicePairs(project, s, Targets(comp, project, resolve, comp.services[s]))
  {
    var wide := PairsOf(comp, project, resolve, names + [s]);
    var narrow := PairsOf(comp, project, resolve, names);
    var own := ServicePairs(project, s, Targets(comp, project, resolve, comp.services[s]));
    forall e ensures e in wide <==> e in narrow + own {
      if e in wide {
        var x, t :| x in names + [s] && t in Targets(comp, project, resolve, comp.services[x]) && e == (ScopedId(project, x), t);
        assert x in names || x == s;
      }
    }
  }

  // ---- The bridge to a deployment ----

  function IndexAt(index: map<Id, seq<Reference>>, id: Id): seq<Reference> {
    if id in index then index[id] else []
  }

  /** The condition each edge with one imposes on its target, later edges replacing earlier ones. */
  function ConditionsOf(edges: seq<Edge>): ConditionMap {
    if edges == [] then map[]
    else
      var before, e := ConditionsOf(edges[..|edges| - 1]), edges[|edges| - 1];
      if e.condition == "" then before
      else before[e.to.id := (if e.to.id in before then before[e.to.id] else map[])[e.from.id := e.condition]]
  }

  method IndexEdges(edges: seq<Edge>) returns (index: map<Id, seq<Reference>>)
    ensures forall a, b :: b in RefIds(IndexAt(index, a)) <==> (a, b) in EdgePairs(edges)
  {
    index := map[];
    for i := 0 to |edges|
      invariant forall a, b :: b in RefIds(IndexAt(index, a)) <==> (a, b) in EdgePairs(edges[..i])
    {
      assert edges[..i + 1][..i] == edges[..i];
      var from := edges[i].from.id;
      RefIdsSnoc(IndexAt(index, from), edges[i].to);
      index := index[from := IndexAt(index, from) + [edges[i].to]];
    }
    assert edges[..|edges|] == edges;
  }

  method CollectConditions(edges: seq<Edge>) returns (conditions: ConditionMap)
    ensures conditions == ConditionsOf(edges)
  {
    conditions := map[];
    for i := 0 to |edges|
      invariant conditions == ConditionsOf(edges[..i])
    {
      assert edges[..i + 1][..i] == edges[..i];
      var e := edges[i];
      if e.condition != "" {
        if e.to.id !in conditions {
          conditions := conditions[e.to.id := map[]];
        }
        conditions := conditions[e.to.id := conditions[e.to.id][e.from.id := e.condition]];
      }
    }
    assert edges[..|edges|] == edges;
  }

  lemma {:induction false} ConditionFromEdge(edges: seq<Edge>, a: Id, b: Id, c: Condition)
    requires c != "" && exists e :: e in edges && e.from.id == a && e.to.id == b && e.condition != ""
    requires forall e :: e in edges && e.from.id == a && e.to.id == b && e.condition != "" ==> e.condition == c
    ensures b in ConditionsOf(edges) && a in ConditionsOf(edges)[b] && ConditionsOf(edges)[b][a] == c
  {
    var n := |edges| - 1;
    var init, last := edges[..n], edges[n];
    assert edges == init + [last];
    if last.from.id == a && last.to.id == b && last.condition != "" {
    } else {
      ConditionFromEdge(init, a, b, c);
    }
  }

  /** Of several edges between two resources that carry a condition, the last counts. */
  lemma {:induction false} LastConditionCounts(edges: seq<Edge>, i: nat)
    requires i < |edges| && edges[i].condition != ""
    requires forall j :: i < j < |edges| && edges[j].condition != "" ==> edges[j].from.id != edges[i].from.id || edges[j].to.id != edges[i].to.id
    ensures var conditions, e := ConditionsOf(edges), edges[i];
      e.to.id in conditions && e.from.id in conditions[e.to.id] && conditions[e.to.id][e.from.id] == e.condition
  {
    var n := |edges| - 1;
    if i < n { LastConditionCounts(edges[..n], i); }
  }

  /** A recognised depends_on condition reaches the map that the apply run waits by, under the two services' ids. */
  lemma {:induction false} ConditionsReachApply(services: Services, project: string, edges: seq<Edge>, s: Name, d: Name)
    requires EdgesDescribe(services, project, edges) && s in services && d in services[s].dependsOn
    requires MapCondition(services[s].dependsOn[d]) != ""
    ensures var conditions, a, b := ConditionsOf(edges), ScopedId(project, s), ScopedId(project, d);
      && b in conditions && a in conditions[b]
      && conditions[b][a] == MapCondition(services[s].dependsOn[d])
      && Priority(conditions[b][a]) <= Priority(StrictestOf(conditions[b]))
  {
    var a, b, c := ScopedId(project, s), ScopedId(project, d), MapCondition(services[s].dependsOn[d]);
    var mine := DependencyEdge(project, s, services[s], d);
    assert mine in edges && mine.condition != "";
    forall e | e in edges && e.from.id == a && e.to.id == b && e.condition != "" ensures e.condition == c {
      var t :| t in services && EdgeOf(project, t, services[t], e);
      ScopedIdInjective(project, s, t);
      var d' :| d' in services[t].dependsOn && e == DependencyEdge(project, t, services[t], d');
      ScopedIdInjective(project, d, d');
    }
    ConditionFromEdge(edges, a, b, c);
    StrictestDominates(ConditionsOf(edges)[b], a);
  }

  /** Some service asks for this condition of `d`. */
  ghost predicate AskedOf(services: Services, d: Name, condition: string) {
    exists s :: s in services && d in services[s].dependsOn && services[s].dependsOn[d] == condition
  }

  /** Every condition imposed on a resource comes from an edge that carries it. */
  lemma {:induction false} ConditionHasEdge(edges: seq<Edge>, a: Id, b: Id)
    requires b in ConditionsOf(edges) && a in ConditionsOf(edges)[b]
    ensures exists e :: e in edges && e.from.id == a && e.to.id == b && e.condition == ConditionsOf(edges)[b][a] != ""
  {
    var n := |edges| - 1;
    var init, last := edges[..n], edges[n];
    assert edges == init + [last];
    if last.condition == "" || last.to.id != b || last.from.id != a {
      ConditionHasEdge(init, a, b);
    } else {
      assert last in edges;
    }
  }

  lemma {:induction false} ConditionsNonEmpty(edges: seq<Edge>, b: Id)
    requires b in ConditionsOf(edges)
    ensures ConditionsOf(edges)[b] != map[]
  {
    var n := |edges| - 1;
    var last := edges[n];
    if last.condition == "" || last.to.id != b {
      ConditionsNonEmpty(edges[..n], b);
    } else {
      assert last.from.id in ConditionsOf(edges)[b];
    }
  }

  /** The three recognised conditions and what they are called on the way to a run. */
  lemma {:induction false} ConditionNames(c: string)
    ensures MapCondition(c) == "healthy" <==> c == "service_healthy"
    ensures MapCondition(c) == "completed" <==> c == "service_completed_successfully"
    ensures MapCondition(c) == "started" <==> c == "service_started"
    ensures MapCondition(c) in ["healthy", "completed", "started", ""]
  { }

  lemma {:induction false} AskedIsImposed(services: Services, project: string, edges: seq<Edge>, d: Name, asked: string)
    requires EdgesDescribe(services, project, edges) && AskedOf(services, d, asked) && MapCondition(asked) != ""
    ensures var b := ScopedId(project, d);
      b in ConditionsOf(edges) && MapCondition(asked) in ConditionsOf(edges)[b].Values
  {
    var s :| s in services && d in services[s].dependsOn && services[s].dependsOn[d] == asked;
    ConditionsReachApply(services, project, edges, s, d);
  }

  lemma {:induction false} ImposedIsAsked(services: Services, project: string, edges: seq<Edge>, d: Name, imposed: Condition)
    requires EdgesDescribe(services, project, edges) && ScopedId(project, d) in ConditionsOf(edges)
    requires imposed in ConditionsOf(edges)[ScopedId(project, d)].Values
    ensures exists c :: AskedOf(services, d, c) && MapCondition(c) == imposed != ""
  {
    var b := ScopedId(project, d);
    var a :| a in ConditionsOf(edges)[b] && ConditionsOf(edges)[b][a] == imposed;
    ConditionHasEdge(edges, a, b);
    var e :| e in edges && e.from.id == a && e.to.id == b && e.condition == imposed;
    ConditionAsked(services, project, e, d);
    var s :| s in services && d in services[s].dependsOn && MapCondition(services[s].dependsOn[d]) == imposed;
    assert AskedOf(services, d, services[s].dependsOn[d]);
  }

  /** A condition is imposed on a service's resource exactly when some service asks for it by its compose name. */
  lemma {:induction false} ImposedIff(services: Services, project: string, edges: seq<Edge>, d: Name, asked: string)
    requires EdgesDescribe(services, project, edges)
    requires MapCondition(asked) != "" && forall c :: MapCondition(c) == MapCondition(asked) ==> c == asked
    ensures var b := ScopedId(project, d);
      AskedOf(services, d, asked) <==> b in ConditionsOf(edges) && MapCondition(asked) in ConditionsOf(edges)[b].Values
  {
    var b := ScopedId(project, d);
    if AskedOf(services, d, asked) {
      AskedIsImposed(services, project, edges, d, asked);
    }
    if b in ConditionsOf(edges) && MapCondition(asked) in ConditionsOf(edges)[b].Values {
      ImposedIsAsked(services, project, edges, d, MapCondition(asked));
    }
  }

  lemma {:induction false} ConditionAsked(services: Services, project: string, e: Edge, d: Name)
    requires exists s :: s in services && EdgeOf(project, s, services[s], e)
    requires e.to.id == ScopedId(project, d) && e.condition != ""
    ensures exists s :: s in services && d in services[s].dependsOn && MapCondition(services[s].dependsOn[d]) == e.condition
  {
    var s :| s in services && EdgeOf(project, s, services[s], e);
    var d' :| d' in services[s].dependsOn && e == DependencyEdge(project, s, services[s], d');
    ScopedIdInjective(project, d, d');
  }

  /** What a run waits for once a service's resource is created, in the words of the compose file. */
  ghost predicate WaitsFor(services: Services, project: string, conditions: ConditionMap, d: Name) {
    var b := project + "/" + d;
    if AskedOf(services, d, "service_healthy") then b in conditions && StrictestOf(conditions[b]) == "healthy"
    else if AskedOf(services, d, "service_completed_successfully") then b in conditions && StrictestOf(conditions[b]) == "completed"
    else if AskedOf(services, d, "service_started") then b in conditions && StrictestOf(conditions[b]) == "started"
    else b !in conditions
  }

  /** Health before completion before start, whichever is the strictest asked for; nothing when none is. */
  lemma {:induction false} ConditionWaited(services: Services, project: string, edges: seq<Edge>, d: Name)
    requires EdgesDescribe(services, project, edges)
    ensures WaitsFor(services, project, ConditionsOf(edges), d)
  {
    ImposedByName(services, project, edges, d);
    if project + "/" + d in ConditionsOf(edges) {
      SomethingAsked(services, project, edges, d);
    }
  }

  lemma {:induction false} ImposedByName(services: Services, project: string, edges: seq<Edge>, d: Name)
    requires EdgesDescribe(services, project, edges)
    ensures var b, conditions := project + "/" + d, ConditionsOf(edges);
      && (AskedOf(services, d, "service_healthy") <==> b in conditions && "healthy" in conditions[b].Values)
      && (AskedOf(services, d, "service_completed_successfully") <==> b in conditions && "completed" in conditions[b].Values)
      && (AskedOf(services, d, "service_started") <==> b in conditions && "started" in conditions[b].Values)
  {
    forall c ensures (MapCondition(c) == "healthy" <==> c == "service_healthy")
      && (MapCondition(c) == "completed" <==> c == "service_completed_successfully")
      && (MapCondition(c) == "started" <==> c == "service_started")
    {
      ConditionNames(c);
    }
    ImposedIff(services, project, edges, d, "service_healthy");
    ImposedIff(services, project, edges, d, "service_completed_successfully");
    ImposedIff(services, project, edges, d, "service_started");
  }

  /** Whatever is waited for was asked for, by one of the three names. */
  lemma {:induction false} SomethingAsked(services: Services, project: string, edges: seq<Edge>, d: Name)
    requires EdgesDescribe(services, project, edges) && ScopedId(project, d) in ConditionsOf(edges)
    ensures AskedOf(services, d, "service_healthy") || AskedOf(services, d, "service_completed_successfully")
      || AskedOf(services, d, "service_started")
  {
    var b := ScopedId(project, d);
    ConditionsNonEmpty(edges, b);
    var a :| a in ConditionsOf(edges)[b];
    var imposed := ConditionsOf(edges)[b][a];
    assert imposed in ConditionsOf(edges)[b].Values;
    ImposedIsAsked(services, project, edges, d, imposed);
    var c :| AskedOf(services, d, c) && MapCondition(c) == imposed;
    ConditionNames(c);
  }

  function CreateFor(m: Manifest, spec: Manifest -> Body): Request {
    Create(m.name, KeyOf(m.kind), spec(m))
  }

  function CreatesFor(ms: seq<Manifest>, spec: Manifest -> Body): (rs: seq<Request>)
    ensures |rs| == |ms| && forall i :: 0 <= i < |ms| ==> rs[i] == CreateFor(ms[i], spec)
  {
    if ms == [] then [] else CreatesFor(ms[..|ms| - 1], spec) + [CreateFor(ms[|ms| - 1], spec)]
  }

  /** The create that a manifest comes to. */
  predicate IsCreateOf(m: Manifest, spec: Manifest -> Option<Body>, r: Request) {
    spec(m).Some? && r == Create(m.name, "cri.orchestrator.io/v1/" + m.kind, spec(m).value)
  }

  lemma {:induction false} CreatesSpelled(ms: seq<Manifest>, spec: Manifest -> Option<Body>)
    requires forall i :: 0 <= i < |ms| ==> spec(ms[i]).Some?
    ensures forall i :: 0 <= i < |ms| ==> IsCreateOf(ms[i], spec, CreatesFor(ms, BodyOf(spec))[i])
  {
    forall i | 0 <= i < |ms| ensures IsCreateOf(ms[i], spec, CreatesFor(ms, BodyOf(spec))[i]) {
      assert KeyOf(ms[i].kind) == "cri.orchestrator.io/v1/" + ms[i].kind;
    }
  }

  datatype BridgeResult = Bridged(deployment: Deployment, conditions: ConditionMap) | BridgeFailed(at: nat)

  /** The manifest's body can be marshalled, and the registry instantiates it. */
  predicate Usable(m: Manifest, spec: Manifest -> Option<Body>, accepts: (Key, Body) -> bool) {
    spec(m).Some? && accepts(KeyOf(m.kind), spec(m).value)
  }

  function BodyOf(spec: Manifest -> Option<Body>): Manifest -> Body {
    m => if spec(m).Some? then spec(m).value else ""
  }

  /** One create per manifest, in order; links for exactly the edges that leave a manifest's name; or the first unusable one. */
  method Bridge(manifests: seq<Manifest>, edges: seq<Edge>, spec: Manifest -> Option<Body>, accepts: (Key, Body) -> bool)
    returns (r: BridgeResult)
    ensures r.BridgeFailed? ==> r.at < |manifests| && !Usable(manifests[r.at], spec, accepts)
    ensures forall i :: 0 <= i < (if r.Bridged? then |manifests| else r.at) ==> Usable(manifests[i], spec, accepts)
    ensures r.Bridged? ==>
      && fresh(r.deployment) && r.deployment.depending == []
      && r.deployment.requests == CreatesFor(manifests, BodyOf(spec))
      && (forall i :: 0 <= i < |manifests| ==> IsCreateOf(manifests[i], spec, CreatesFor(manifests, BodyOf(spec))[i]))
      && (forall a, b :: (a, b) in LinkPairs(r.deployment.dependencies) <==>
            (a, b) in EdgePairs(edges) && a in ManifestNames(manifests))
      && r.conditions == ConditionsOf(edges)
  {
    var index := IndexEdges(edges);
    var conditions := CollectConditions(edges);
    var deployment := new Deployment();
    for i := 0 to |manifests|
      invariant forall k :: 0 <= k < i ==> Usable(manifests[k], spec, accepts)
      invariant fresh(deployment) && deployment.depending == []
      invariant AddedSoFar(manifests, i, EdgePairs(edges), spec, deployment.requests, LinkPairs(deployment.dependencies))
    {
      var m := manifests[i];
      if !Usable(m, spec, accepts) {
        return BridgeFailed(i);
      }
      ghost var requests, links, deps := deployment.requests, LinkPairs(deployment.dependencies), IndexAt(index, m.name);
      deployment.AddCreation(Reference(m.name, KeyOf(m.kind)), spec(m).value, IndexAt(index, m.name));
      AddedNext(manifests, i, EdgePairs(edges), spec, requests, links, RefIds(deps));
    }
    assert manifests[..|manifests|] == manifests;
    CreatesSpelled(manifests, spec);
    return Bridged(deployment, conditions);
  }

  /** The creates and links of the first manifests. */
  ghost predicate AddedSoFar(manifests: seq<Manifest>, i: nat, edges: Relation, spec: Manifest -> Option<Body>,
                             requests: seq<Request>, links: Relation)
  {
    && i <= |manifests| && requests == CreatesFor(manifests[..i], BodyOf(spec))
    && forall a, b :: (a, b) in links <==> (a, b) in edges && a in ManifestNames(manifests[..i])
  }

  lemma {:induction false} AddedNext(manifests: seq<Manifest>, i: nat, edges: Relation, spec: Manifest -> Option<Body>,
                                     requests: seq<Request>, links: Relation, deps: set<Id>)
    requires AddedSoFar(manifests, i, edges, spec, requests, links) && i < |manifests| && spec(manifests[i]).Some?
    requires forall b :: b in deps <==> (manifests[i].name, b) in edges
    ensures var m := manifests[i];
      AddedSoFar(manifests, i + 1, edges, spec, requests + [Create(m.name, KeyOf(m.kind), spec(m).value)],
                 links + (set t | t in deps :: (m.name, t)))
  {
    assert manifests[..i + 1][..i] == manifests[..i];
  }

  // ---- What the resource graph inherits ----

  /** No service's id is the id of the project, of an image or of a volume. */
  ghost predicate ServiceIdsApart(comp: Composition, project: string, resolve: Resolver) {
    ServiceIds(comp.services, project) !! {project} + ImageIds(comp.services, resolve) + VolumeIds(comp, project)
  }

  lemma {:induction false} ResourcePair(comp: Composition, project: string, resolve: Resolver, a: Id, b: Id)
    ensures (a, b) in ResourcePairs(comp, project, resolve) <==>
      exists s :: s in comp.services && a == ScopedId(project, s) && b in Targets(comp, project, resolve, comp.services[s])
  {
    if (a, b) in ResourcePairs(comp, project, resolve) {
      var s, t :| s in comp.services && t in Targets(comp, project, resolve, comp.services[s]) && (ScopedId(project, s), t) == (a, b);
    }
    if s :| s in comp.services && a == ScopedId(project, s) && b in Targets(comp, project, resolve, comp.services[s]) {
      assert (ScopedId(project, s), b) in ResourcePairs(comp, project, resolve);
    }
  }

  lemma {:induction false} MountedDeclared(comp: Composition, mounts: seq<string>)
    ensures MountedVolumes(comp, mounts) <= comp.volumes
  {
    if mounts != [] { MountedDeclared(comp, mounts[..|mounts| - 1]); }
  }

  /** Between services the resource graph is the depends_on graph. */
  lemma {:induction false} ServiceTarget(comp: Composition, project: string, resolve: Resolver, s: Name, d: Name)
    requires ServiceIdsApart(comp, project, resolve) && s in comp.services && d in comp.services
    ensures ScopedId(project, d) in Targets(comp, project, resolve, comp.services[s]) <==> d in comp.services[s].dependsOn
  {
    var t, svc := ScopedId(project, d), comp.services[s];
    assert t in ServiceIds(comp.services, project);
    MountedDeclared(comp, svc.volumes);
    assert (set v | v in MountedVolumes(comp, svc.volumes) :: ScopedId(project, v)) <= VolumeIds(comp, project);
    assert svc.image != "" ==> resolve(svc.image) in ImageIds(comp.services, resolve);
    if t in Targets(comp, project, resolve, svc) {
      var d' :| d' in svc.dependsOn && ScopedId(project, d') == t;
      ScopedIdInjective(project, d, d');
    }
  }

  /** Service ids keep their place, everything else goes to the bottom. */
  ghost function ResourceRank(comp: Composition, project: string, rank: map<Name, int>, x: Id): int {
    if exists s :: s in comp.services && s in rank && x == ScopedId(project, s)
    then var s :| s in comp.services && s in rank && x == ScopedId(project, s); rank[s] + 1
    else 0
  }

  lemma {:induction false} ServiceRank(comp: Composition, project: string, rank: map<Name, int>, s: Name)
    requires s in comp.services && s in rank
    ensures ResourceRank(comp, project, rank, ScopedId(project, s)) == rank[s] + 1
  {
    var x := ScopedId(project, s);
    var t :| t in comp.services && t in rank && x == ScopedId(project, t)
      && ResourceRank(comp, project, rank, x) == rank[t] + 1;
    ScopedIdInjective(project, s, t);
  }

  /** Which services lead to which, through whatever resource carries the other's id. */
  ghost function ServiceLinks(comp: Composition, project: string, resolve: Resolver): Relation {
    set s, d | s in comp.services && d in comp.services
      && ScopedId(project, d) in Targets(comp, project, resolve, comp.services[s]) :: (s, d)
  }

  lemma {:induction false} ResourceRankDrops(comp: Composition, project: string, resolve: Resolver, rank: map<Name, int>, s: Name, b: Id)
    requires Descending(ServiceLinks(comp, project, resolve), rank)
    requires rank.Keys == comp.services.Keys && forall x :: x in rank ==> 0 <= rank[x]
    requires s in comp.services && b in Targets(comp, project, resolve, comp.services[s])
    ensures ResourceRank(comp, project, rank, b) < ResourceRank(comp, project, rank, ScopedId(project, s))
  {
    ServiceRank(comp, project, rank, s);
    if d :| d in comp.services && d in rank && b == ScopedId(project, d) {
      assert (s, d) in ServiceLinks(comp, project, resolve);
      ServiceRank(comp, project, rank, d);
    }
  }

  /** Only services have dependencies, so the resource graph has a cycle exactly when services lead back to themselves. */
  lemma {:induction false} ResourcesAcyclicIff(comp: Composition, project: string, resolve: Resolver)
    ensures Acyclic(ResourcePairs(comp, project, resolve)) <==> Acyclic(ServiceLinks(comp, project, resolve))
  {
    if Acyclic(ServiceLinks(comp, project, resolve)) {
      ResourcesRanked(comp, project, resolve);
    } else {
      var c :| Closed(ServiceLinks(comp, project, resolve), c);
      LiftedCycle(comp, project, resolve, c);
    }
  }

  lemma {:induction false} ResourcesRanked(comp: Composition, project: string, resolve: Resolver)
    requires Acyclic(ServiceLinks(comp, project, resolve))
    ensures Acyclic(ResourcePairs(comp, project, resolve))
  {
    var services, r := comp.services, ResourcePairs(comp, project, resolve);
    var rank := AcyclicHasRank(ServiceLinks(comp, project, resolve), services.Keys);
    var nodes := set e | e in r :: e.0;
    var nodes' := set e | e in r :: e.1;
    var rank' := map x | x in nodes + nodes' :: ResourceRank(comp, project, rank, x);
    forall a, b | (a, b) in r ensures a in rank' && b in rank' && rank'[b] < rank'[a] {
      assert (a, b).0 in nodes && (a, b).1 in nodes';
      ResourcePair(comp, project, resolve, a, b);
      var s :| s in services && a == ScopedId(project, s) && b in Targets(comp, project, resolve, services[s]);
      ResourceRankDrops(comp, project, resolve, rank, s, b);
    }
    DescendingIsAcyclic(r, rank');
  }

  lemma {:induction false} LiftedCycle(comp: Composition, project: string, resolve: Resolver, c: seq<Name>)
    requires Closed(ServiceLinks(comp, project, resolve), c)
    ensures !Acyclic(ResourcePairs(comp, project, resolve))
  {
    var r := ResourcePairs(comp, project, resolve);
    var c' := seq(|c|, i requires 0 <= i < |c| => ScopedId(project, c[i]));
    forall i | 0 <= i < |c'| - 1 ensures (c'[i], c'[i + 1]) in r {
      assert (c[i], c[i + 1]) in ServiceLinks(comp, project, resolve);
      ResourcePair(comp, project, resolve, c'[i], c'[i + 1]);
    }
    assert Closed(r, c');
  }

  /** When service ids differ from all others, that is the depends_on graph. */
  lemma {:induction false} ApartAcyclicIff(comp: Composition, project: string, resolve: Resolver)
    requires ServiceIdsApart(comp, project, resolve)
    ensures Acyclic(ResourcePairs(comp, project, resolve)) <==> Acyclic(DependsOn(comp.services))
  {
    var services, links := comp.services, ServiceLinks(comp, project, resolve);
    ResourcesAcyclicIff(comp, project, resolve);
    forall s, d | s in services && d in services ensures (s, d) in links <==> (s, d) in DependsOn(services) {
      ServiceTarget(comp, project, resolve, s, d);
      DependsOnPair(services, s, d);
    }
    if Acyclic(DependsOn(services)) {
      assert links <= DependsOn(services);
      AcyclicMonotone(links, DependsOn(services));
    } else {
      var c :| Closed(DependsOn(services), c);
      assert forall i :: 0 <= i < |c| - 1 ==> (c[i], c[i + 1]) in DependsOn(services);
      forall i | 0 <= i < |c| ensures c[i] in services {
        var k := if i == |c| - 1 then 0 else i;
        DependsOnPair(services, c[k], c[k + 1]);
      }
      assert Closed(links, c);
    }
  }

  /** A service that mounts a declared volume of its own name leads back to itself. */
  lemma {:induction false} OwnNamedVolumeLoops(comp: Composition, project: string, resolve: Resolver, s: Name)
    requires s in comp.services && s in MountedVolumes(comp, comp.services[s].volumes)
    ensures !Acyclic(ResourcePairs(comp, project, resolve))
  {
    assert (s, s) in ServiceLinks(comp, project, resolve);
    LiftedCycle(comp, project, resolve, [s, s]);
  }

  /** Service `db` with `db:/data`: the dependencies are acyclic, the resources are not. */
  lemma {:induction false} DatabaseWithOwnVolume(project: string, resolve: Resolver)
    ensures var db := Service("", "", "", ["db:/data"], [], [], [], map[]);
      var comp := Composition(map["db" := db], {"db"});
      Acyclic(DependsOn(comp.services)) && !Acyclic(ResourcePairs(comp, project, resolve))
  {
    var db := Service("", "", "", ["db:/data"], [], [], [], map[]);
    var comp := Composition(map["db" := db], {"db"});
    assert DependsOn(comp.services) == {};
    DescendingIsAcyclic(DependsOn(comp.services), map[]);
    assert "db:/data" == "db" + ":/data" && "db"[0] == 'd';
    FirstColonAfter("db", ":/data");
    assert ExtractVolumeName("db:/data") == "db";
    assert ["db:/data"][..0] == [];
    OwnNamedVolumeLoops(comp, project, resolve, "db");
  }

  /**
   * Sorting a batch by the links on record and those of the composition leaves nothing over exactly when they are
   * acyclic on the batch; links on record that are the composition's own need no thought.
   */
  lemma {:induction false} NoCycleOrphans(comp: Composition, project: string, resolve: Resolver, stored: Relation,
                                          requests: seq<Request>)
    ensures var r := stored + ResourcePairs(comp, project, resolve);
      && (Topological(r, IdSet(requests), Ids(TopoOrder(requests, r))) <==> Acyclic(Restrict(r, IdSet(requests))))
      && (Acyclic(ServiceLinks(comp, project, resolve))
          && Restrict(stored, IdSet(requests)) <= ResourcePairs(comp, project, resolve) ==>
            Topological(r, IdSet(requests), Ids(TopoOrder(requests, r))))
  {
    var pairs, ids := ResourcePairs(comp, project, resolve), IdSet(requests);
    var r := stored + pairs;
    if Acyclic(ServiceLinks(comp, project, resolve)) && Restrict(stored, ids) <= pairs {
      ResourcesAcyclicIff(comp, project, resolve);
      AcyclicMonotone(Restrict(r, ids), pairs);
    }
    if Acyclic(Restrict(r, ids)) {
      AcyclicOrder(requests, r);
    }
    if Topological(r, ids, Ids(TopoOrder(requests, r))) {
      OrderIsAcyclic(r, ids, Ids(TopoOrder(requests, r)));
    }
  }

  /**
   * With any networked service the project and the network share an id. Sorting then drops one of the two
   * creates, and planning the composition again, whatever is on record, always finds something to create.
   */
  lemma {:induction false} NetworkNeverSettles(comp: Composition, project: string, ms: seq<Manifest>, spec: Manifest -> Body,
                                               norm: Normaliser, current: Rollouts, links: Relation)
    requires StartsWithProject(comp, project, ms) && AnyNetworked(comp.services)
    ensures var creates := CreatesFor(ms, spec);
      && AllCreates(creates) && !DistinctIds(creates)
      && (exists i :: 0 <= i < |creates| && ActionsFor(norm, current, creates)[i].kind == ToCreate)
      && (Acyclic(Restrict(links, IdSet(creates))) ==> multiset(TopoOrder(creates, links)) != multiset(creates))
  {
    var creates := CreatesFor(ms, spec);
    assert Ids(creates)[0] == Ids(creates)[1];
    RepeatedIdLooksNew(norm, current, creates);
    if Acyclic(Restrict(links, IdSet(creates))) {
      NothingLostIffDistinct(creates, links);
    }
  }
}
