/** Selecting services by active profile, with everything they depend on. */
module Filter {
  import opened Graphs
  import opened Compositions

  /** Top-level profiles take precedence over the extension's. */
  function ServiceProfiles(svc: Service): seq<string> {
    if |svc.profiles| > 0 then svc.profiles else svc.extensionProfiles
  }

  /** A service without profiles is always enabled; otherwise one of its profiles has to be active. */
  ghost predicate Matches(svc: Service, active: seq<string>) {
    ServiceProfiles(svc) == [] || exists p :: p in ServiceProfiles(svc) && p in active
  }

  method ServiceMatchesProfile(svc: Service, active: seq<string>) returns (matches: bool)
    ensures matches <==> Matches(svc, active)
  {
    var sp := ServiceProfiles(svc);
    if |sp| == 0 {
      return true;
    }
    for i := 0 to |sp|
      invariant forall k :: 0 <= k < i ==> sp[k] !in active
    {
      for j := 0 to |active|
        invariant sp[i] !in active[..j]
      {
        if sp[i] == active[j] {
          assert sp[i] in ServiceProfiles(svc) && sp[i] in active;
          return true;
        }
      }
      assert active[..|active|] == active;
    }
    return false;
  }

  ghost function Matched(services: Services, active: seq<string>): set<Name> {
    set s | s in services && Matches(services[s], active)
  }

  /** The depends_on entries whose target is a service. */
  function Existing(services: Services): Relation {
    Restrict(DependsOn(services), services.Keys)
  }

  ghost predicate ReachedFrom(r: Relation, start: set<Name>, x: Name) {
    exists m :: m in start && Reaches(r, m, x)
  }

  /** The services reached from the matched ones over existing dependencies. */
  ghost function Kept(services: Services, active: seq<string>): set<Name> {
    set x | x in services && ReachedFrom(Existing(services), Matched(services, active), x)
  }

  ghost predicate ClosedUnder(r: Relation, S: set<Name>) {
    forall a, b :: (a, b) in r && a in S ==> b in S
  }

  /** The kept services contain the matched ones, are closed, and are the least such set. */
  lemma {:induction false} KeptIsLeastClosed(services: Services, active: seq<string>)
    ensures Matched(services, active) <= Kept(services, active)
    ensures ClosedUnder(Existing(services), Kept(services, active))
    ensures forall S :: Matched(services, active) <= S && ClosedUnder(Existing(services), S) ==> Kept(services, active) <= S
  {
    var r, start := Existing(services), Matched(services, active);
    forall m | m in start ensures ReachedFrom(r, start, m) { ReachesSelf(r, m); }
    forall a, b | (a, b) in r && a in Kept(services, active) ensures b in Kept(services, active) {
      var m :| m in start && Reaches(r, m, a);
      ReachesStep(r, m, a, b);
    }
    forall S, x | start <= S && ClosedUnder(r, S) && x in Kept(services, active) ensures x in S {
      var m :| m in start && Reaches(r, m, x);
      ReachesStaysIn(r, S, m, x);
    }
  }

  function PruneService(svc: Service, names: set<Name>): Service {
    svc.(dependsOn := map d | d in svc.dependsOn && d in names :: svc.dependsOn[d])
  }

  /** The kept services, each without its references to services the composition does not have. */
  ghost function Filtered(comp: Composition, active: seq<string>): Composition {
    comp.(services := map s | s in Kept(comp.services, active) :: PruneService(comp.services[s], comp.services.Keys))
  }

  /** Which services an active profile selects, spelled out: the extension's profiles count only where there are no others. */
  lemma {:induction false} MatchesMeans(svc: Service, active: seq<string>)
    ensures Matches(svc, active) <==>
      || (svc.profiles == [] && svc.extensionProfiles == [])
      || (exists p :: p in svc.profiles && p in active)
      || (svc.profiles == [] && exists p :: p in svc.extensionProfiles && p in active)
  { }

  /** A kept service is as it was, and asks of the services it still depends on what it asked before. */
  lemma {:induction false} FilteredKeepsEntries(comp: Composition, active: seq<string>, s: Name)
    requires s in Filtered(comp, active).services
    ensures s in comp.services && Filtered(comp, active).volumes == comp.volumes
    ensures var before, after := comp.services[s], Filtered(comp, active).services[s];
      && (forall d :: d in after.dependsOn <==> d in before.dependsOn && d in comp.services)
      && (forall d :: d in after.dependsOn ==> after.dependsOn[d] == before.dependsOn[d])
      && after.(dependsOn := before.dependsOn) == before
  { }

  // ---- The algorithm ----

  ghost predicate AllReached(services: Services, start: set<Name>, matched: set<Name>) {
    && start <= matched <= services.Keys
    && forall x :: x in matched ==> ReachedFrom(Existing(services), start, x)
  }

  method IncludeDepsTransitive(services: Services, start: set<Name>) returns (matched: set<Name>)
    requires start <= services.Keys
    ensures AllReached(services, start, matched) && ClosedUnder(Existing(services), matched)
  {
    matched := start;
    var queue := Enqueue(start);
    forall x | x in start ensures ReachedFrom(Existing(services), start, x) { ReachesSelf(Existing(services), x); }
    while queue != []
      invariant AllReached(services, start, matched) && Frontier(Existing(services), matched, queue)
      decreases services.Keys - matched, |queue|
    {
      ghost var before, was := queue, matched;
      matched, queue := VisitDeps(services, start, queue[0], matched, queue[1..]);
      VisitDone(services, start, was, before, matched, queue);
    }
  }

  method Enqueue(start: set<Name>) returns (queue: seq<Name>)
    ensures forall x :: x in queue <==> x in start
  {
    queue := [];
    var rest := start;
    while rest != {}
      invariant rest <= start && forall x :: x in queue <==> x in start && x !in rest
      decreases |rest|
    {
      var name :| name in rest;
      rest := rest - {name};
      queue := queue + [name];
    }
  }

  /** The dependencies of a service that are services themselves. */
  function ExistingDeps(services: Services, name: Name): set<Name>
    requires name in services
  {
    services[name].dependsOn.Keys * services.Keys
  }

  lemma {:induction false} ExistingPair(services: Services, a: Name, b: Name)
    ensures (a, b) in Existing(services) <==> a in services && b in ExistingDeps(services, a)
  {
    DependsOnPair(services, a, b);
  }

  lemma {:induction false} FrontierStep(services: Services, matched: set<Name>, queue: seq<Name>, matched': set<Name>, queue': seq<Name>)
    requires queue != [] && Frontier(Existing(services), matched, queue) && queue[0] in services
    requires matched' == matched + ExistingDeps(services, queue[0])
    requires forall a :: a in queue' <==> a in queue[1..] || a in matched' - matched
    ensures Frontier(Existing(services), matched', queue')
  {
    assert queue == [queue[0]] + queue[1..];
    forall a, b | (a, b) in Existing(services) && a in matched' && a !in queue' ensures b in matched' {
      ExistingPair(services, a, b);
      if a != queue[0] { assert a in matched && a !in queue; }
    }
  }

  /** Marks and queues the existing dependencies of `name` not marked before. */
  method VisitDeps(services: Services, ghost start: set<Name>, name: Name, matched0: set<Name>, queue0: seq<Name>)
    returns (matched: set<Name>, queue: seq<Name>)
    requires AllReached(services, start, matched0) && name in matched0
    ensures Visiting(services, start, name, {}, matched0, queue0, matched, queue)
  {
    VisitStart(services, start, name, matched0, queue0);
    matched, queue := matched0, queue0;
    var rest := services[name].dependsOn.Keys;
    while rest != {}
      invariant rest <= services[name].dependsOn.Keys
      invariant Visiting(services, start, name, rest, matched0, queue0, matched, queue)
      decreases rest
    {
      var dep :| dep in rest;
      if dep !in matched && dep in services {
        VisitNew(services, start, name, rest, dep, matched0, queue0, matched, queue);
        matched := matched + {dep};
        queue := queue + [dep];
      } else {
        VisitOld(services, start, name, rest, dep, matched0, queue0, matched, queue);
      }
      rest := rest - {dep};
    }
  }

  lemma {:induction false} VisitStart(services: Services, start: set<Name>, name: Name, matched: set<Name>, queue: seq<Name>)
    requires AllReached(services, start, matched) && name in matched
    ensures Visiting(services, start, name, services[name].dependsOn.Keys, matched, queue, matched, queue)
  {
    assert ExistingDeps(services, name) - services[name].dependsOn.Keys == {};
  }

  lemma {:induction false} VisitDone(services: Services, start: set<Name>, matched0: set<Name>, queue0: seq<Name>,
                                     matched: set<Name>, queue: seq<Name>)
    requires queue0 != [] && queue0[0] in services && Frontier(Existing(services), matched0, queue0)
    requires Visiting(services, start, queue0[0], {}, matched0, queue0[1..], matched, queue)
    ensures AllReached(services, start, matched) && Frontier(Existing(services), matched, queue)
    ensures matched0 <= matched <= services.Keys && (matched == matched0 ==> queue == queue0[1..])
  {
    assert ExistingDeps(services, queue0[0]) - {} == ExistingDeps(services, queue0[0]);
    FrontierStep(services, matched0, queue0, matched, queue);
  }

  /** The dependencies outside `rest` have been marked, and queued if they were new. */
  ghost predicate Visiting(services: Services, start: set<Name>, name: Name, rest: set<Name>,
                           matched0: set<Name>, queue0: seq<Name>, matched: set<Name>, queue: seq<Name>)
    requires name in services
  {
    && AllReached(services, start, matched)
    && matched == matched0 + (ExistingDeps(services, name) - rest)
    && (forall a :: a in queue <==> a in queue0 || a in matched - matched0)
    && (matched == matched0 ==> queue == queue0)
  }

  lemma {:induction false} VisitNew(services: Services, start: set<Name>, name: Name, rest: set<Name>, dep: Name,
                                    matched0: set<Name>, queue0: seq<Name>, matched: set<Name>, queue: seq<Name>)
    requires name in matched0 && name in services && dep in rest && rest <= services[name].dependsOn.Keys
    requires dep !in matched && dep in services
    requires Visiting(services, start, name, rest, matched0, queue0, matched, queue)
    ensures Visiting(services, start, name, rest - {dep}, matched0, queue0, matched + {dep}, queue + [dep])
  {
    ReachedNext(services, start, name, dep);
    OneMore(matched0, ExistingDeps(services, name), rest, dep);
    QueueGrows(queue0, queue, matched0, matched, dep);
    ReachedMore(services, start, matched, dep);
    assert dep in matched + {dep} && dep !in matched0;
  }

  lemma {:induction false} VisitOld(services: Services, start: set<Name>, name: Name, rest: set<Name>, dep: Name,
                                    matched0: set<Name>, queue0: seq<Name>, matched: set<Name>, queue: seq<Name>)
    requires name in services && dep in rest && rest <= services[name].dependsOn.Keys
    requires dep in matched || dep !in services
    requires Visiting(services, start, name, rest, matched0, queue0, matched, queue)
    ensures Visiting(services, start, name, rest - {dep}, matched0, queue0, matched, queue)
  {
    assert matched0 + (ExistingDeps(services, name) - rest) == matched0 + (ExistingDeps(services, name) - (rest - {dep}));
  }

  lemma {:induction false} ReachedMore(services: Services, start: set<Name>, matched: set<Name>, x: Name)
    requires AllReached(services, start, matched) && x in services && ReachedFrom(Existing(services), start, x)
    ensures AllReached(services, start, matched + {x})
  { }

  lemma {:induction false} OneMore(A: set<Name>, B: set<Name>, rest: set<Name>, x: Name)
    requires x in B && x in rest
    ensures A + (B - rest) + {x} == A + (B - (rest - {x}))
  { }

  lemma {:induction false} ReachedNext(services: Services, start: set<Name>, name: Name, dep: Name)
    requires name in services && ReachedFrom(Existing(services), start, name) && dep in ExistingDeps(services, name)
    ensures ReachedFrom(Existing(services), start, dep)
  {
    var m :| m in start && Reaches(Existing(services), m, name);
    ExistingPair(services, name, dep);
    ReachesStep(Existing(services), m, name, dep);
  }

  method PruneDanglingDeps(services0: Services) returns (services: Services)
    ensures services == map s | s in services0 :: PruneService(services0[s], services0.Keys)
  {
    services := services0;
    var rest := services0.Keys;
    while rest != {}
      invariant rest <= services0.Keys && services.Keys == services0.Keys
      invariant forall s :: s in services ==>
        services[s] == if s in rest then services0[s] else PruneService(services0[s], services0.Keys)
      decreases |rest|
    {
      var name :| name in rest;
      rest := rest - {name};
      var svc := services[name];
      if svc.dependsOn == map[] {
        assert PruneService(svc, services0.Keys).dependsOn == map[];
      } else {
        var pruned := map d | d in svc.dependsOn && d in services :: svc.dependsOn[d];
        services := services[name := svc.(dependsOn := pruned)];
      }
    }
  }

  method FilterByProfiles(comp: Composition, active: seq<string>) returns (filtered: Composition)
    ensures filtered == Filtered(comp, active)
  {
    var services := comp.services;
    var matched := CollectMatched(services, active);
    var kept := IncludeDepsTransitive(services, matched);
    KeptFound(services, active, kept);
    var chosen := map s | s in kept :: services[s];
    var pruned := PruneDanglingDeps(chosen);
    PrunedAll(services, kept, chosen, pruned);
    filtered := comp.(services := pruned);
  }

  lemma {:induction false} KeptFound(services: Services, active: seq<string>, kept: set<Name>)
    requires AllReached(services, Matched(services, active), kept) && ClosedUnder(Existing(services), kept)
    ensures kept == Kept(services, active)
  {
    KeptIsLeastClosed(services, active);
    assert Kept(services, active) <= kept;
  }

  lemma {:induction false} PrunedAll(services: Services, kept: set<Name>, chosen: Services, pruned: Services)
    requires kept <= services.Keys && ClosedUnder(Existing(services), kept)
    requires chosen == map s | s in kept :: services[s]
    requires pruned == map s | s in chosen :: PruneService(chosen[s], chosen.Keys)
    ensures pruned == map s | s in kept :: PruneService(services[s], services.Keys)
  {
    assert chosen.Keys == kept;
    forall s | s in kept ensures pruned[s] == PruneService(services[s], services.Keys) {
      PruneAgrees(services, kept, s);
    }
  }

  method CollectMatched(services: Services, active: seq<string>) returns (matched: set<Name>)
    ensures matched == Matched(services, active)
  {
    matched := {};
    var rest := services.Keys;
    while rest != {}
      invariant rest <= services.Keys
      invariant matched == set s | s in services && s !in rest && Matches(services[s], active)
      decreases |rest|
    {
      var name :| name in rest;
      rest := rest - {name};
      var matches := ServiceMatchesProfile(services[name], active);
      if matches {
        matched := matched + {name};
      }
    }
  }

  /** For a closed selection, pruning by what was selected and by what exists is the same. */
  lemma {:induction false} PruneAgrees(services: Services, kept: set<Name>, s: Name)
    requires s in kept && kept <= services.Keys && ClosedUnder(Existing(services), kept)
    ensures PruneService(services[s], kept) == PruneService(services[s], services.Keys)
  {
    forall d | d in services[s].dependsOn ensures d in kept <==> d in services {
      ExistingPair(services, s, d);
    }
    assert PruneService(services[s], kept).dependsOn == PruneService(services[s], services.Keys).dependsOn;
  }

  // ---- What filtering guarantees ----

  lemma {:induction false} FilteredDeps(comp: Composition, active: seq<string>, a: Name, b: Name)
    ensures (a, b) in DependsOn(Filtered(comp, active).services) <==>
            a in Kept(comp.services, active) && (a, b) in Existing(comp.services)
  {
    DependsOnPair(Filtered(comp, active).services, a, b);
    ExistingPair(comp.services, a, b);
  }

  /** Every reference in the result is to a service in the result; a well-founded composition stays so. */
  lemma {:induction false} FilteredIsClosed(comp: Composition, active: seq<string>)
    ensures TargetsExist(Filtered(comp, active).services)
    ensures Acyclic(DependsOn(comp.services)) ==> WellFounded(Filtered(comp, active).services)
  {
    var services' := Filtered(comp, active).services;
    KeptIsLeastClosed(comp.services, active);
    forall s, d | s in services' && d in services'[s].dependsOn ensures d in services' {
      DependsOnPair(services', s, d);
      FilteredDeps(comp, active, s, d);
    }
    if Acyclic(DependsOn(comp.services)) {
      forall e | e in DependsOn(services') ensures e in DependsOn(comp.services) {
        FilteredDeps(comp, active, e.0, e.1);
      }
      AcyclicMonotone(DependsOn(services'), DependsOn(comp.services));
    }
  }

  /** More active profiles never remove a service. */
  lemma {:induction false} FilterMonotone(comp: Composition, active: seq<string>, more: seq<string>)
    requires forall p :: p in active ==> p in more
    ensures Kept(comp.services, active) <= Kept(comp.services, more)
  {
    forall x | x in Kept(comp.services, active) ensures x in Kept(comp.services, more) {
      var m :| m in Matched(comp.services, active) && Reaches(Existing(comp.services), m, x);
      assert m in Matched(comp.services, more);
    }
  }

  /** Filtering again with the same profiles changes nothing. */
  lemma {:induction false} FilterIdempotent(comp: Composition, active: seq<string>)
    ensures Filtered(Filtered(comp, active), active) == Filtered(comp, active)
  {
    var once := Filtered(comp, active);
    var kept := Kept(comp.services, active);
    KeptIsLeastClosed(comp.services, active);
    KeptUnchanged(comp, active);
    NothingToPrune(comp.services, kept, once.services);
  }

  lemma {:induction false} KeptUnchanged(comp: Composition, active: seq<string>)
    ensures Kept(Filtered(comp, active).services, active) == Kept(comp.services, active)
  {
    var again, kept := Kept(Filtered(comp, active).services, active), Kept(comp.services, active);
    assert Filtered(comp, active).services.Keys == kept;
    forall x | x in kept ensures x in again {
      KeptAgain(comp, active, x);
    }
  }

  lemma {:induction false} NothingToPrune(services: Services, kept: set<Name>, once: Services)
    requires kept <= services.Keys && ClosedUnder(Existing(services), kept)
    requires once == map s | s in kept :: PruneService(services[s], services.Keys)
    ensures once == map s | s in kept :: PruneService(once[s], once.Keys)
  {
    forall s | s in kept ensures PruneService(once[s], once.Keys) == once[s] {
      PruneAgrees(services, kept, s);
      assert once.Keys == kept;
      assert PruneService(once[s], kept).dependsOn == once[s].dependsOn;
    }
  }

  lemma {:induction false} KeptAgain(comp: Composition, active: seq<string>, x: Name)
    requires x in Kept(comp.services, active)
    ensures x in Kept(Filtered(comp, active).services, active)
  {
    var once := Filtered(comp, active).services;
    var r, start := Existing(comp.services), Matched(comp.services, active);
    var m :| m in start && Reaches(r, m, x);
    KeptIsLeastClosed(comp.services, active);
    StillReached(comp, active, m, x);
    StillMatched(comp, active, m);
    assert ReachedFrom(Existing(once), Matched(once, active), x);
  }

  lemma {:induction false} StillMatched(comp: Composition, active: seq<string>, m: Name)
    requires m in Matched(comp.services, active)
    ensures m in Matched(Filtered(comp, active).services, active)
  {
    KeptIsLeastClosed(comp.services, active);
  }

  lemma {:induction false} StillReached(comp: Composition, active: seq<string>, m: Name, x: Name)
    requires m in Kept(comp.services, active) && Reaches(Existing(comp.services), m, x)
    ensures Reaches(Existing(Filtered(comp, active).services), m, x)
  {
    var once := Filtered(comp, active).services;
    var r, kept := Existing(comp.services), Kept(comp.services, active);
    KeptIsLeastClosed(comp.services, active);
    var p :| WalkFrom(r, m, p) && p[|p| - 1] == x;
    WalkStaysIn(r, kept, p);
    forall i | 0 <= i < |p| - 1 ensures (p[i], p[i + 1]) in Existing(once) {
      StillExisting(comp, active, p[i], p[i + 1]);
    }
    assert WalkFrom(Existing(once), m, p);
  }

  lemma {:induction false} StillExisting(comp: Composition, active: seq<string>, a: Name, b: Name)
    requires a in Kept(comp.services, active) && b in Kept(comp.services, active) && (a, b) in Existing(comp.services)
    ensures (a, b) in Existing(Filtered(comp, active).services)
  {
    FilteredDeps(comp, active, a, b);
  }
}
