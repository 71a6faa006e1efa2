/** Bringing services up level by level, gating each on the strictest condition asked of it. */
module Up {
  import opened Compositions
  import opened StartOrder
  import InitContainers

  type Condition = string

  function Priority(cond: Condition): nat {
    match cond
    case "service_healthy" => 3
    case "service_completed_successfully" => 2
    case "service_started" => 1
    case _ => 0
  }

  /** What an entry asks for; an empty condition means started. */
  function Effective(cond: Condition): Condition {
    if cond == "" then "service_started" else cond
  }

  /** What a dependent asks of one of its dependencies. */
  function Asks(services: Services, s: Name, d: Name): Condition
    requires s in services && d in services[s].dependsOn
  {
    Effective(services[s].dependsOn[d])
  }

  ghost predicate Asked(services: Services, d: Name, cond: Condition) {
    exists s :: s in services && d in services[s].dependsOn && Asks(services, s, d) == cond
  }

  /** The strictest recognised condition any dependent asks of `d`; empty when there is none. */
  ghost function HighestOf(services: Services, d: Name): Condition {
    if Asked(services, d, "service_healthy") then "service_healthy"
    else if Asked(services, d, "service_completed_successfully") then "service_completed_successfully"
    else if Asked(services, d, "service_started") then "service_started"
    else ""
  }

  lemma {:induction false} HighestDominates(services: Services, s: Name, d: Name)
    requires s in services && d in services[s].dependsOn
    ensures Priority(Asks(services, s, d)) <= Priority(HighestOf(services, d))
  {
    assert Asked(services, d, Asks(services, s, d));
  }

  /** The condition waited for is the one `s` asked for exactly when it is recognised and nobody asks for more. */
  lemma {:induction false} OwnConditionWaitedIff(services: Services, s: Name, d: Name)
    requires s in services && d in services[s].dependsOn
    ensures HighestOf(services, d) == Asks(services, s, d) <==>
      && Priority(Asks(services, s, d)) > 0
      && forall t :: t in services && d in services[t].dependsOn ==>
           Priority(Asks(services, t, d)) <= Priority(Asks(services, s, d))
  {
    var mine, highest := Asks(services, s, d), HighestOf(services, d);
    HighestDominates(services, s, d);
    if highest == mine {
      forall t | t in services && d in services[t].dependsOn ensures Priority(Asks(services, t, d)) <= Priority(mine) {
        HighestDominates(services, t, d);
      }
    } else if highest != "" {
      assert Asked(services, d, highest);
      var t :| t in services && d in services[t].dependsOn && Asks(services, t, d) == highest;
    }
  }

  /** Two dependents of one service, one asking that it completed, one that it is healthy: only the latter is waited for. */
  lemma {:induction false} AnotherConditionWaited(plain: Service)
    ensures var services := map[
        "job" := plain.(dependsOn := map[]),
        "a" := plain.(dependsOn := map["job" := "service_completed_successfully"]),
        "b" := plain.(dependsOn := map["job" := "service_healthy"])];
      HighestOf(services, "job") == "service_healthy" != Asks(services, "a", "job")
  {
    var services := map[
      "job" := plain.(dependsOn := map[]),
      "a" := plain.(dependsOn := map["job" := "service_completed_successfully"]),
      "b" := plain.(dependsOn := map["job" := "service_healthy"])];
    OwnConditionWaitedIff(services, "b", "job");
  }

  /** The running maximum over all services, in whatever order the map yields them. */
  method HighestConditionOf(services: Services, name: Name) returns (highest: Condition)
    ensures highest == HighestOf(services, name)
  {
    highest := "";
    var rest := services.Keys;
    while rest != {}
      invariant rest <= services.Keys
      invariant highest == "" || (Priority(highest) > 0 && Asked(services, name, highest))
      invariant forall s :: s in services && s !in rest && name in services[s].dependsOn ==>
        Priority(Asks(services, s, name)) <= Priority(highest)
      decreases |rest|
    {
      var s :| s in rest;
      rest := rest - {s};
      if name in services[s].dependsOn {
        var cond := services[s].dependsOn[name];
        if cond == "" {
          cond := "service_started";
        }
        assert cond == Asks(services, s, name);
        if Priority(cond) > Priority(highest) {
          highest := cond;
        }
      }
    }
    forall c | Asked(services, name, c) ensures Priority(c) <= Priority(highest) {
      var s :| s in services && name in services[s].dependsOn && Asks(services, s, name) == c;
    }
  }

  /** In the words of the compose file: health before completion before start; an empty condition asks for a start. */
  lemma {:induction false} HighestMeans(services: Services, d: Name)
    ensures HighestOf(services, d) ==
      if AsksFor(services, d, "service_healthy") then "service_healthy"
      else if AsksFor(services, d, "service_completed_successfully") then "service_completed_successfully"
      else if AsksFor(services, d, "service_started") || AsksFor(services, d, "") then "service_started"
      else ""
  {
    forall c | c != "" && c != "service_started" ensures Asked(services, d, c) <==> AsksFor(services, d, c) {
      if s :| s in services && d in services[s].dependsOn && services[s].dependsOn[d] == c {
        assert Asks(services, s, d) == c;
      }
    }
    if s :| s in services && d in services[s].dependsOn && services[s].dependsOn[d] in ["", "service_started"] {
      assert Asks(services, s, d) == "service_started";
    }
  }

  /** Some service's entry for `d` reads so. */
  ghost predicate AsksFor(services: Services, d: Name, cond: Condition) {
    exists s :: s in services && d in services[s].dependsOn && services[s].dependsOn[d] == cond
  }

  // ---- Runs ----

  datatype Call = ServiceUp(name: Name, ok: bool) | Wait(name: Name, condition: Condition, ok: bool)

  datatype UpOutcome = AllUp | SetUpFailed | OrderingFailed | ServiceFailed

  function Flatten(levels: seq<seq<Name>>): seq<Name> {
    if levels == [] then [] else Flatten(levels[..|levels| - 1]) + levels[|levels| - 1]
  }

  /** Service by service: brought up, then waited for; everything but the last call has succeeded. */
  ghost predicate UpRun(services: Services, order: seq<Name>, calls: seq<Call>) {
    && |calls| <= 2 * |order|
    && (forall a :: 0 <= a < |order| && 2 * a < |calls| ==> calls[2 * a].ServiceUp? && calls[2 * a].name == order[a])
    && (forall a :: 0 <= a < |order| && 2 * a + 1 < |calls| ==>
          calls[2 * a + 1] == Wait(order[a], HighestOf(services, order[a]), calls[2 * a + 1].ok))
    && (forall i :: 0 <= i < |calls| - 1 ==> calls[i].ok)
  }

  ghost predicate BroughtUp(services: Services, calls: seq<Call>, i: nat, d: Name) {
    exists j, k :: 0 <= j < k < i && k < |calls| && calls[j] == ServiceUp(d, true) && calls[k] == Wait(d, HighestOf(services, d), true)
  }

  /** No service is brought up before each dependency is up and its strictest condition has been met. */
  ghost predicate DependenciesReady(services: Services, calls: seq<Call>) {
    forall i, d :: (0 <= i < |calls| && calls[i].ServiceUp? && calls[i].name in services
                    && d in services[calls[i].name].dependsOn) ==> BroughtUp(services, calls, i, d)
  }

  /** The calls follow the start levels, service by service, and stop at the first that fails. */
  ghost predicate LevelByLevel(services: Services, calls: seq<Call>) {
    exists levels :: AreLevels(services, levels) && UpRun(services, Flatten(levels), calls)
  }

  /** Sets up, orders, then brings the services up level by level; `setUp` says whether the volume store opened. */
  method CriUp(services: Services, setUp: bool) returns (outcome: UpOutcome, calls: seq<Call>)
    ensures outcome.SetUpFailed? <==> !setUp
    ensures outcome.OrderingFailed? <==> setUp && !WellFounded(services)
    ensures outcome.SetUpFailed? || outcome.OrderingFailed? ==> calls == []
    ensures outcome.AllUp? ==>
      forall s :: s in services ==> ServiceUp(s, true) in calls && Wait(s, HighestOf(services, s), true) in calls
    ensures DependenciesReady(services, calls)
    ensures outcome.ServiceFailed? <==> exists i :: 0 <= i < |calls| && !calls[i].ok
    ensures outcome.AllUp? || outcome.ServiceFailed? ==> LevelByLevel(services, calls)
  {
    calls := [];
    if !setUp {
      return SetUpFailed, calls;
    }
    var order := StartOrder.StartOrder(services);
    if order.CycleDetected? {
      return OrderingFailed, calls;
    }
    var levels := order.levels;
    for k := 0 to |levels|
      invariant UpRun(services, Flatten(levels[..k]), calls)
      invariant |calls| == 2 * |Flatten(levels[..k])| && forall i :: 0 <= i < |calls| ==> calls[i].ok
    {
      var done;
      FlattenNext(levels, k);
      done, calls := UpLevel(services, Flatten(levels[..k]), levels[k], calls);
      if !done {
        RunExtends(services, Flatten(levels[..k + 1]), levels, k + 1, calls);
        RunIsReady(services, levels, calls);
        return ServiceFailed, calls;
      }
    }
    assert levels[..|levels|] == levels;
    RunIsReady(services, levels, calls);
    forall s | s in services
      ensures ServiceUp(s, true) in calls && Wait(s, HighestOf(services, s), true) in calls
    {
      InFlatten(services, levels, s);
      var a :| 0 <= a < |Flatten(levels)| && Flatten(levels)[a] == s;
      assert calls[2 * a] == ServiceUp(s, true) && calls[2 * a + 1] == Wait(s, HighestOf(services, s), true);
    }
    return AllUp, calls;
  }

  /** One level, in order, stopping at the first failure. */
  method UpLevel(services: Services, ghost before: seq<Name>, level: seq<Name>, calls0: seq<Call>)
    returns (done: bool, calls: seq<Call>)
    requires UpRun(services, before, calls0) && |calls0| == 2 * |before| && forall i :: 0 <= i < |calls0| ==> calls0[i].ok
    ensures UpRun(services, before + level, calls)
    ensures done ==> |calls| == 2 * |before + level| && forall i :: 0 <= i < |calls| ==> calls[i].ok
    ensures !done ==> calls != [] && !calls[|calls| - 1].ok
  {
    calls := calls0;
    for a := 0 to |level|
      invariant UpRun(services, before + level[..a], calls)
      invariant |calls| == 2 * |before + level[..a]| && forall i :: 0 <= i < |calls| ==> calls[i].ok
    {
      var name := level[a];
      ghost var names, earlier := before + level[..a], calls;
      assert names + [name] == before + level[..a + 1];
      assert before + level == (names + [name]) + level[a + 1..];
      var up := *;
      calls := calls + [ServiceUp(name, up)];
      if !up {
        UpNext(services, names, name, earlier, up, true);
        MoreNames(services, names + [name], level[a + 1..], calls);
        return false, calls;
      }
      var cond := HighestConditionOf(services, name);
      var met := *;
      met := met || (cond != "service_completed_successfully" && cond != "service_healthy");
      calls := calls + [Wait(name, cond, met)];
      UpNext(services, names, name, earlier, up, met);
      if !met {
        MoreNames(services, names + [name], level[a + 1..], calls);
        return false, calls;
      }
    }
    assert level[..|level|] == level;
    done := true;
  }

  lemma {:induction false} UpNext(services: Services, names: seq<Name>, name: Name, calls: seq<Call>, up: bool, met: bool)
    requires UpRun(services, names, calls) && |calls| == 2 * |names| && forall i :: 0 <= i < |calls| ==> calls[i].ok
    ensures UpRun(services, names + [name], calls + [ServiceUp(name, up)])
    ensures up ==> UpRun(services, names + [name],
                         calls + [ServiceUp(name, up)] + [Wait(name, HighestOf(services, name), met)])
  { }

  lemma {:induction false} MoreNames(services: Services, names: seq<Name>, more: seq<Name>, calls: seq<Call>)
    requires UpRun(services, names, calls)
    ensures UpRun(services, names + more, calls)
  { }

  lemma {:induction false} FlattenNext(levels: seq<seq<Name>>, k: nat)
    requires k < |levels|
    ensures Flatten(levels[..k + 1]) == Flatten(levels[..k]) + levels[k]
  {
    assert levels[..k + 1][..k] == levels[..k];
  }

  lemma {:induction false} RunExtends(services: Services, names: seq<Name>, levels: seq<seq<Name>>, k: nat, calls: seq<Call>)
    requires k <= |levels| && names == Flatten(levels[..k]) && UpRun(services, names, calls)
    ensures UpRun(services, Flatten(levels), calls)
    decreases |levels| - k
  {
    if k == |levels| {
      assert levels[..k] == levels;
    } else {
      FlattenNext(levels, k);
      MoreNames(services, names, levels[k], calls);
      RunExtends(services, names + levels[k], levels, k + 1, calls);
    }
  }

  /** Every service occurs in the flattened levels. */
  lemma {:induction false} InFlatten(services: Services, levels: seq<seq<Name>>, s: Name)
    requires AreLevels(services, levels) && s in services
    ensures s in Flatten(levels)
  {
    LevelsPartition(services, levels, s);
    var k :| 0 <= k < |levels| && s in levels[k];
    FlattenContains(levels, k, s);
  }

  lemma {:induction false} FlattenContains(levels: seq<seq<Name>>, k: nat, s: Name)
    requires k < |levels| && s in levels[k]
    ensures s in Flatten(levels)
  {
    var n := |levels| - 1;
    if k < n { FlattenContains(levels[..n], k, s); }
  }

  /** A name at some place of the flattened levels comes from a level, after all earlier levels. */
  lemma {:induction false} FlattenedAt(levels: seq<seq<Name>>, a: nat) returns (k: nat)
    requires a < |Flatten(levels)|
    ensures k < |levels| && Flatten(levels)[a] in levels[k]
    ensures Flatten(levels[..k]) <= Flatten(levels)[..a]
  {
    var n := |levels| - 1;
    if a < |Flatten(levels[..n])| {
      k := FlattenedAt(levels[..n], a);
      assert levels[..n][..k] == levels[..k];
      assert Flatten(levels)[..a] == Flatten(levels[..n])[..a];
    } else {
      k := n;
    }
  }

  /** In the flattened order a dependency comes before its dependent. */
  lemma {:induction false} DependencyFlattenedEarlier(services: Services, levels: seq<seq<Name>>, a: nat, d: Name)
    returns (b: nat)
    requires AreLevels(services, levels) && a < |Flatten(levels)|
    requires Flatten(levels)[a] in services && d in services[Flatten(levels)[a]].dependsOn
    ensures b < a && Flatten(levels)[b] == d
  {
    var k := FlattenedAt(levels, a);
    var j := DependencyStartsEarlier(services, levels, k, Flatten(levels)[a], d);
    assert levels[..k][j] == levels[j];
    FlattenContains(levels[..k], j, d);
    var early := Flatten(levels[..k]);
    b :| 0 <= b < |early| && early[b] == d;
    assert early[b] == Flatten(levels)[..a][b];
  }

  lemma {:induction false} RunIsReady(services: Services, levels: seq<seq<Name>>, calls: seq<Call>)
    requires AreLevels(services, levels) && UpRun(services, Flatten(levels), calls)
    ensures DependenciesReady(services, calls)
  {
    var order := Flatten(levels);
    forall i, d | 0 <= i < |calls| && calls[i].ServiceUp? && calls[i].name in services
      && d in services[calls[i].name].dependsOn ensures BroughtUp(services, calls, i, d)
    {
      var a := UpAt(services, order, calls, i);
      var b := DependencyFlattenedEarlier(services, levels, a, d);
      assert calls[2 * b].ok && calls[2 * b + 1].ok;
      assert calls[2 * b] == ServiceUp(d, true);
      assert calls[2 * b + 1] == Wait(d, HighestOf(services, d), true);
    }
  }

  lemma {:induction false} UpAt(services: Services, order: seq<Name>, calls: seq<Call>, i: nat) returns (a: nat)
    requires UpRun(services, order, calls) && i < |calls|
    ensures a < |order| && calls[i].name == order[a]
    ensures calls[i].ServiceUp? <==> i == 2 * a
  {
    a := i / 2;
    assert order[a] in order;
    if i == 2 * a {
      assert calls[2 * a].ServiceUp?;
    } else {
      assert calls[2 * a + 1].Wait?;
    }
  }

  // ---- Bringing up an expanded composition ----

  /**
   * In every run, a service with inits is brought up only after its last init was, and after a wait for that init
   * to complete, or to be healthy where something else asks for that, has succeeded.
   */
  lemma {:induction false} InitCompletesFirst(services: Services, calls: seq<Call>, i: nat, s: Name)
    requires s in services && services[s].inits != [] && DependenciesReady(InitContainers.SynthesizedAll(services), calls)
    requires i < |calls| && calls[i].ServiceUp? && calls[i].name == s
    ensures var last := s + "-init-" + services[s].inits[|services[s].inits| - 1].name;
      exists j, k :: 0 <= j < k < i && calls[j] == ServiceUp(last, true) && CompletionWait(calls[k], last)
  {
    var out, last := InitContainers.SynthesizedAll(services), s + "-init-" + services[s].inits[|services[s].inits| - 1].name;
    InitContainers.MainWaitsForLast(services, s);
    assert BroughtUp(out, calls, i, last);
    var j, k :| 0 <= j < k < i && k < |calls| && calls[j] == ServiceUp(last, true) && calls[k] == Wait(last, HighestOf(out, last), true);
    HighestMeans(out, last);
    assert AsksFor(out, last, "service_completed_successfully");
    assert CompletionWait(calls[k], last);
  }

  predicate CompletionWait(call: Call, name: Name) {
    call == Wait(name, "service_completed_successfully", true) || call == Wait(name, "service_healthy", true)
  }
}
