/** Planning the volumes of a whole composition before any manifest is written. */
module Rendering {
  import opened Options
  import opened Names
  import opened Ordering
  import opened Slices
  import opened Kahn
  import opened VolumePlans
  import opened VolumeLaws

  datatype Outcome =
    | Plans(plans: map<string, VolumePlan>, warnings: seq<string>)
    | MountRefusal(report: Report)

  /** The fields of a mount refusal error. */
  datatype Report = Report(refusals: seq<Refusal>, overrides: seq<Override>, mustFix: bool)

  datatype Input = Input(host: Host, services: map<string, ServiceVolumes>, declared: set<string>)

  function ContextOf(input: Input, policy: Policy, name: string): Context
    requires name in input.services
  {
    Context(input.host, name, BySource(input.services[name].secretMounts), input.declared, policy)
  }

  function StringsOf(input: Input, name: string): seq<string>
    requires name in input.services
  {
    VolumeStrings(input.services[name])
  }

  /** One final state per service. */
  type States = map<string, PlanState>

  ghost predicate AllPlanned(input: Input, policy: Policy, states: States) {
    forall n :: n in states ==> n in input.services && Planned(ContextOf(input, policy, n), StringsOf(input, n), states[n])
  }

  // ---- Merging the reports ----

  /** The flags of `into`, then those of `from` not among them, each once. */
  function Merged(into: seq<Override>, from: seq<Override>): (r: seq<Override>)
    ensures forall o :: o in r <==> o in into || o in from
    ensures NoDuplicates(into) ==> NoDuplicates(r)
    ensures into <= r
  {
    if from == [] then into
    else
      var n := |from| - 1;
      var before := Merged(into, from[..n]);
      assert from == from[..n] + [from[n]];
      if from[n] in before then before else before + [from[n]]
  }

  /** Flags are merged one by one, in the order reported. */
  lemma {:induction false} MergedInTurn(into: seq<Override>, o: Override, rest: seq<Override>)
    ensures Merged(into, [o] + rest) == Merged(if o in into then into else into + [o], rest)
  {
    if rest == [] {
      assert [o] + rest == [o] && [o][..0] == [];
    } else {
      var n := |rest| - 1;
      MergedInTurn(into, o, rest[..n]);
      assert ([o] + rest)[..n + 1] == [o] + rest[..n] && ([o] + rest)[n + 1] == rest[n];
    }
  }

  method MergeOverrides(into: seq<Override>, from: seq<Override>) returns (r: seq<Override>)
    ensures r == Merged(into, from)
  {
    r := into;
    for k := 0 to |from|
      invariant r == Merged(into, from[..k])
    {
      assert from[..k + 1][..k] == from[..k];
      if from[k] !in r {
        r := r + [from[k]];
      }
    }
    assert from[..|from|] == from;
  }

  /** What the services planned so far add up to, in their order. */
  function ReportOf(sts: seq<PlanState>): Report {
    if sts == [] then Report([], [], false) else Grown(ReportOf(sts[..|sts| - 1]), sts[|sts| - 1])
  }

  function Grown(report: Report, st: PlanState): Report {
    Report(report.refusals + st.refusals, Merged(report.overrides, st.overrides), report.mustFix || st.mustFix)
  }

  function WarningsOf(sts: seq<PlanState>): seq<string> {
    if sts == [] then [] else WarningsOf(sts[..|sts| - 1]) + sts[|sts| - 1].warnings
  }

  lemma {:induction false} ReportNext(sts: seq<PlanState>, st: PlanState)
    ensures ReportOf(sts + [st]) == Grown(ReportOf(sts), st) && WarningsOf(sts + [st]) == WarningsOf(sts) + st.warnings
  {
    assert (sts + [st])[..|sts|] == sts;
  }

  /** Services report in turn: what one group of them reports comes before what the next one does. */
  lemma {:induction false} ReportsInTurn(a: seq<PlanState>, b: seq<PlanState>)
    ensures ReportOf(a + b).refusals == ReportOf(a).refusals + ReportOf(b).refusals
    ensures ReportOf(a).overrides <= ReportOf(a + b).overrides
    ensures WarningsOf(a + b) == WarningsOf(a) + WarningsOf(b)
  {
    if b == [] {
      assert a + b == a;
    } else {
      var n := |b| - 1;
      var init, st := b[..n], b[n];
      ReportsInTurn(a, init);
      ConcatSnoc(a, b);
      ConcatSnoc([], b);
      ReportNext(a + init, st);
      ReportNext(init, st);
      ConcatAssoc(ReportOf(a).refusals, ReportOf(init).refusals, st.refusals);
      ConcatAssoc(WarningsOf(a), WarningsOf(init), st.warnings);
    }
  }

  /** And one of them reports what its plan does. */
  lemma {:induction false} OneReports(st: PlanState)
    ensures ReportOf([st]).refusals == st.refusals && WarningsOf([st]) == st.warnings
    ensures ReportOf([st]).mustFix == st.mustFix
  {
    ReportNext([], st);
    assert [] + [st] == [st];
  }

  /** The report holds exactly what the states do, each flag once. */
  ghost predicate Collects(sts: seq<PlanState>, report: Report) {
    && (forall r :: r in report.refusals <==> exists i :: 0 <= i < |sts| && r in sts[i].refusals)
    && (forall o :: o in report.overrides <==> exists i :: 0 <= i < |sts| && o in sts[i].overrides)
    && (report.mustFix <==> exists i :: 0 <= i < |sts| && sts[i].mustFix)
    && NoDuplicates(report.overrides)
  }

  lemma {:induction false} ReportCollects(sts: seq<PlanState>)
    ensures Collects(sts, ReportOf(sts))
  {
    if sts != [] {
      var n := |sts| - 1;
      ReportCollects(sts[..n]);
      CollectsNext(sts[..n], ReportOf(sts[..n]), sts[n]);
      assert sts == sts[..n] + [sts[n]];
    }
  }

  lemma {:induction false} CollectsNext(sts: seq<PlanState>, report: Report, st: PlanState)
    requires Collects(sts, report)
    ensures Collects(sts + [st], Grown(report, st))
  {
    var all := sts + [st];
    assert all[|sts|] == st && forall i :: 0 <= i < |sts| ==> all[i] == sts[i];
    forall r ensures r in report.refusals + st.refusals <==> exists i :: 0 <= i < |all| && r in all[i].refusals {
      if r in report.refusals {
        var i :| 0 <= i < |sts| && r in sts[i].refusals;
        assert r in all[i].refusals;
      }
    }
    forall o ensures o in Merged(report.overrides, st.overrides) <==> exists i :: 0 <= i < |all| && o in all[i].overrides {
      if o in report.overrides {
        var i :| 0 <= i < |sts| && o in sts[i].overrides;
        assert o in all[i].overrides;
      }
    }
    if report.mustFix {
      var i :| 0 <= i < |sts| && sts[i].mustFix;
      assert all[i].mustFix;
    }
  }

  /** The states in the given order of services. */
  function InTurn(states: States, names: seq<string>): (sts: seq<PlanState>)
    requires forall n :: n in names ==> n in states
    ensures |sts| == |names| && forall i :: 0 <= i < |names| ==> sts[i] == states[names[i]]
  {
    seq(|names|, i requires 0 <= i < |names| => states[names[i]])
  }

  /** The first k services are planned and reported. */
  ghost predicate PlannedUpTo(input: Input, policy: Policy, names: seq<string>, k: nat, states: States) {
    && k <= |names| && AllPlanned(input, policy, states)
    && (forall n :: n in states <==> n in names[..k])
  }

  lemma {:induction false} PlanOneMore(input: Input, policy: Policy, names: seq<string>, k: nat, states: States, st: PlanState)
    requires PlannedUpTo(input, policy, names, k, states) && k < |names| && names[k] in input.services
    requires NoDuplicates(names)
    requires Planned(ContextOf(input, policy, names[k]), StringsOf(input, names[k]), st)
    ensures PlannedUpTo(input, policy, names, k + 1, states[names[k] := st])
    ensures InTurn(states[names[k] := st], names[..k + 1]) == InTurn(states, names[..k]) + [st]
  {
    assert names[..k + 1] == names[..k] + [names[k]];
  }

  /** The state of the loop over the services. */
  ghost predicate Progress(
    input: Input, policy: Policy, names: seq<string>, k: nat, states: States, warnings: seq<string>, report: Report)
  {
    && PlannedUpTo(input, policy, names, k, states)
    && report == ReportOf(InTurn(states, names[..k])) && warnings == WarningsOf(InTurn(states, names[..k]))
  }

  lemma {:induction false} NoProgress(input: Input, policy: Policy, names: seq<string>)
    ensures Progress(input, policy, names, 0, map[], [], Report([], [], false))
  { }

  lemma {:induction false} ProgressNext(input: Input, policy: Policy, names: seq<string>, k: nat, states: States,
                                        warnings: seq<string>, report: Report, st: PlanState)
    requires Progress(input, policy, names, k, states, warnings, report) && k < |names| && names[k] in input.services
    requires NoDuplicates(names)
    requires Planned(ContextOf(input, policy, names[k]), StringsOf(input, names[k]), st)
    ensures Progress(input, policy, names, k + 1, states[names[k] := st], warnings + st.warnings, Grown(report, st))
  {
    PlanOneMore(input, policy, names, k, states, st);
    ReportNext(InTurn(states, names[..k]), st);
  }

  lemma {:induction false} ProgressDone(input: Input, policy: Policy, names: seq<string>, states: States,
                                        warnings: seq<string>, report: Report)
    requires Progress(input, policy, names, |names|, states, warnings, report)
    requires forall x :: x in names <==> x in input.services
    ensures AllPlanned(input, policy, states) && states.Keys == input.services.Keys
    ensures forall n :: n in names <==> n in states
    ensures report == ReportOf(InTurn(states, names)) && warnings == WarningsOf(InTurn(states, names))
  {
    assert names[..|names|] == names;
  }

  lemma {:induction false} SomeRefusal(refusals: seq<Refusal>)
    ensures refusals == [] || exists r :: r in refusals
  {
    if refusals != [] {
      assert refusals[0] in refusals;
    }
  }

  lemma {:induction false} NothingRefused(states: States, names: seq<string>)
    requires (forall n :: n in names <==> n in states) && ReportOf(InTurn(states, names)).refusals == []
    ensures forall n :: n in states ==> states[n].refusals == []
  {
    var sts := InTurn(states, names);
    ReportCollects(sts);
    forall n | n in states ensures states[n].refusals == [] {
      var i :| 0 <= i < |names| && names[i] == n;
      assert forall r :: r in sts[i].refusals ==> r in ReportOf(sts).refusals;
      SomeRefusal(sts[i].refusals);
    }
  }

  ghost predicate Viewed(plans: map<string, VolumePlan>, states: States)
    reads plans.Values
  {
    plans.Keys == states.Keys && forall n :: n in plans ==> plans[n].View() == states[n]
  }

  lemma {:induction false} ViewedMore(plans: map<string, VolumePlan>, states: States, name: string, plan: VolumePlan)
    requires Viewed(plans, states)
    ensures Viewed(plans[name := plan], states[name := plan.View()])
  { }

  /** The body of the loop over the services. */
  method PlanNext(input: Input, policy: Policy, name: string, plans: map<string, VolumePlan>, warnings: seq<string>,
                  report: Report, ghost states: States)
    returns (grown: map<string, VolumePlan>, warned: seq<string>, merged: Report, ghost st: PlanState)
    requires name in input.services && Viewed(plans, states)
    ensures Planned(ContextOf(input, policy, name), StringsOf(input, name), st)
    ensures Viewed(grown, states[name := st]) && merged == Grown(report, st) && warned == warnings + st.warnings
  {
    var plan := PlanVolumes(input.host, name, input.services[name], input.declared, policy);
    st := plan.View();
    ViewedMore(plans, states, name, plan);
    grown := plans[name := plan];
    warned := warnings + plan.warnings;
    var overrides := MergeOverrides(report.overrides, plan.overrides);
    merged := Report(report.refusals + plan.refusals, overrides, report.mustFix || plan.mustFix);
  }

  /**
   * The services are planned in name order, each on its own plan; any refusal fails the whole render with
   * everything that was refused, and otherwise all warnings are handed on, in that order.
   */
  method PlanCompositionVolumes(input: Input, policy: Policy) returns (outcome: Outcome, ghost states: States)
    ensures AllPlanned(input, policy, states) && states.Keys == input.services.Keys
    ensures forall n :: n in InOrder(input.services.Keys) ==> n in states
    ensures var sts := InTurn(states, InOrder(input.services.Keys));
      match outcome
      case Plans(plans, warnings) =>
        Viewed(plans, states) && warnings == WarningsOf(sts) && forall n :: n in states ==> states[n].refusals == []
      case MountRefusal(report) => report.refusals != [] && report == ReportOf(sts)
  {
    var plans: map<string, VolumePlan> := map[];
    var warnings: seq<string> := [];
    var report := Report([], [], false);
    states := map[];
    var names := SortedServiceNames(input);
    NoProgress(input, policy, names);
    for k := 0 to |names|
      invariant Progress(input, policy, names, k, states, warnings, report) && Viewed(plans, states)
    {
      var name := names[k];
      assert name in names;
      ghost var st;
      ghost var warned, reported := warnings, report;
      plans, warnings, report, st := PlanNext(input, policy, name, plans, warnings, report, states);
      ProgressNext(input, policy, names, k, states, warned, reported, st);
      states := states[name := st];
    }
    ProgressDone(input, policy, names, states, warnings, report);
    if report.refusals != [] {
      return MountRefusal(report), states;
    }
    NothingRefused(states, names);
    return Plans(plans, warnings), states;
  }

  method SortedServiceNames(input: Input) returns (names: seq<string>)
    ensures names == InOrder(input.services.Keys) && NoDuplicates(names) && forall x :: x in names <==> x in input.services
  {
    names := SortedKeys(input.services);
    InOrderUnique(names, input.services.Keys);
  }

  // ---- Rendering again with the reported flags ----

  /**
    * After a refused render, rendering the same composition with every reported flag given succeeds
    * exactly when nothing had to be fixed.
    */
  lemma {:induction false} RerenderSucceedsIff(input: Input, policy: Policy, states: States, names: seq<string>, again: States)
    requires AllPlanned(input, policy, states) && forall n :: n in names <==> n in states
    requires var report := ReportOf(InTurn(states, names));
      AllPlanned(input, WithOverrides(policy, report.overrides), again) && again.Keys == states.Keys
    ensures (forall n :: n in again ==> again[n].refusals == []) <==> !ReportOf(InTurn(states, names)).mustFix
    ensures forall n :: n in again ==> again[n].overrides == []
  {
    var sts := InTurn(states, names);
    var report := ReportOf(sts);
    ReportCollects(sts);
    forall n | n in again ensures (again[n].refusals == [] <==> !states[n].mustFix) && again[n].overrides == [] {
      var i :| 0 <= i < |names| && names[i] == n;
      forall o | o in states[n].overrides ensures o in report.overrides { assert o in sts[i].overrides; }
      ReplanClears(ContextOf(input, policy, n), StringsOf(input, n), states[n], report.overrides, again[n]);
    }
    MustFixSomewhere(states, names);
  }

  lemma {:induction false} MustFixSomewhere(states: States, names: seq<string>)
    requires forall n :: n in names <==> n in states
    ensures ReportOf(InTurn(states, names)).mustFix <==> exists n :: n in states && states[n].mustFix
  {
    var sts := InTurn(states, names);
    ReportCollects(sts);
    if ReportOf(sts).mustFix {
      var i :| 0 <= i < |sts| && sts[i].mustFix;
      assert names[i] in names && states[names[i]].mustFix;
    }
    if n :| n in states && states[n].mustFix {
      var i :| 0 <= i < |names| && names[i] == n;
      assert sts[i].mustFix;
    }
  }

  /** A render that succeeds keeps succeeding when more is allowed, with the same mounts. */
  lemma {:induction false} AllowingMoreKeepsPlans(
    input: Input, policy: Policy, states: States, overrides: seq<Override>, again: States, n: string)
    requires AllPlanned(input, policy, states) && AllPlanned(input, WithOverrides(policy, overrides), again)
    requires n in states && n in again && states[n].refusals == []
    ensures again[n].refusals == [] && again[n].mounts.Keys == states[n].mounts.Keys
  {
    var c := ContextOf(input, policy, n);
    var d := ContextOf(input, WithOverrides(policy, overrides), n);
    var vols := StringsOf(input, n);
    EveryVolumeSettled(c, vols, states[n]);
    ReplanClears(c, vols, states[n], overrides, again[n]);
    EveryVolumeSettled(d, vols, again[n]);
    forall v ensures v in again[n].mounts <==> v in states[n].mounts {
      assert RefusedMount(v) !in states[n].refusals && RefusedMount(v) !in again[n].refusals;
      assert Active(c, vols, v) <==> Active(d, vols, v);
    }
  }

  // ---- ConfigMaps of different services ----

  /** No two services' plans generate ConfigMaps of one name, which would be written to one file. */
  ghost predicate ConfigMapsApart(states: States) {
    forall a, b, name :: a in states && b in states && a != b && DeclaresConfigMap(states[a].configMaps, name) ==>
      !DeclaresConfigMap(states[b].configMaps, name)
  }

  /** One of the service's files is given this name. */
  ghost predicate GivenTo(input: Input, policy: Policy, n: string, name: string) {
    n in input.services && FileNamed(ContextOf(input, policy, n), StringsOf(input, n), name)
  }

  /** Names are kept apart within a plan only: across plans they are exactly when no two services' files are given one name. */
  lemma {:induction false} ConfigMapsApartIff(input: Input, policy: Policy, states: States)
    requires AllPlanned(input, policy, states)
    requires forall n :: n in states ==> NoneTaken(ContextOf(input, policy, n), Sources(ContextOf(input, policy, n), StringsOf(input, n)))
    ensures ConfigMapsApart(states) <==>
      forall a, b, name :: a in states && b in states && a != b && GivenTo(input, policy, a, name) ==>
        !GivenTo(input, policy, b, name)
  {
    forall n, name | n in states
      ensures DeclaresConfigMap(states[n].configMaps, name) <==> GivenTo(input, policy, n, name)
    {
      ConfigMapNamedIff(ContextOf(input, policy, n), StringsOf(input, n), states[n], name);
    }
  }

  /** A service with one volume string, for a file without a key. */
  ghost predicate MountsFile(c: Context, svc: ServiceVolumes, source: string, filename: string) {
    && svc == ServiceVolumes([source + ":/x"], [], []) && ':' !in source && IsBindMount(source)
    && c.host.read(source).File? && c.host.read(source).filename == filename && !HasPrivateKey(c.host.read(source).content)
    && c.secrets == map[]
  }

  lemma {:induction false} OneFileNamed(c: Context, svc: ServiceVolumes, source: string, filename: string)
    requires MountsFile(c, svc, source, filename)
    ensures NoneTaken(c, Sources(c, VolumeStrings(svc)))
    ensures FileNamed(c, VolumeStrings(svc), Sanitized(c.host.lower, c.host.hash, c.service + "-" + filename))
  {
    var vol := source + ":/x";
    assert vol == source + ":" + "/x" + "";
    ParsePrinted(c.host, source, "/x", None);
    assert VolumeStrings(svc) == [vol] && [vol][..0] == [];
    assert Sources(c, [vol]) == [source];
    assert !Held(c, [], BaseName(c, source));
    assert [source][..0] == [];
  }

  /** Service `p` with file `q-r` and service `p-q` with file `r` ask for one ConfigMap name, and both get it. */
  lemma {:induction false} SameConfigMapName(input: Input, policy: Policy, states: States, p: string, q: string, r: string,
                                             other: string, s: string, t: string)
    requires AllPlanned(input, policy, states) && p in states && other in states && other == p + "-" + q
    requires p in input.services && MountsFile(ContextOf(input, policy, p), input.services[p], s, q + "-" + r)
    requires other in input.services && MountsFile(ContextOf(input, policy, other), input.services[other], t, r)
    ensures !ConfigMapsApart(states)
  {
    DashesAssociate(p, q, r);
    TwoFilesAlike(input, policy, states, p, other, s, t, q + "-" + r, r);
  }

  lemma {:induction false} DashesAssociate(p: string, q: string, r: string)
    ensures p + "-" + (q + "-" + r) == p + "-" + q + "-" + r && |p| < |p + "-" + q|
  { }

  lemma {:induction false} TwoFilesAlike(input: Input, policy: Policy, states: States, a: string, b: string, s: string, t: string,
                                         f: string, g: string)
    requires AllPlanned(input, policy, states) && a in states && b in states && |a| < |b| && a + "-" + f == b + "-" + g
    requires a in input.services && MountsFile(ContextOf(input, policy, a), input.services[a], s, f)
    requires b in input.services && MountsFile(ContextOf(input, policy, b), input.services[b], t, g)
    ensures !ConfigMapsApart(states)
  {
    OneFileDeclared(input, policy, states, a, s, f);
    OneFileDeclared(input, policy, states, b, t, g);
  }

  lemma {:induction false} OneFileDeclared(input: Input, policy: Policy, states: States, n: string, source: string, filename: string)
    requires AllPlanned(input, policy, states) && n in states
    requires n in input.services && MountsFile(ContextOf(input, policy, n), input.services[n], source, filename)
    ensures DeclaresConfigMap(states[n].configMaps, Sanitized(input.host.lower, input.host.hash, n + "-" + filename))
  {
    var c := ContextOf(input, policy, n);
    OneFileNamed(c, input.services[n], source, filename);
    ConfigMapNamedIff(c, StringsOf(input, n), states[n], Sanitized(input.host.lower, input.host.hash, n + "-" + filename));
  }
}
