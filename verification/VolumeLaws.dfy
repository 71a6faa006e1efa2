/** What every volume plan satisfies. */
module VolumeLaws {
  import opened Options
  import opened Names
  import opened Colons
  import opened Ordering
  import opened VolumePlans

  function Source(c: Context, vol: string): string {
    ParseVolumeString(c.host, vol).source
  }

  /** A planned volume string with a destination. */
  predicate Active(c: Context, vols: seq<string>, vol: string) {
    vol in vols && ParseVolumeString(c.host, vol).dest != ""
  }

  predicate Mounts(c: Context, vol: string) {
    Decide(c, Source(c, vol)).Mount?
  }

  /** The state after the name for this volume string is claimed. */
  function Named(c: Context, st: PlanState, vol: string): PlanState {
    WithClaim(c, st, BaseName(c, Source(c, vol)), Source(c, vol))
  }

  function NameOf(c: Context, st: PlanState, vol: string): string {
    NameFor(c, st.names, BaseName(c, Source(c, vol)), Source(c, vol))
  }

  function RefusedAs(c: Context, st: PlanState, vol: string): PlanState
    requires !Mounts(c, vol)
  {
    WithRefusal(st, RefusedMount(vol), Some(Decide(c, Source(c, vol)).override))
  }

  predicate SameNames(s: PlanState, t: PlanState) {
    s.names == t.names && s.claims == t.claims && s.clash == t.clash
  }

  predicate SameVolumes(s: PlanState, t: PlanState) {
    s.mounts == t.mounts && s.podVolumes == t.podVolumes && s.configMaps == t.configMaps
  }

  lemma {:induction false} RefusalFields(st: PlanState, r: Refusal, o: Override)
    ensures
      var t := WithRefusal(st, r, Some(o));
      && t == st.(refusals := st.refusals + [r], overrides := t.overrides)
      && (forall x :: x in t.overrides <==> x in st.overrides || x == o)
      && (NoDuplicates(st.overrides) ==> NoDuplicates(t.overrides))
  { }

  lemma {:induction false} MountKeepsNames(c: Context, st: PlanState, vol: string, source: string, name: string)
    ensures SameNames(MountedAs(c, st, vol, source, name), st)
  { }

  /** What one call of add does: nothing, a mount after a claim, or a refusal after a claim or none. */
  lemma {:induction false} AddCases(c: Context, st: PlanState, vol: string)
    ensures
      var t := Added(c, st, vol);
      if vol in st.mounts || !Active(c, [vol], vol) then t == st
      else if Mounts(c, vol) then t == MountedAs(c, Named(c, st, vol), vol, Source(c, vol), NameOf(c, st, vol))
      else t == RefusedAs(c, st, vol) || t == RefusedAs(c, Named(c, st, vol), vol)
  { }

  lemma {:induction false} UnmatchedFields(st: PlanState, order: seq<string>)
    ensures
      var t := Unmatched(st, order);
      && t == st.(refusals := t.refusals, mustFix := st.mustFix || order != [])
      && |t.refusals| == |st.refusals| + |order|
      && forall r :: r in t.refusals <==> r in st.refusals || (r.UnmatchedSecret? && r.source in order)
  {
    if order != [] {
      var n := |order| - 1;
      assert order == order[..n] + [order[n]];
      UnmatchedFields(st, order[..n]);
    }
  }

  // ---- Every volume string is mounted or refused ----

  ghost predicate Refuses(c: Context, vols: seq<string>, o: Override) {
    exists v :: Active(c, vols, v) && Decide(c, Source(c, v)) == Refuse(o)
  }

  ghost predicate Covered(c: Context, vols: seq<string>, source: string) {
    exists v :: Active(c, vols, v) && Source(c, v) == source
  }

  /** The record of decisions so far. */
  ghost predicate Settled(c: Context, vols: seq<string>, st: PlanState) {
    && (forall v :: v in st.mounts <==> Active(c, vols, v) && Mounts(c, v))
    && (forall v :: RefusedMount(v) in st.refusals <==> Active(c, vols, v) && !Mounts(c, v))
    && (forall v :: v in st.warnings <==> Active(c, vols, v) && Warned(c, Source(c, v)))
    && (forall o :: o in st.overrides <==> Refuses(c, vols, o))
    && (forall s :: s in st.usedSecrets <==> s in c.secrets && Covered(c, vols, s))
    && NoDuplicates(st.overrides)
  }

  /** No secret mount has been reported yet. */
  predicate MountsOnly(st: PlanState) {
    !st.mustFix && forall k :: 0 <= k < |st.refusals| ==> st.refusals[k].RefusedMount?
  }

  lemma {:induction false} ActiveSnoc(c: Context, vols: seq<string>, vol: string)
    ensures forall v :: Active(c, vols + [vol], v) <==> Active(c, vols, v) || (v == vol && Active(c, [vol], vol))
  { }

  lemma {:induction false} RefusesSnoc(c: Context, vols: seq<string>, vol: string)
    ensures forall o :: Refuses(c, vols + [vol], o) <==>
        Refuses(c, vols, o) || (Active(c, [vol], vol) && Decide(c, Source(c, vol)) == Refuse(o))
    ensures forall s :: Covered(c, vols + [vol], s) <==>
        Covered(c, vols, s) || (Active(c, [vol], vol) && Source(c, vol) == s)
  {
    ActiveSnoc(c, vols, vol);
  }

  lemma {:induction false} MountSettles(c: Context, vols: seq<string>, st: PlanState, vol: string, name: string)
    requires Settled(c, vols, st) && Active(c, [vol], vol) && Mounts(c, vol)
    ensures Settled(c, vols + [vol], MountedAs(c, st, vol, Source(c, vol), name))
  {
    ActiveSnoc(c, vols, vol);
    RefusesSnoc(c, vols, vol);
  }

  lemma {:induction false} RefusalSettles(c: Context, vols: seq<string>, st: PlanState, vol: string)
    requires Settled(c, vols, st) && Active(c, [vol], vol) && !Mounts(c, vol)
    ensures Settled(c, vols + [vol], RefusedAs(c, st, vol))
  {
    ActiveSnoc(c, vols, vol);
    RefusesSnoc(c, vols, vol);
    RefusalFields(st, RefusedMount(vol), Decide(c, Source(c, vol)).override);
    RefusalRecorded(c, vols, st, RefusedAs(c, st, vol), vol, Decide(c, Source(c, vol)).override);
  }

  lemma {:induction false} RefusalRecorded(
    c: Context, vols: seq<string>, st: PlanState, t: PlanState, vol: string, o: Override)
    requires Settled(c, vols, st) && Active(c, [vol], vol) && Decide(c, Source(c, vol)) == Refuse(o)
    requires t == st.(refusals := st.refusals + [RefusedMount(vol)], overrides := t.overrides)
    requires NoDuplicates(t.overrides) && forall x :: x in t.overrides <==> x in st.overrides || x == o
    requires forall v :: Active(c, vols + [vol], v) <==> Active(c, vols, v) || v == vol
    requires forall x :: Refuses(c, vols + [vol], x) <==> Refuses(c, vols, x) || x == o
    requires forall s :: Covered(c, vols + [vol], s) <==> Covered(c, vols, s) || Source(c, vol) == s
    ensures Settled(c, vols + [vol], t)
  {
    assert Source(c, vol) !in c.secrets;
  }

  lemma {:induction false} SkipSettles(c: Context, vols: seq<string>, st: PlanState, vol: string)
    requires Settled(c, vols, st) && (vol in st.mounts || !Active(c, [vol], vol))
    ensures Settled(c, vols + [vol], st)
  {
    ActiveSnoc(c, vols, vol);
    RefusesSnoc(c, vols, vol);
  }

  lemma {:induction false} NamingSettles(c: Context, vols: seq<string>, st: PlanState, vol: string)
    requires Settled(c, vols, st) && MountsOnly(st)
    ensures Settled(c, vols, Named(c, st, vol)) && MountsOnly(Named(c, st, vol))
  { }

  lemma {:induction false} StaysMountsOnly(c: Context, st: PlanState, vol: string, name: string)
    requires MountsOnly(st)
    ensures MountsOnly(MountedAs(c, st, vol, Source(c, vol), name))
    ensures !Mounts(c, vol) ==> MountsOnly(RefusedAs(c, st, vol))
  { }

  lemma {:induction false} StepSettles(c: Context, vols: seq<string>, st: PlanState, vol: string)
    requires Settled(c, vols, st) && MountsOnly(st)
    ensures Settled(c, vols + [vol], Added(c, st, vol)) && MountsOnly(Added(c, st, vol))
  {
    AddCases(c, st, vol);
    NamingSettles(c, vols, st, vol);
    StaysMountsOnly(c, st, vol, "");
    StaysMountsOnly(c, Named(c, st, vol), vol, NameOf(c, st, vol));
    if vol in st.mounts || !Active(c, [vol], vol) {
      SkipSettles(c, vols, st, vol);
    } else if Mounts(c, vol) {
      MountSettles(c, vols, Named(c, st, vol), vol, NameOf(c, st, vol));
    } else {
      RefusalSettles(c, vols, st, vol);
      RefusalSettles(c, vols, Named(c, st, vol), vol);
    }
  }

  lemma {:induction false} AddedSettles(c: Context, vols: seq<string>)
    ensures Settled(c, vols, AddedAll(c, vols)) && MountsOnly(AddedAll(c, vols))
  {
    if vols != [] {
      var n := |vols| - 1;
      AddedSettles(c, vols[..n]);
      assert vols == vols[..n] + [vols[n]];
      StepSettles(c, vols[..n], AddedAll(c, vols[..n]), vols[n]);
    }
  }

  /**
    * Every volume string with a destination ends mounted or refused, never both; a refused one reports
    * the flag that would render it; a fallback is never silent; a secret mount that covers no volume is
    * refused, and only that has no flag.
    */
  lemma {:induction false} EveryVolumeSettled(c: Context, vols: seq<string>, st: PlanState)
    requires Planned(c, vols, st)
    ensures Settled(c, vols, st)
    ensures forall s :: UnmatchedSecret(s) in st.refusals <==> s in c.secrets && !Covered(c, vols, s)
    ensures st.mustFix <==> exists s :: UnmatchedSecret(s) in st.refusals
    ensures st.refusals == [] <==> st.overrides == [] && !st.mustFix
  {
    var before := AddedAll(c, vols);
    AddedSettles(c, vols);
    var order :| EnumeratesUnmatched(c, before, order) && st == Unmatched(before, order);
    UnmatchedFields(before, order);
    forall s ensures UnmatchedSecret(s) in st.refusals <==> s in order {
      assert UnmatchedSecret(s) !in before.refusals;
    }
    if order != [] {
      assert UnmatchedSecret(order[0]) in st.refusals;
    }
    if st.refusals != [] && !st.mustFix {
      assert st.refusals[0] in before.refusals;
      var v := st.refusals[0].vol;
      assert Refuses(c, vols, Decide(c, Source(c, v)).override);
    }
    if st.overrides != [] {
      assert Refuses(c, vols, st.overrides[0]);
      var v :| Active(c, vols, v) && Decide(c, Source(c, v)) == Refuse(st.overrides[0]);
      assert RefusedMount(v) in st.refusals;
    }
  }

  /** Reports and volumes are appended as the strings come: what further strings add follows what is there. */
  lemma {:induction false} AddingAppends(c: Context, vols: seq<string>, more: seq<string>)
    ensures Extends(AddedAll(c, vols), AddedAll(c, vols + more))
    decreases |more|
  {
    if more == [] {
      assert vols + more == vols;
    } else {
      var n := |more| - 1;
      var all := vols + more;
      assert all[..|all| - 1] == vols + more[..n];
      AddingAppends(c, vols, more[..n]);
      AddExtends(c, AddedAll(c, vols + more[..n]), more[n]);
    }
  }

  predicate Extends(s: PlanState, t: PlanState) {
    && s.refusals <= t.refusals && s.warnings <= t.warnings && s.overrides <= t.overrides
    && s.podVolumes <= t.podVolumes && s.configMaps <= t.configMaps
  }

  lemma {:induction false} AddExtends(c: Context, st: PlanState, vol: string)
    ensures Extends(st, Added(c, st, vol))
  {
    AddCases(c, st, vol);
    MountExtends(c, Named(c, st, vol), vol, NameOf(c, st, vol));
    if !Mounts(c, vol) {
      RefusalExtends(c, st, vol);
      RefusalExtends(c, Named(c, st, vol), vol);
    }
  }

  lemma {:induction false} MountExtends(c: Context, st: PlanState, vol: string, name: string)
    ensures Extends(st, MountedAs(c, st, vol, Source(c, vol), name))
  { }

  lemma {:induction false} RefusalExtends(c: Context, st: PlanState, vol: string)
    requires !Mounts(c, vol)
    ensures Extends(st, RefusedAs(c, st, vol))
  { }

  /** The strings of a plan come first among its refusals, in their order; secret mounts that cover none follow. */
  lemma {:induction false} UnmatchedComeLast(c: Context, vols: seq<string>, st: PlanState)
    requires Planned(c, vols, st)
    ensures Extends(AddedAll(c, vols), st)
  {
    var order :| EnumeratesUnmatched(c, AddedAll(c, vols), order) && st == Unmatched(AddedAll(c, vols), order);
    UnmatchedExtends(AddedAll(c, vols), order);
  }

  lemma {:induction false} UnmatchedExtends(st: PlanState, order: seq<string>)
    ensures Extends(st, Unmatched(st, order))
  {
    if order != [] { UnmatchedExtends(st, order[..|order| - 1]); }
  }

  /** A refused string is refused once per mention, an unused secret mount once, and no string is warned of twice. */
  lemma {:induction false} ReportedOnce(c: Context, vols: seq<string>, st: PlanState, v: string)
    requires Planned(c, vols, st)
    ensures multiset(st.refusals)[RefusedMount(v)] == if Active(c, vols, v) && !Mounts(c, v) then multiset(vols)[v] else 0
    ensures multiset(st.refusals)[UnmatchedSecret(v)] == if v in c.secrets && !Covered(c, vols, v) then 1 else 0
    ensures NoDuplicates(st.warnings)
  {
    var before := AddedAll(c, vols);
    var order :| EnumeratesUnmatched(c, before, order) && st == Unmatched(before, order);
    EveryVolumeSettled(c, vols, st);
    AddedSettles(c, vols);
    UnmatchedFields(before, order);
    RefusedPerMention(c, vols, v);
    UnmatchedCount(before, order, RefusedMount(v));
    UnmatchedCount(before, order, UnmatchedSecret(v));
    NoDuplicatesCounts(order);
    WarnedOnce(c, vols);
  }

  function OneIf(b: bool): nat {
    if b then 1 else 0
  }

  lemma {:induction false} UnmatchedCount(st: PlanState, order: seq<string>, r: Refusal)
    ensures multiset(Unmatched(st, order).refusals)[r]
         == multiset(st.refusals)[r] + (if r.UnmatchedSecret? then multiset(order)[r.source] else 0)
  {
    if order != [] {
      var n := |order| - 1;
      assert order == order[..n] + [order[n]];
      UnmatchedCount(st, order[..n], r);
    }
  }

  lemma {:induction false} RefusedPerMention(c: Context, vols: seq<string>, v: string)
    ensures multiset(AddedAll(c, vols).refusals)[RefusedMount(v)] == if Active(c, [v], v) && !Mounts(c, v) then multiset(vols)[v] else 0
  {
    if vols != [] {
      var n := |vols| - 1;
      assert vols == vols[..n] + [vols[n]];
      RefusedPerMention(c, vols[..n], v);
      AddedSettles(c, vols[..n]);
      RefusedOnce(c, AddedAll(c, vols[..n]), vols[n], v);
    }
  }

  lemma {:induction false} RefusedOnce(c: Context, st: PlanState, vol: string, v: string)
    requires vol in st.mounts ==> Mounts(c, vol)
    ensures multiset(Added(c, st, vol).refusals)[RefusedMount(v)]
         == multiset(st.refusals)[RefusedMount(v)] + OneIf(vol == v && Active(c, [v], v) && !Mounts(c, v))
  {
    AddCases(c, st, vol);
  }

  lemma {:induction false} WarnedOnce(c: Context, vols: seq<string>)
    ensures NoDuplicates(AddedAll(c, vols).warnings)
  {
    if vols != [] {
      var n := |vols| - 1;
      var st := AddedAll(c, vols[..n]);
      WarnedOnce(c, vols[..n]);
      AddedSettles(c, vols[..n]);
      AddCases(c, st, vols[n]);
      assert vols[n] !in st.mounts ==> vols[n] !in st.warnings;
    }
  }

  // ---- Replanning with the reported flags ----

  /** The policy with the reported flags given. */
  function WithOverrides(p: Policy, overrides: seq<Override>): Policy {
    Policy(p.emptyDir || UseEmptyDir in overrides, p.configMap || UseConfigMap in overrides)
  }

  /** Given some flags, exactly the refusals that name another one remain. */
  lemma {:induction false} RefusalsShrink(c: Context, overrides: seq<Override>, vols: seq<string>, o: Override)
    ensures Refuses(c.(policy := WithOverrides(c.policy, overrides)), vols, o) <==> Refuses(c, vols, o) && o !in overrides
  {
    var d := c.(policy := WithOverrides(c.policy, overrides));
    if v :| Active(d, vols, v) && Decide(d, Source(d, v)) == Refuse(o) {
      assert Active(c, vols, v) && Decide(c, Source(c, v)) == Refuse(o);
    }
    if v :| Active(c, vols, v) && Decide(c, Source(c, v)) == Refuse(o) && o !in overrides {
      assert Active(d, vols, v) && Decide(d, Source(d, v)) == Refuse(o);
    }
  }

  /** With at least the reported flags, nothing but an unmatched secret mount is refused. */
  lemma {:induction false} OverridesSuffice(c: Context, vols: seq<string>, st: PlanState, overrides: seq<Override>)
    requires Planned(c, vols, st) && forall o :: o in st.overrides ==> o in overrides
    ensures forall o :: !Refuses(c.(policy := WithOverrides(c.policy, overrides)), vols, o)
  {
    var d := c.(policy := WithOverrides(c.policy, overrides));
    EveryVolumeSettled(c, vols, st);
    forall o ensures !Refuses(d, vols, o) {
      if Refuses(d, vols, o) {
        RefusalsShrink(c, overrides, vols, o);
      }
    }
  }

  /** Replanning with the reported flags clears every refusal exactly when none of them had to be fixed. */
  lemma {:induction false} ReplanClears(
    c: Context, vols: seq<string>, st: PlanState, overrides: seq<Override>, replanned: PlanState)
    requires Planned(c, vols, st) && forall o :: o in st.overrides ==> o in overrides
    requires Planned(c.(policy := WithOverrides(c.policy, overrides)), vols, replanned)
    ensures replanned.refusals == [] <==> !st.mustFix
    ensures replanned.mustFix == st.mustFix && replanned.overrides == []
  {
    var d := c.(policy := WithOverrides(c.policy, overrides));
    OverridesSuffice(c, vols, st, overrides);
    EveryVolumeSettled(c, vols, st);
    EveryVolumeSettled(d, vols, replanned);
    SomeOverride(replanned.overrides);
    forall s ensures Covered(c, vols, s) <==> Covered(d, vols, s) {
      if Covered(c, vols, s) { SameCover(c, d, vols, s); }
      if Covered(d, vols, s) { SameCover(d, c, vols, s); }
    }
    forall s ensures UnmatchedSecret(s) in st.refusals <==> UnmatchedSecret(s) in replanned.refusals { }
  }

  lemma {:induction false} SomeOverride(overrides: seq<Override>)
    ensures overrides == [] || exists o :: o in overrides
  {
    if overrides != [] {
      assert overrides[0] in overrides;
    }
  }

  lemma {:induction false} SameCover(c: Context, d: Context, vols: seq<string>, s: string)
    requires c.host == d.host && Covered(c, vols, s)
    ensures Covered(d, vols, s)
  {
    var v :| Active(c, vols, v) && Source(c, v) == s;
    assert Active(d, vols, v) && Source(d, v) == s;
  }

  // ---- Names ----

  /** Two sources were given the same name. */
  ghost predicate Shared(claims: seq<Claim>) {
    exists p, q :: p in claims && q in claims && p.name == q.name && p.source != q.source
  }

  /** Each claim's name is the one the source would be given again. */
  ghost predicate Stable(c: Context, names: map<string, string>, claims: seq<Claim>) {
    forall p :: p in claims ==>
      p.name in names && names[p.name] == p.source && p.name == NameFor(c, names, BaseName(c, p.source), p.source)
  }

  /** Every owner on record claimed the name. */
  ghost predicate Recorded(names: map<string, string>, claims: seq<Claim>) {
    forall n :: n in names ==> Claim(n, names[n]) in claims
  }

  ghost predicate Owned(c: Context, st: PlanState) {
    && Recorded(st.names, st.claims)
    && (forall p :: p in st.claims ==> IsLabel(p.name))
    && (st.clash ==> Shared(st.claims))
    && (!st.clash ==> Stable(c, st.names, st.claims))
  }

  lemma {:induction false} NameForIsLabel(c: Context, names: map<string, string>, source: string)
    ensures IsLabel(NameFor(c, names, BaseName(c, source), source))
  {
    var base := BaseName(c, source);
    BaseNameIsLabel(c, source);
    WithSuffixIsLabel(base, c.host.hash(source));
  }

  lemma {:induction false} BaseNameIsLabel(c: Context, source: string)
    ensures IsLabel(BaseName(c, source))
  {
    if source in c.secrets {
      SanitizedIsLabel(c.host.lower, c.host.hash, c.secrets[source].secretName);
    } else if ReadsFile(c, source) {
      SanitizedIsLabel(c.host.lower, c.host.hash, c.service + "-" + c.host.read(source).filename);
    } else {
      SanitizedIsLabel(c.host.lower, c.host.hash, source);
    }
  }

  lemma {:induction false} ClaimKeepsStable(c: Context, st: PlanState, source: string)
    requires Stable(c, st.names, st.claims)
    requires !Clashes(st.names, NameFor(c, st.names, BaseName(c, source), source), source)
    ensures var t := WithClaim(c, st, BaseName(c, source), source); Stable(c, t.names, t.claims)
  {
    var t := WithClaim(c, st, BaseName(c, source), source);
    var name := NameFor(c, st.names, BaseName(c, source), source);
    forall p | p in t.claims
      ensures p.name in t.names && t.names[p.name] == p.source
           && p.name == NameFor(c, t.names, BaseName(c, p.source), p.source)
    {
      if p in st.claims {
        var base := BaseName(c, p.source);
        assert base in st.names;
        if base == name {
          assert st.names[name] == source;
        }
      } else {
        assert p == Claim(name, source);
      }
    }
  }

  lemma {:induction false} StaysShared(claims: seq<Claim>, p: Claim)
    requires Shared(claims)
    ensures Shared(claims + [p])
  {
    var x, y :| x in claims && y in claims && x.name == y.name && x.source != y.source;
    assert x in claims + [p] && y in claims + [p];
  }

  lemma {:induction false} ClashShares(names: map<string, string>, claims: seq<Claim>, name: string, source: string)
    requires Recorded(names, claims) && Clashes(names, name, source)
    ensures Shared(claims + [Claim(name, source)])
  {
    assert Claim(name, names[name]) in claims + [Claim(name, source)];
    assert Claim(name, source) in claims + [Claim(name, source)];
  }

  lemma {:induction false} StaysRecorded(names: map<string, string>, claims: seq<Claim>, name: string, source: string)
    requires Recorded(names, claims)
    ensures Recorded(names[name := source], claims + [Claim(name, source)])
  { }

  lemma {:induction false} ClaimKeepsOwned(c: Context, st: PlanState, source: string)
    requires Owned(c, st)
    ensures Owned(c, WithClaim(c, st, BaseName(c, source), source))
  {
    var name := NameFor(c, st.names, BaseName(c, source), source);
    NameForIsLabel(c, st.names, source);
    StaysRecorded(st.names, st.claims, name, source);
    if st.clash {
      StaysShared(st.claims, Claim(name, source));
    } else if Clashes(st.names, name, source) {
      ClashShares(st.names, st.claims, name, source);
    } else {
      ClaimKeepsStable(c, st, source);
    }
  }

  lemma {:induction false} OwnedDependsOn(c: Context, s: PlanState, t: PlanState)
    requires Owned(c, s) && SameNames(s, t)
    ensures Owned(c, t)
  { }

  lemma {:induction false} PlannedOwned(c: Context, vols: seq<string>, st: PlanState)
    requires Planned(c, vols, st)
    ensures Owned(c, st)
  {
    var before := AddedAll(c, vols);
    AddedForeseen(c, vols);
    var order :| EnumeratesUnmatched(c, before, order) && st == Unmatched(before, order);
    UnmatchedFields(before, order);
  }

  /** Every name handed out is a label. */
  lemma {:induction false} NamesAreLabels(c: Context, vols: seq<string>, st: PlanState)
    requires Planned(c, vols, st)
    ensures forall p :: p in st.claims ==> IsLabel(p.name)
    ensures forall v :: v in st.mounts ==> IsLabel(st.mounts[v].name)
    ensures forall pv :: pv in st.podVolumes ==> IsLabel(pv.name)
    ensures forall cm :: cm in st.configMaps ==> IsLabel(cm.name)
  {
    PlannedOwned(c, vols, st);
    PlannedBacked(c, vols, st);
  }

  // ---- When two sources share a name ----

  /** A source whose volume strings ask for a name: all but those refused unread. */
  predicate ClaimsName(c: Context, source: string) {
    !Unreadable(c, source) || c.policy.emptyDir
  }

  /** The sources that ask for a name, in order of first mention. */
  function Sources(c: Context, vols: seq<string>): seq<string> {
    if vols == [] then []
    else
      var n := |vols| - 1;
      var before, s := Sources(c, vols[..n]), Source(c, vols[n]);
      if Active(c, [vols[n]], vols[n]) && ClaimsName(c, s) && s !in before then before + [s] else before
  }

  function Suffixed(c: Context, source: string): string {
    WithSuffix(BaseName(c, source), c.host.hash(source))
  }

  /** The name a source gets after the given ones: its own, or the suffixed one if that is held. */
  ghost function NameGiven(c: Context, before: seq<string>, source: string): string
    decreases |before|, 1
  {
    if Held(c, before, BaseName(c, source)) then Suffixed(c, source) else BaseName(c, source)
  }

  ghost predicate Held(c: Context, order: seq<string>, name: string)
    decreases |order|, 0
  {
    exists j :: 0 <= j < |order| && NameGiven(c, order[..j], order[j]) == name
  }

  /** Earlier sources hold both names the source could get. */
  ghost predicate Taken(c: Context, before: seq<string>, source: string) {
    Held(c, before, BaseName(c, source)) && Held(c, before, Suffixed(c, source))
  }

  ghost predicate NoneTaken(c: Context, order: seq<string>) {
    forall k :: 0 <= k < |order| ==> !Taken(c, order[..k], order[k])
  }

  /** The sources seen so far have claimed the names given to them, and nothing else has been claimed. */
  ghost predicate Tracks(c: Context, order: seq<string>, st: PlanState) {
    && (forall p :: p in st.claims ==> p.source in order)
    && (forall j :: 0 <= j < |order| ==> Claim(NameGiven(c, order[..j], order[j]), order[j]) in st.claims)
  }

  lemma {:induction false} NamesAreHeld(c: Context, order: seq<string>, st: PlanState, name: string)
    requires Tracks(c, order, st) && Stable(c, st.names, st.claims) && Recorded(st.names, st.claims)
    ensures name in st.names <==> Held(c, order, name)
  {
    if name in st.names {
      var j :| 0 <= j < |order| && order[j] == st.names[name];
      assert Claim(NameGiven(c, order[..j], order[j]), order[j]) in st.claims;
      assert Claim(name, order[j]) in st.claims;
    }
    if Held(c, order, name) {
      var j :| 0 <= j < |order| && NameGiven(c, order[..j], order[j]) == name;
      assert Claim(name, order[j]) in st.claims;
    }
  }

  lemma {:induction false} ClaimAgain(c: Context, order: seq<string>, st: PlanState, source: string)
    requires Tracks(c, order, st) && Stable(c, st.names, st.claims) && source in order
    ensures !Clashes(st.names, NameFor(c, st.names, BaseName(c, source), source), source)
    ensures Tracks(c, order, WithClaim(c, st, BaseName(c, source), source))
  {
    var j :| 0 <= j < |order| && order[j] == source;
    assert Claim(NameGiven(c, order[..j], order[j]), source) in st.claims;
  }

  /** A new source gets the name given to it, and clashes exactly when both its names are held. */
  lemma {:induction false} ClaimFirst(c: Context, order: seq<string>, st: PlanState, source: string)
    requires Tracks(c, order, st) && Stable(c, st.names, st.claims) && Recorded(st.names, st.claims) && source !in order
    ensures var name := NameFor(c, st.names, BaseName(c, source), source);
      name == NameGiven(c, order, source) && (Clashes(st.names, name, source) <==> Taken(c, order, source))
  {
    NamesAreHeld(c, order, st, BaseName(c, source));
    NamesAreHeld(c, order, st, Suffixed(c, source));
    forall n | n in st.names ensures st.names[n] != source {
      assert Claim(n, st.names[n]) in st.claims;
    }
  }

  lemma {:induction false} TracksNext(c: Context, order: seq<string>, st: PlanState, source: string)
    requires Tracks(c, order, st) && NameFor(c, st.names, BaseName(c, source), source) == NameGiven(c, order, source)
    ensures Tracks(c, order + [source], WithClaim(c, st, BaseName(c, source), source))
  {
    var grown, t := order + [source], WithClaim(c, st, BaseName(c, source), source);
    forall j | 0 <= j < |grown| ensures Claim(NameGiven(c, grown[..j], grown[j]), grown[j]) in t.claims {
      assert grown[..j] == order[..j];
      assert order[..|order|] == order;
    }
  }

  lemma {:induction false} NoneTakenNext(c: Context, order: seq<string>, source: string)
    ensures NoneTaken(c, order + [source]) <==> NoneTaken(c, order) && !Taken(c, order, source)
  {
    var grown := order + [source];
    assert forall k :: 0 <= k <= |order| ==> grown[..k] == order[..k];
    assert order[..|order|] == order && grown[|order|] == source;
    forall k | 0 <= k < |order| ensures Taken(c, grown[..k], grown[k]) <==> Taken(c, order[..k], order[k]) { }
  }

  /** One claim, seen from outside: the flag follows the sources. */
  ghost predicate Foreseen(c: Context, order: seq<string>, st: PlanState) {
    Owned(c, st) && (st.clash <==> !NoneTaken(c, order)) && (!st.clash ==> Tracks(c, order, st))
  }

  lemma {:induction false} ClaimForeseen(c: Context, order: seq<string>, st: PlanState, source: string)
    requires Foreseen(c, order, st)
    ensures Foreseen(c, if source in order then order else order + [source], WithClaim(c, st, BaseName(c, source), source))
  {
    ClaimKeepsOwned(c, st, source);
    NoneTakenNext(c, order, source);
    if !st.clash {
      if source in order {
        ClaimAgain(c, order, st, source);
      } else {
        ClaimFirst(c, order, st, source);
        TracksNext(c, order, st, source);
      }
    }
  }

  /** Whether a call of add asks for a name. */
  lemma {:induction false} AddClaims(c: Context, st: PlanState, vol: string)
    ensures SameNames(Added(c, st, vol),
      if vol !in st.mounts && Active(c, [vol], vol) && ClaimsName(c, Source(c, vol)) then Named(c, st, vol) else st)
  {
    if vol !in st.mounts && Active(c, [vol], vol) && Mounts(c, vol) {
      AddCases(c, st, vol);
      MountKeepsNames(c, Named(c, st, vol), vol, Source(c, vol), NameOf(c, st, vol));
    }
  }

  lemma {:induction false} ForeseenDependsOn(c: Context, order: seq<string>, s: PlanState, t: PlanState)
    requires Foreseen(c, order, s) && SameNames(s, t)
    ensures Foreseen(c, order, t)
  {
    OwnedDependsOn(c, s, t);
  }

  /** A mounted string's source has asked for its name. */
  lemma {:induction false} MountedIsSource(c: Context, vols: seq<string>, vol: string)
    requires Active(c, vols, vol) && ClaimsName(c, Source(c, vol))
    ensures Source(c, vol) in Sources(c, vols)
  {
    var n := |vols| - 1;
    assert vols == vols[..n] + [vols[n]];
    if vol != vols[n] {
      MountedIsSource(c, vols[..n], vol);
    }
  }

  lemma {:induction false} AddedForeseen(c: Context, vols: seq<string>)
    ensures Foreseen(c, Sources(c, vols), AddedAll(c, vols))
  {
    if vols != [] {
      var n := |vols| - 1;
      AddedForeseen(c, vols[..n]);
      AddForeseen(c, vols[..n], vols[n]);
      assert vols[..n] + [vols[n]] == vols;
    }
  }

  lemma {:induction false} AddForeseen(c: Context, vols: seq<string>, vol: string)
    requires Foreseen(c, Sources(c, vols), AddedAll(c, vols))
    ensures Foreseen(c, Sources(c, vols + [vol]), AddedAll(c, vols + [vol]))
  {
    var st, order, source := AddedAll(c, vols), Sources(c, vols), Source(c, vol);
    assert (vols + [vol])[..|vols|] == vols;
    AddClaims(c, st, vol);
    AddedSettles(c, vols);
    ClaimForeseen(c, order, st, source);
    if vol in st.mounts {
      MountedIsSource(c, vols, vol);
      ForeseenDependsOn(c, order, st, Added(c, st, vol));
    } else if Active(c, [vol], vol) && ClaimsName(c, source) {
      ForeseenDependsOn(c, Sources(c, vols + [vol]), Named(c, st, vol), Added(c, st, vol));
    } else {
      ForeseenDependsOn(c, order, st, Added(c, st, vol));
    }
  }

  lemma {:induction false} PlannedForeseen(c: Context, vols: seq<string>, st: PlanState)
    requires Planned(c, vols, st)
    ensures st.clash <==> !NoneTaken(c, Sources(c, vols))
  {
    var before := AddedAll(c, vols);
    AddedForeseen(c, vols);
    var order :| EnumeratesUnmatched(c, before, order) && st == Unmatched(before, order);
    UnmatchedFields(before, order);
  }

  lemma {:induction false} PlannedTracks(c: Context, vols: seq<string>, st: PlanState)
    requires Planned(c, vols, st) && NoneTaken(c, Sources(c, vols))
    ensures Tracks(c, Sources(c, vols), st)
  {
    var before := AddedAll(c, vols);
    AddedForeseen(c, vols);
    var order :| EnumeratesUnmatched(c, before, order) && st == Unmatched(before, order);
    UnmatchedFields(before, order);
  }

  /**
    * Two claims name the same volume exactly when they are for the same source, if and only if no source
    * comes after others that hold both names it could get.
    */
  lemma {:induction false} NamesOneToOneIff(c: Context, vols: seq<string>, st: PlanState)
    requires Planned(c, vols, st)
    ensures NoneTaken(c, Sources(c, vols)) <==>
      forall p, q :: p in st.claims && q in st.claims ==> (p.name == q.name <==> p.source == q.source)
  {
    PlannedOwned(c, vols, st);
    PlannedForeseen(c, vols, st);
  }

  /** No suffixed name is one that another of the sources could get. */
  ghost predicate SuffixesFree(c: Context, order: seq<string>) {
    forall s, t :: s in order && t in order && s != t ==>
      Suffixed(c, s) != BaseName(c, t) && Suffixed(c, s) != Suffixed(c, t)
  }

  lemma {:induction false} SourcesDistinct(c: Context, vols: seq<string>)
    ensures NoDuplicates(Sources(c, vols))
  {
    if vols != [] {
      SourcesDistinct(c, vols[..|vols| - 1]);
    }
  }

  /** A condition on the sources pair by pair that is enough. */
  lemma {:induction false} SuffixesFreeSuffices(c: Context, vols: seq<string>)
    requires SuffixesFree(c, Sources(c, vols))
    ensures NoneTaken(c, Sources(c, vols))
  {
    var order := Sources(c, vols);
    SourcesDistinct(c, vols);
    forall k | 0 <= k < |order| ensures !Taken(c, order[..k], order[k]) {
      SuffixNotHeld(c, order, order[..k], order[k]);
    }
  }

  lemma {:induction false} GivenEither(c: Context, before: seq<string>, source: string)
    ensures NameGiven(c, before, source) in [BaseName(c, source), Suffixed(c, source)]
  { }

  lemma {:induction false} SuffixNotHeld(c: Context, order: seq<string>, before: seq<string>, source: string)
    requires SuffixesFree(c, order) && source in order && source !in before && forall s :: s in before ==> s in order
    ensures !Held(c, before, Suffixed(c, source))
  {
    forall j | 0 <= j < |before| ensures NameGiven(c, before[..j], before[j]) != Suffixed(c, source) {
      GivenEither(c, before[..j], before[j]);
      assert before[j] in before;
    }
  }

  /** Some earlier source of the same base name is enough for that name to be held. */
  lemma {:induction false} SameBaseHolds(c: Context, before: seq<string>, j: nat, source: string)
    requires j < |before| && BaseName(c, before[j]) == BaseName(c, source)
    ensures Held(c, before, BaseName(c, source))
    decreases j
  {
    if Held(c, before[..j], BaseName(c, before[j])) {
      var i :| 0 <= i < j && NameGiven(c, before[..j][..i], before[..j][i]) == BaseName(c, source);
      assert before[..j][..i] == before[..i];
      assert NameGiven(c, before[..i], before[i]) == BaseName(c, source);
    } else {
      assert NameGiven(c, before[..j], before[j]) == BaseName(c, source);
    }
  }

  /** A source after another of the same base name, and after one given its suffixed name, shares that name. */
  lemma {:induction false} PrecededShares(c: Context, vols: seq<string>, i: nat, j: nat, k: nat)
    requires i < k && j < k < |Sources(c, vols)|
    requires var order := Sources(c, vols);
      BaseName(c, order[i]) == BaseName(c, order[k]) && NameGiven(c, order[..j], order[j]) == Suffixed(c, order[k])
    ensures !NoneTaken(c, Sources(c, vols))
  {
    var order := Sources(c, vols);
    assert order[..k][i] == order[i];
    SameBaseHolds(c, order[..k], i, order[k]);
    assert order[..k][..j] == order[..j] && order[..k][j] == order[j];
    assert Held(c, order[..k], Suffixed(c, order[k]));
    assert Taken(c, order[..k], order[k]);
  }

  // ---- Every mount is backed ----

  predicate DistinctVolumes(vs: seq<PodVolume>) {
    forall i, j :: 0 <= i < j < |vs| ==> vs[i].name != vs[j].name
  }

  predicate DistinctConfigMaps(cms: seq<ConfigMap>) {
    forall i, j :: 0 <= i < j < |cms| ==> cms[i].name != cms[j].name
  }

  ghost predicate MountsDeclared(c: Context, st: PlanState) {
    forall v :: v in st.mounts ==>
      && Claim(st.mounts[v].name, Source(c, v)) in st.claims
      && st.mounts[v] == ExpectedMount(c, v, st.mounts[v].name)
      && DeclaresVolume(st.podVolumes, st.mounts[v].name)
      && (ReadsFile(c, Source(c, v)) ==> DeclaresConfigMap(st.configMaps, st.mounts[v].name))
  }

  /** Some mount of this pod volume is the one it was declared for. */
  ghost predicate DeclaredFor(c: Context, st: PlanState, pv: PodVolume) {
    exists v :: v in st.mounts && st.mounts[v].name == pv.name && pv.backing == ExpectedBacking(c, Source(c, v), pv.name)
  }

  ghost predicate FilledFrom(c: Context, st: PlanState, cm: ConfigMap) {
    exists v :: v in st.mounts && st.mounts[v].name == cm.name && IsContentOf(c, Source(c, v), cm)
  }

  /** The ConfigMap holds this source's file under the key its mounts ask for. */
  predicate IsContentOf(c: Context, source: string, cm: ConfigMap) {
    ReadsFile(c, source) &&
    var file := c.host.read(source);
    cm.key == c.host.configMapKey(file.filename) && cm.content == file.content
  }

  ghost predicate Backed(c: Context, st: PlanState) {
    && DistinctVolumes(st.podVolumes)
    && DistinctConfigMaps(st.configMaps)
    && MountsDeclared(c, st)
    && (forall pv :: pv in st.podVolumes ==> DeclaredFor(c, st, pv))
    && (forall cm :: cm in st.configMaps ==> FilledFrom(c, st, cm))
  }

  lemma {:induction false} DeclaredMonotone(s: PlanState, t: PlanState)
    requires s.podVolumes <= t.podVolumes && s.configMaps <= t.configMaps
    ensures forall n :: DeclaresVolume(s.podVolumes, n) ==> DeclaresVolume(t.podVolumes, n)
    ensures forall n :: DeclaresConfigMap(s.configMaps, n) ==> DeclaresConfigMap(t.configMaps, n)
  {
    forall n | DeclaresVolume(s.podVolumes, n) ensures DeclaresVolume(t.podVolumes, n) {
      var k :| 0 <= k < |s.podVolumes| && s.podVolumes[k].name == n;
      assert t.podVolumes[k].name == n;
    }
    forall n | DeclaresConfigMap(s.configMaps, n) ensures DeclaresConfigMap(t.configMaps, n) {
      var k :| 0 <= k < |s.configMaps| && s.configMaps[k].name == n;
      assert t.configMaps[k].name == n;
    }
  }

  lemma {:induction false} VolumeDeclared(vs: seq<PodVolume>, pv: PodVolume)
    ensures DeclaresVolume(WithVolume(vs, pv), pv.name)
    ensures DistinctVolumes(vs) ==> DistinctVolumes(WithVolume(vs, pv))
  {
    if !DeclaresVolume(vs, pv.name) {
      assert WithVolume(vs, pv)[|vs|] == pv;
    }
  }

  lemma {:induction false} FileDeclared(c: Context, cms: seq<ConfigMap>, source: string, name: string)
    ensures ReadsFile(c, source) ==> DeclaresConfigMap(WithFile(c, cms, source, name), name)
    ensures DistinctConfigMaps(cms) ==> DistinctConfigMaps(WithFile(c, cms, source, name))
  {
    if ReadsFile(c, source) && !DeclaresConfigMap(cms, name) {
      assert WithFile(c, cms, source, name)[|cms|].name == name;
    }
  }

  lemma {:induction false} MountDeclares(c: Context, st: PlanState, vol: string, name: string)
    requires MountsDeclared(c, st) && Claim(name, Source(c, vol)) in st.claims
    ensures MountsDeclared(c, MountedAs(c, st, vol, Source(c, vol), name))
  {
    var source := Source(c, vol);
    DeclaredMonotone(st, MountedAs(c, st, vol, source, name));
    VolumeDeclared(st.podVolumes, PodVolume(name, ExpectedBacking(c, source, name)));
    FileDeclared(c, st.configMaps, source, name);
  }

  lemma {:induction false} VolumesStayDeclared(c: Context, st: PlanState, vol: string, name: string)
    requires vol !in st.mounts && forall pv :: pv in st.podVolumes ==> DeclaredFor(c, st, pv)
    ensures var t := MountedAs(c, st, vol, Source(c, vol), name);
      forall pv :: pv in t.podVolumes ==> DeclaredFor(c, t, pv)
  {
    var t := MountedAs(c, st, vol, Source(c, vol), name);
    forall pv | pv in t.podVolumes ensures DeclaredFor(c, t, pv) {
      if pv in st.podVolumes {
        var v :| v in st.mounts && st.mounts[v].name == pv.name && pv.backing == ExpectedBacking(c, Source(c, v), pv.name);
        assert t.mounts[v] == st.mounts[v];
      } else {
        assert t.mounts[vol].name == pv.name;
      }
    }
  }

  lemma {:induction false} ConfigMapsStayFilled(c: Context, st: PlanState, vol: string, name: string)
    requires vol !in st.mounts && forall cm :: cm in st.configMaps ==> FilledFrom(c, st, cm)
    ensures var t := MountedAs(c, st, vol, Source(c, vol), name);
      forall cm :: cm in t.configMaps ==> FilledFrom(c, t, cm)
  {
    var t := MountedAs(c, st, vol, Source(c, vol), name);
    forall cm | cm in t.configMaps ensures FilledFrom(c, t, cm) {
      if cm in st.configMaps {
        var v :| v in st.mounts && st.mounts[v].name == cm.name && IsContentOf(c, Source(c, v), cm);
        assert t.mounts[v] == st.mounts[v];
      } else {
        assert t.mounts[vol].name == cm.name && IsContentOf(c, Source(c, vol), cm);
      }
    }
  }

  lemma {:induction false} MountKeepsBacked(c: Context, st: PlanState, vol: string, name: string)
    requires Backed(c, st) && vol !in st.mounts && Claim(name, Source(c, vol)) in st.claims
    ensures Backed(c, MountedAs(c, st, vol, Source(c, vol), name))
  {
    MountDeclares(c, st, vol, name);
    VolumesStayDeclared(c, st, vol, name);
    ConfigMapsStayFilled(c, st, vol, name);
    VolumeDeclared(st.podVolumes, PodVolume(name, ExpectedBacking(c, Source(c, vol), name)));
    FileDeclared(c, st.configMaps, Source(c, vol), name);
  }

  lemma {:induction false} BackedDependsOn(c: Context, s: PlanState, t: PlanState)
    requires Backed(c, s) && SameVolumes(s, t)
    requires forall p :: p in s.claims ==> p in t.claims
    ensures Backed(c, t)
  {
    forall pv | pv in t.podVolumes ensures DeclaredFor(c, t, pv) {
      assert DeclaredFor(c, s, pv);
    }
    forall cm | cm in t.configMaps ensures FilledFrom(c, t, cm) {
      assert FilledFrom(c, s, cm);
    }
  }

  lemma {:induction false} NamingKeepsBacked(c: Context, st: PlanState, vol: string)
    requires Backed(c, st)
    ensures Backed(c, Named(c, st, vol)) && Claim(NameOf(c, st, vol), Source(c, vol)) in Named(c, st, vol).claims
  {
    BackedDependsOn(c, st, Named(c, st, vol));
  }

  lemma {:induction false} RefusalKeepsBacked(c: Context, st: PlanState, vol: string)
    requires Backed(c, st) && !Mounts(c, vol)
    ensures Backed(c, RefusedAs(c, st, vol))
  {
    RefusalFields(st, RefusedMount(vol), Decide(c, Source(c, vol)).override);
    BackedDependsOn(c, st, RefusedAs(c, st, vol));
  }

  lemma {:induction false} StepBacked(c: Context, st: PlanState, vol: string)
    requires Backed(c, st)
    ensures Backed(c, Added(c, st, vol))
  {
    AddCases(c, st, vol);
    NamingKeepsBacked(c, st, vol);
    if vol !in st.mounts && Active(c, [vol], vol) {
      if Mounts(c, vol) {
        MountKeepsBacked(c, Named(c, st, vol), vol, NameOf(c, st, vol));
      } else {
        RefusalKeepsBacked(c, st, vol);
        RefusalKeepsBacked(c, Named(c, st, vol), vol);
      }
    }
  }

  lemma {:induction false} AddedBacked(c: Context, vols: seq<string>)
    ensures Backed(c, AddedAll(c, vols))
  {
    if vols != [] {
      var n := |vols| - 1;
      AddedBacked(c, vols[..n]);
      StepBacked(c, AddedAll(c, vols[..n]), vols[n]);
    }
  }

  lemma {:induction false} PlannedBacked(c: Context, vols: seq<string>, st: PlanState)
    requires Planned(c, vols, st)
    ensures Backed(c, st)
  {
    var before := AddedAll(c, vols);
    AddedBacked(c, vols);
    var order :| EnumeratesUnmatched(c, before, order) && st == Unmatched(before, order);
    UnmatchedFields(before, order);
    BackedDependsOn(c, before, st);
  }

  ghost predicate NamesOneVolume(vs: seq<PodVolume>, name: string) {
    exists k :: 0 <= k < |vs| && vs[k].name == name && forall j :: 0 <= j < |vs| && vs[j].name == name ==> j == k
  }

  /** A mount names exactly one declared pod volume, and every declared one is mounted. */
  lemma {:induction false} MountsNameOneVolume(c: Context, vols: seq<string>, st: PlanState)
    requires Planned(c, vols, st)
    ensures forall v :: v in st.mounts ==>
      st.mounts[v] == ExpectedMount(c, v, st.mounts[v].name) && NamesOneVolume(st.podVolumes, st.mounts[v].name)
    ensures forall pv :: pv in st.podVolumes ==> DeclaredFor(c, st, pv)
  {
    PlannedBacked(c, vols, st);
    forall v | v in st.mounts ensures NamesOneVolume(st.podVolumes, st.mounts[v].name) {
      var k :| 0 <= k < |st.podVolumes| && st.podVolumes[k].name == st.mounts[v].name;
    }
  }

  /** Unless both names of some source are taken, the pod volume behind a mount is that of its own source. */
  lemma {:induction false} MountsOwnSource(c: Context, vols: seq<string>, st: PlanState, vol: string)
    requires Planned(c, vols, st) && NoneTaken(c, Sources(c, vols)) && vol in st.mounts
    ensures PodVolume(st.mounts[vol].name, ExpectedBacking(c, Source(c, vol), st.mounts[vol].name)) in st.podVolumes
  {
    var name := st.mounts[vol].name;
    PlannedOwned(c, vols, st);
    PlannedForeseen(c, vols, st);
    PlannedBacked(c, vols, st);
    var k :| 0 <= k < |st.podVolumes| && st.podVolumes[k].name == name;
    assert DeclaredFor(c, st, st.podVolumes[k]);
    var v :| v in st.mounts && st.mounts[v].name == name && st.podVolumes[k].backing == ExpectedBacking(c, Source(c, v), name);
    assert Source(c, v) == st.names[name] == Source(c, vol);
  }

  /** Under the same condition the ConfigMap behind a mounted file holds that file. */
  lemma {:induction false} MountsOwnContent(c: Context, vols: seq<string>, st: PlanState, vol: string)
    requires Planned(c, vols, st) && NoneTaken(c, Sources(c, vols)) && vol in st.mounts && ReadsFile(c, Source(c, vol))
    ensures exists cm :: cm in st.configMaps && cm.name == st.mounts[vol].name && IsContentOf(c, Source(c, vol), cm)
  {
    var name := st.mounts[vol].name;
    PlannedOwned(c, vols, st);
    PlannedForeseen(c, vols, st);
    PlannedBacked(c, vols, st);
    var k :| 0 <= k < |st.configMaps| && st.configMaps[k].name == name;
    assert FilledFrom(c, st, st.configMaps[k]);
    var w :| w in st.mounts && st.mounts[w].name == name && IsContentOf(c, Source(c, w), st.configMaps[k]);
    assert Source(c, w) == st.names[name] == Source(c, vol);
  }

  /** A source whose file is rendered into a ConfigMap. */
  predicate Renders(c: Context, source: string) {
    ReadsFile(c, source) && Decide(c, source).Mount?
  }

  /** Some rendered source is given this name. */
  ghost predicate FileNamed(c: Context, vols: seq<string>, name: string) {
    exists k :: 0 <= k < |Sources(c, vols)| && Renders(c, Sources(c, vols)[k])
      && NameGiven(c, Sources(c, vols)[..k], Sources(c, vols)[k]) == name
  }

  lemma {:induction false} SourceHasVolume(c: Context, vols: seq<string>, source: string) returns (v: string)
    requires source in Sources(c, vols)
    ensures Active(c, vols, v) && Source(c, v) == source
  {
    var n := |vols| - 1;
    assert vols == vols[..n] + [vols[n]];
    if source in Sources(c, vols[..n]) {
      v := SourceHasVolume(c, vols[..n], source);
    } else {
      v := vols[n];
    }
  }

  /** The name behind a mount is the one its source is given. */
  lemma {:induction false} MountNameGiven(c: Context, vols: seq<string>, st: PlanState, v: string, k: nat)
    requires Planned(c, vols, st) && NoneTaken(c, Sources(c, vols)) && v in st.mounts
    requires k < |Sources(c, vols)| && Sources(c, vols)[k] == Source(c, v)
    ensures st.mounts[v].name == NameGiven(c, Sources(c, vols)[..k], Sources(c, vols)[k])
  {
    PlannedOwned(c, vols, st);
    PlannedForeseen(c, vols, st);
    PlannedTracks(c, vols, st);
    PlannedBacked(c, vols, st);
    assert Claim(NameGiven(c, Sources(c, vols)[..k], Sources(c, vols)[k]), Source(c, v)) in st.claims;
    assert Claim(st.mounts[v].name, Source(c, v)) in st.claims;
  }

  /** The names of the ConfigMaps of a plan, read off its volume strings. */
  lemma {:induction false} ConfigMapNamedIff(c: Context, vols: seq<string>, st: PlanState, name: string)
    requires Planned(c, vols, st) && NoneTaken(c, Sources(c, vols))
    ensures DeclaresConfigMap(st.configMaps, name) <==> FileNamed(c, vols, name)
  {
    var order := Sources(c, vols);
    EveryVolumeSettled(c, vols, st);
    PlannedBacked(c, vols, st);
    if DeclaresConfigMap(st.configMaps, name) {
      var i :| 0 <= i < |st.configMaps| && st.configMaps[i].name == name;
      assert FilledFrom(c, st, st.configMaps[i]);
      var v :| v in st.mounts && st.mounts[v].name == name && IsContentOf(c, Source(c, v), st.configMaps[i]);
      MountedIsSource(c, vols, v);
      var k :| 0 <= k < |order| && order[k] == Source(c, v);
      MountNameGiven(c, vols, st, v, k);
    }
    if FileNamed(c, vols, name) {
      var k :| 0 <= k < |order| && Renders(c, order[k]) && NameGiven(c, order[..k], order[k]) == name;
      var v := SourceHasVolume(c, vols, order[k]);
      MountNameGiven(c, vols, st, v, k);
    }
  }

  /** What mountsFor hands a container: each mounted string once, every mount on a declared pod volume. */
  lemma {:induction false} ContainerMountsDeclared(c: Context, vols: seq<string>, st: PlanState, volumes: seq<string>)
    requires Planned(c, vols, st)
    ensures
      var chosen := FirstMounted(st.mounts, volumes);
      var ms := MountList(st.mounts, chosen);
      && (forall k :: 0 <= k < |ms| ==> DeclaresVolume(st.podVolumes, ms[k].name))
      && ((forall v :: v in volumes ==> Active(c, vols, v) && Mounts(c, v)) ==> forall v :: v in volumes ==> v in chosen)
  {
    PlannedBacked(c, vols, st);
    EveryVolumeSettled(c, vols, st);
  }

  // ---- A printed volume string, spelled out ----

  function Print(source: string, dest: string, options: Option<string>): string {
    source + ":" + dest + if options.None? then "" else ":" + options.value
  }

  /** A path on the host begins with a slash, a tilde, or a dot and a slash or dot. */
  lemma {:induction false} BindMountMeans(source: string)
    ensures IsBindMount(source) <==>
      |source| >= 1 && (source[0] in ['/', '~'] || (|source| >= 2 && source[0] == '.' && source[1] in ['/', '.']))
  { }

  ghost predicate HoldsKey(content: string) {
    exists a, b :: content == a + "PRIVATE KEY-----" + b
  }

  lemma {:induction false} HoldsKeyIff(content: string)
    ensures HasPrivateKey(content) <==> HoldsKey(content)
  {
    if HasPrivateKey(content) {
      var i :| 0 <= i <= |content| && PEM_MARKER <= content[i..];
      assert content == content[..i] + "PRIVATE KEY-----" + content[i..][|PEM_MARKER|..];
    }
    if HoldsKey(content) {
      var a, b :| content == a + "PRIVATE KEY-----" + b;
      assert content[|a|..] == "PRIVATE KEY-----" + b;
    }
  }

  /** What a source can be mounted as; a refusal names the flag that would allow it. */
  ghost predicate Allowed(c: Context, source: string) {
    || source in c.secrets
    || !IsBindMount(source)
    || match c.host.read(source)
       case File(content, _) => HoldsKey(content) ==> c.policy.configMap
       case Unrepresentable => c.policy.emptyDir
  }

  lemma {:induction false} AllowedIff(c: Context, source: string)
    ensures Decide(c, source).Mount? <==> Allowed(c, source)
    ensures !Allowed(c, source) ==>
      Decide(c, source) == Refuse(if c.host.read(source).Unrepresentable? then UseEmptyDir else UseConfigMap)
  {
    if c.host.read(source).File? {
      HoldsKeyIff(c.host.read(source).content);
    }
  }

  /** A volume string with a destination is mounted when its source allows it, and refused with its flag when not. */
  lemma {:induction false} PrintedSettled(c: Context, vols: seq<string>, st: PlanState, source: string, dest: string, options: Option<string>)
    requires Planned(c, vols, st) && ':' !in source && ':' !in dest && Print(source, dest, options) in vols
    ensures var v := Print(source, dest, options);
      && (v in st.mounts <==> dest != "" && Allowed(c, source))
      && (RefusedMount(v) in st.refusals <==> dest != "" && !Allowed(c, source))
      && (dest != "" && !Allowed(c, source) ==>
            (if c.host.read(source).Unrepresentable? then UseEmptyDir else UseConfigMap) in st.overrides)
      && (v in st.warnings <==>
            && v in st.mounts && source !in c.secrets && IsBindMount(source)
            && match c.host.read(source)
               case File(content, _) => HoldsKey(content)
               case Unrepresentable => true)
  {
    if c.host.read(source).File? {
      HoldsKeyIff(c.host.read(source).content);
    }
    var v := Print(source, dest, options);
    ParsePrinted(c.host, source, dest, options);
    EveryVolumeSettled(c, vols, st);
    AllowedIff(c, source);
    if dest != "" && !Allowed(c, source) {
      assert Active(c, vols, v) && Decide(c, Source(c, v)) == Refuse(Decide(c, source).override);
      assert Refuses(c, vols, Decide(c, source).override);
    }
  }

  /**
   * Where it is mounted, with which key and access: at its destination; a secret and a file read-only, under the
   * declared key or the one made of the file's name; anything else whole, as the options ask.
   */
  lemma {:induction false} PrintedMount(c: Context, vols: seq<string>, st: PlanState, source: string, dest: string, options: Option<string>)
    requires Planned(c, vols, st) && ':' !in source && ':' !in dest && Print(source, dest, options) in st.mounts
    ensures var m := st.mounts[Print(source, dest, options)];
      && m.path == dest
      && if source in c.secrets then
           m.readOnly && m.subPath == (if c.secrets[source].key != "" then c.secrets[source].key
                                       else c.host.configMapKey(c.host.baseName(source)))
         else if IsBindMount(source) && c.host.read(source).File? then
           m.readOnly && m.subPath == c.host.configMapKey(c.host.read(source).filename)
         else m.subPath == "" && (m.readOnly <==> options.Some? && c.host.optionsReadOnly(options.value))
  {
    ParsePrinted(c.host, source, dest, options);
    MountsNameOneVolume(c, vols, st);
  }

  /** A string without a colon is mounted under its own name. */
  lemma {:induction false} BareMount(c: Context, vols: seq<string>, st: PlanState, v: string)
    requires Planned(c, vols, st) && ':' !in v && v in st.mounts
    ensures st.mounts[v].path == v && Source(c, v) == v
  {
    FirstColonAfter(v, "");
    assert v + "" == v;
    MountsNameOneVolume(c, vols, st);
  }

  /** What is behind it: the Secret, the claim, the file's ConfigMap, or an empty directory. */
  lemma {:induction false} PrintedBacking(c: Context, vols: seq<string>, st: PlanState, source: string, dest: string, options: Option<string>)
    requires Planned(c, vols, st) && NoneTaken(c, Sources(c, vols))
    requires ':' !in source && ':' !in dest && Print(source, dest, options) in st.mounts
    ensures var name := st.mounts[Print(source, dest, options)].name;
      if source in c.secrets then PodVolume(name, FromSecret(c.secrets[source].secretName)) in st.podVolumes
      else if !IsBindMount(source) && source in c.declared then PodVolume(name, PersistentClaim(source)) in st.podVolumes
      else if IsBindMount(source) && c.host.read(source).File? then
        && PodVolume(name, FromConfigMap(name)) in st.podVolumes
        && ConfigMap(name, c.host.configMapKey(c.host.read(source).filename), c.host.read(source).content) in st.configMaps
      else PodVolume(name, EmptyDir) in st.podVolumes
  {
    var v := Print(source, dest, options);
    ParsePrinted(c.host, source, dest, options);
    MountsOwnSource(c, vols, st, v);
    if ReadsFile(c, source) {
      MountsOwnContent(c, vols, st, v);
      var cm :| cm in st.configMaps && cm.name == st.mounts[v].name && IsContentOf(c, source, cm);
      assert cm == ConfigMap(st.mounts[v].name, c.host.configMapKey(c.host.read(source).filename), c.host.read(source).content);
    }
  }

  /** What it is called: after the Secret, the service and the file, or the source; with the source's digest if that is held. */
  lemma {:induction false} PrintedName(c: Context, vols: seq<string>, st: PlanState, source: string, dest: string, options: Option<string>)
    requires Planned(c, vols, st) && NoneTaken(c, Sources(c, vols))
    requires ':' !in source && ':' !in dest && Print(source, dest, options) in st.mounts
    ensures var text := if source in c.secrets then c.secrets[source].secretName
                        else if IsBindMount(source) && c.host.read(source).File? then c.service + "-" + c.host.read(source).filename
                        else source;
      var name, base := st.mounts[Print(source, dest, options)].name, Sanitized(c.host.lower, c.host.hash, text);
      && (name == base || name == WithSuffix(base, c.host.hash(source)))
      && (Sources(c, vols) != [] && Sources(c, vols)[0] == source ==> name == base)
  {
    var v := Print(source, dest, options);
    ParsePrinted(c.host, source, dest, options);
    EveryVolumeSettled(c, vols, st);
    MountedIsSource(c, vols, v);
    var order := Sources(c, vols);
    var k :| 0 <= k < |order| && order[k] == source;
    MountNameGiven(c, vols, st, v, k);
    GivenEither(c, order[..k], source);
    if order[0] == source {
      MountNameGiven(c, vols, st, v, 0);
      assert order[..0] == [];
    }
  }

  // ---- A clash ----

  /** One named volume of the composition, mounted for the first time. */
  lemma {:induction false} NamedVolumeAdded(c: Context, st: PlanState, source: string, base: string)
    requires ':' !in source && source !in c.secrets && source in c.declared && !IsBindMount(source)
    requires base == Sanitized(c.host.lower, c.host.hash, source) && source + ":/x" !in st.mounts
    ensures
      var vol := source + ":/x";
      var name := NameFor(c, st.names, base, source);
      var t := Added(c, st, vol);
      && Source(c, vol) == source && vol in t.mounts && t.mounts == st.mounts[vol := t.mounts[vol]]
      && t.mounts[vol].name == name
      && t.names == st.names[name := source]
      && t.podVolumes == WithVolume(st.podVolumes, PodVolume(name, PersistentClaim(source)))
      && t.clash == (st.clash || Clashes(st.names, name, source))
  {
    var vol := source + ":/x";
    assert vol == source + ":" + "/x" + "";
    ParsePrinted(c.host, source, "/x", None);
    AddCases(c, st, vol);
  }

  lemma {:induction false} SuffixedNames(c: Context)
    requires c.host.lower("a") == "a" && c.host.lower("A") == "a"
    requires var taken := "a-" + c.host.hash("A"); c.host.lower(taken) == taken
    ensures Sanitized(c.host.lower, c.host.hash, "a") == "a"
    ensures Sanitized(c.host.lower, c.host.hash, "A") == "a"
    ensures var taken := "a-" + c.host.hash("A");
      Sanitized(c.host.lower, c.host.hash, taken) == taken == WithSuffix("a", c.host.hash("A"))
  {
    var h := c.host.hash("A");
    assert "a-" + h == "a" + "-" + h;
    SanitizedFixesLabels(c.host.lower, c.host.hash, "a");
    SuffixedIsLabel("a", h);
    SuffixedSingleDashes("a", h);
    SanitizedFixesLabels(c.host.lower, c.host.hash, "a-" + h);
    CollapseFixes("a", false);
  }

  /**
    * Names are not always one-to-one: a volume already called what the suffix makes of another's name
    * ends up mounted in its place, whatever the digest. Volume "A" is given the claim of "a-<digest of A>".
    */
  lemma {:induction false} SuffixAlreadyTaken(c: Context)
    requires c.secrets == map[] && c.host.lower("a") == "a" && c.host.lower("A") == "a"
    requires var taken := "a-" + c.host.hash("A"); c.host.lower(taken) == taken && c.declared == {"a", taken, "A"}
    ensures
      var taken := "a-" + c.host.hash("A");
      var st := AddedAll(c, ["a:/x", taken + ":/x", "A:/x"]);
      && st.clash && "A:/x" in st.mounts && st.mounts["A:/x"].name == taken
      && st.podVolumes == [PodVolume("a", PersistentClaim("a")), PodVolume(taken, PersistentClaim(taken))]
  {
    var taken := "a-" + c.host.hash("A");
    SuffixedNames(c);
    assert taken[0] == 'a' && |taken| == 10 && ':' !in taken;
    DistinctPrefixes(taken);
    AddedThree(c, "a:/x", taken + ":/x", "A:/x");
    var two := Added(c, Added(c, EmptyPlan(), "a:/x"), taken + ":/x");
    FirstTwo(c, taken);
    ThirdTakes(c, two, taken);
  }

  lemma {:induction false} ThirdTakes(c: Context, two: PlanState, taken: string)
    requires c.secrets == map[] && "A" in c.declared && "A:/x" !in two.mounts && taken != "a" && taken != "A"
    requires Sanitized(c.host.lower, c.host.hash, "A") == "a" && WithSuffix("a", c.host.hash("A")) == taken
    requires two.names == map["a" := "a", taken := taken]
    requires two.podVolumes == [PodVolume("a", PersistentClaim("a")), PodVolume(taken, PersistentClaim(taken))]
    ensures
      var st := Added(c, two, "A:/x");
      st.clash && "A:/x" in st.mounts && st.mounts["A:/x"].name == taken && st.podVolumes == two.podVolumes
  {
    assert "A" + ":/x" == "A:/x" && "A"[0] == 'A';
    NamedVolumeAdded(c, two, "A", "a");
    assert two.podVolumes[1].name == taken;
  }

  lemma {:induction false} FirstTwo(c: Context, taken: string)
    requires ':' !in taken && taken != "a" && taken + ":/x" != "a:/x" && "a" <= taken
    requires c.secrets == map[] && "a" in c.declared && taken in c.declared
    requires Sanitized(c.host.lower, c.host.hash, "a") == "a" && Sanitized(c.host.lower, c.host.hash, taken) == taken
    ensures
      var two := Added(c, Added(c, EmptyPlan(), "a:/x"), taken + ":/x");
      && two.names == map["a" := "a", taken := taken] && two.mounts.Keys == {"a:/x", taken + ":/x"}
      && two.podVolumes == [PodVolume("a", PersistentClaim("a")), PodVolume(taken, PersistentClaim(taken))]
  {
    assert "a" + ":/x" == "a:/x" && "a"[0] == 'a' && taken[0] == 'a';
    NamedVolumeAdded(c, EmptyPlan(), "a", "a");
    NamedVolumeAdded(c, Added(c, EmptyPlan(), "a:/x"), taken, taken);
  }

  lemma {:induction false} AddedThree(c: Context, x: string, y: string, z: string)
    ensures AddedAll(c, [x, y, z]) == Added(c, Added(c, Added(c, EmptyPlan(), x), y), z)
  {
    assert [x, y, z][..2] == [x, y] && [x, y][..1] == [x] && [x][..0] == [];
    assert AddedAll(c, [x]) == Added(c, EmptyPlan(), x);
    assert AddedAll(c, [x, y]) == Added(c, AddedAll(c, [x]), y);
  }

  lemma {:induction false} DistinctPrefixes(taken: string)
    requires |taken| == 10
    ensures taken + ":/x" != "a:/x" && taken + ":/x" != "A:/x"
  {
    assert |taken + ":/x"| == 13;
  }
}
