/** The Kubernetes volume planner: one service's volume strings to pod volumes, mounts and ConfigMaps. */
module VolumePlans {
  import opened Options
  import opened Names
  import opened Colons
  import opened Ordering

  const PEM_MARKER := "PRIVATE KEY-----"

  datatype SecretMount = SecretMount(source: string, secretName: string, key: string)

  datatype InitVolumes = InitVolumes(volumes: seq<string>)

  datatype ServiceVolumes = ServiceVolumes(volumes: seq<string>, inits: seq<InitVolumes>, secretMounts: seq<SecretMount>)

  /** What reading a bind source gives: the file, or a reason it has no Kubernetes equivalent. */
  datatype BindSource = File(content: string, filename: string) | Unrepresentable

  /** The machine doing the rendering and the library functions the planner calls, each a fixed function. */
  datatype Host = Host(
    lower: Lower,
    hash: Digest,
    read: string -> BindSource,
    baseName: string -> string,
    configMapKey: string -> string,
    optionsReadOnly: string -> bool)

  /** The two policies of RenderOptions: whether the fallback is allowed. */
  datatype Policy = Policy(emptyDir: bool, configMap: bool)

  /** The flag that would render a refused mount anyway. */
  datatype Override = UseEmptyDir | UseConfigMap

  datatype Backing =
    | PersistentClaim(claimName: string)
    | EmptyDir
    | FromSecret(secretName: string)
    | FromConfigMap(configMap: string)

  datatype PodVolume = PodVolume(name: string, backing: Backing)

  datatype ConfigMap = ConfigMap(name: string, key: string, content: string)

  datatype VolumeMount = VolumeMount(name: string, path: string, subPath: string, readOnly: bool)

  datatype Refusal = RefusedMount(vol: string) | UnmatchedSecret(source: string)

  /** What one service is planned against. */
  datatype Context = Context(
    host: Host,
    service: string,
    secrets: map<string, SecretMount>,
    declared: set<string>,
    policy: Policy)

  // ---- Volume strings ----

  datatype Parsed = Parsed(source: string, dest: string, readOnly: bool)

  /** `source:dest[:options]`; a string without a colon is both source and destination. */
  function ParseVolumeString(host: Host, vol: string): Parsed {
    var i := FirstColon(vol);
    if i == |vol| then Parsed(vol, vol, false)
    else
      var rest := vol[i + 1..];
      var j := FirstColon(rest);
      if j == |rest| then Parsed(vol[..i], rest, false)
      else Parsed(vol[..i], rest[..j], host.optionsReadOnly(rest[j + 1..]))
  }

  /** A printed volume string is read back; everything after the second colon is options. */
  lemma {:induction false} ParsePrinted(host: Host, source: string, dest: string, options: Option<string>)
    requires ':' !in source && ':' !in dest
    ensures ParseVolumeString(host, source + ":" + dest + if options.None? then "" else ":" + options.value)
         == Parsed(source, dest, options.Some? && host.optionsReadOnly(options.value))
  {
    var tail := if options.None? then "" else ":" + options.value;
    var rest := dest + tail;
    var vol := source + ":" + dest + tail;
    assert vol == source + (":" + rest);
    FirstColonAfter(source, ":" + rest);
    assert vol[..|source|] == source && vol[|source| + 1..] == rest;
    FirstColonAfter(dest, tail);
    if options.None? {
      assert rest == dest;
    } else {
      assert rest[..|dest|] == dest && rest[|dest| + 1..] == options.value;
    }
  }

  predicate IsBindMount(source: string) {
    "/" <= source || "./" <= source || "~" <= source || ".." <= source
  }

  /** The content holds a PEM private key. */
  predicate HasPrivateKey(content: string) {
    exists i :: 0 <= i <= |content| && PEM_MARKER <= content[i..]
  }

  // ---- The decision, which is a function of the source alone ----

  datatype Decision = Mount | Refuse(override: Override)

  predicate ReadsFile(c: Context, source: string) {
    source !in c.secrets && IsBindMount(source) && c.host.read(source).File?
  }

  predicate Unreadable(c: Context, source: string) {
    source !in c.secrets && IsBindMount(source) && c.host.read(source).Unrepresentable?
  }

  predicate CarriesKey(c: Context, source: string) {
    ReadsFile(c, source) && HasPrivateKey(c.host.read(source).content)
  }

  function Decide(c: Context, source: string): Decision {
    if Unreadable(c, source) && !c.policy.emptyDir then Refuse(UseEmptyDir)
    else if CarriesKey(c, source) && !c.policy.configMap then Refuse(UseConfigMap)
    else Mount
  }

  /** The mount is rendered only because a policy allows the fallback. */
  predicate Warned(c: Context, source: string) {
    Decide(c, source).Mount? && (Unreadable(c, source) || CarriesKey(c, source))
  }

  /** The name a source asks for. */
  function BaseName(c: Context, source: string): string {
    if source in c.secrets then Sanitized(c.host.lower, c.host.hash, c.secrets[source].secretName)
    else if ReadsFile(c, source) then
      Sanitized(c.host.lower, c.host.hash, c.service + "-" + c.host.read(source).filename)
    else Sanitized(c.host.lower, c.host.hash, source)
  }

  /** What a pod volume for this source has to hold. */
  function ExpectedBacking(c: Context, source: string, name: string): Backing {
    if source in c.secrets then FromSecret(c.secrets[source].secretName)
    else if ReadsFile(c, source) then FromConfigMap(name)
    else if !IsBindMount(source) && source in c.declared then PersistentClaim(source)
    else EmptyDir
  }

  function ExpectedMount(c: Context, vol: string, name: string): VolumeMount {
    var p := ParseVolumeString(c.host, vol);
    if p.source in c.secrets then
      var sm := c.secrets[p.source];
      VolumeMount(name, p.dest, if sm.key == "" then c.host.configMapKey(c.host.baseName(p.source)) else sm.key, true)
    else if ReadsFile(c, p.source) then
      VolumeMount(name, p.dest, c.host.configMapKey(c.host.read(p.source).filename), true)
    else VolumeMount(name, p.dest, "", p.readOnly)
  }

  // ---- The plan as a value ----

  datatype Claim = Claim(name: string, source: string)

  /**
    * The planner's fields, with two observations of it: every name handed out, and whether a suffixed
    * name was ever handed out while another source owned it.
    */
  datatype PlanState = PlanState(
    mounts: map<string, VolumeMount>,
    podVolumes: seq<PodVolume>,
    configMaps: seq<ConfigMap>,
    warnings: seq<string>,
    refusals: seq<Refusal>,
    overrides: seq<Override>,
    mustFix: bool,
    names: map<string, string>,
    usedSecrets: set<string>,
    claims: seq<Claim>,
    clash: bool)

  function EmptyPlan(): PlanState {
    PlanState(map[], [], [], [], [], [], false, map[], {}, [], false)
  }

  predicate DeclaresVolume(vs: seq<PodVolume>, name: string) {
    exists k :: 0 <= k < |vs| && vs[k].name == name
  }

  predicate DeclaresConfigMap(cms: seq<ConfigMap>, name: string) {
    exists k :: 0 <= k < |cms| && cms[k].name == name
  }

  function NameFor(c: Context, names: map<string, string>, base: string, source: string): string {
    if base !in names || names[base] == source then base else WithSuffix(base, c.host.hash(source))
  }

  predicate Clashes(names: map<string, string>, name: string, source: string) {
    name in names && names[name] != source
  }

  function WithClaim(c: Context, st: PlanState, base: string, source: string): PlanState {
    var name := NameFor(c, st.names, base, source);
    st.(names := st.names[name := source],
        claims := st.claims + [Claim(name, source)],
        clash := st.clash || Clashes(st.names, name, source))
  }

  function WithVolume(vs: seq<PodVolume>, pv: PodVolume): seq<PodVolume> {
    if DeclaresVolume(vs, pv.name) then vs else vs + [pv]
  }

  function WithConfigMap(cms: seq<ConfigMap>, cm: ConfigMap): seq<ConfigMap> {
    if DeclaresConfigMap(cms, cm.name) then cms else cms + [cm]
  }

  function WithRefusal(st: PlanState, refusal: Refusal, override: Option<Override>): PlanState {
    var refused := st.(refusals := st.refusals + [refusal]);
    match override
    case None => refused.(mustFix := true)
    case Some(o) => if o in st.overrides then refused else refused.(overrides := st.overrides + [o])
  }

  function WithFile(c: Context, cms: seq<ConfigMap>, source: string, name: string): seq<ConfigMap> {
    if ReadsFile(c, source) then
      var file := c.host.read(source);
      WithConfigMap(cms, ConfigMap(name, c.host.configMapKey(file.filename), file.content))
    else cms
  }

  /** A mounted volume string: a name, a pod volume of that name, the ConfigMap a file needs, the mount. */
  function MountedAs(c: Context, st: PlanState, vol: string, source: string, name: string): PlanState {
    st.(mounts := st.mounts[vol := ExpectedMount(c, vol, name)],
        podVolumes := WithVolume(st.podVolumes, PodVolume(name, ExpectedBacking(c, source, name))),
        configMaps := WithFile(c, st.configMaps, source, name),
        warnings := if Warned(c, source) then st.warnings + [vol] else st.warnings,
        usedSecrets := if source in c.secrets then st.usedSecrets + {source} else st.usedSecrets)
  }

  function Mounted(c: Context, st: PlanState, vol: string): PlanState {
    var source := ParseVolumeString(c.host, vol).source;
    var base := BaseName(c, source);
    MountedAs(c, WithClaim(c, st, base, source), vol, source, NameFor(c, st.names, base, source))
  }

  /** A file's name is claimed before its content is looked at, so a refused key keeps the name. */
  function Refused(c: Context, st: PlanState, vol: string): PlanState {
    var source := ParseVolumeString(c.host, vol).source;
    if Unreadable(c, source) then WithRefusal(st, RefusedMount(vol), Some(UseEmptyDir))
    else WithRefusal(WithClaim(c, st, BaseName(c, source), source), RefusedMount(vol), Some(UseConfigMap))
  }

  function Added(c: Context, st: PlanState, vol: string): PlanState {
    var p := ParseVolumeString(c.host, vol);
    if vol in st.mounts || p.dest == "" then st
    else if Decide(c, p.source).Mount? then Mounted(c, st, vol)
    else Refused(c, st, vol)
  }

  function AddedAll(c: Context, vols: seq<string>): PlanState {
    if vols == [] then EmptyPlan() else Added(c, AddedAll(c, vols[..|vols| - 1]), vols[|vols| - 1])
  }

  function Unmatched(st: PlanState, order: seq<string>): PlanState {
    if order == [] then st
    else WithRefusal(Unmatched(st, order[..|order| - 1]), UnmatchedSecret(order[|order| - 1]), None)
  }

  /** The unmatched secret mounts, in some order: a Go map is iterated in any. */
  ghost predicate EnumeratesUnmatched(c: Context, st: PlanState, order: seq<string>) {
    NoDuplicates(order) && forall s :: s in order <==> s in c.secrets && s !in st.usedSecrets
  }

  /** The states planVolumes can end in: the map's iteration order is the only choice. */
  ghost predicate Planned(c: Context, vols: seq<string>, st: PlanState) {
    exists order :: EnumeratesUnmatched(c, AddedAll(c, vols), order) && st == Unmatched(AddedAll(c, vols), order)
  }

  // ---- The planner ----

  function InitStrings(inits: seq<InitVolumes>): seq<string> {
    if inits == [] then [] else InitStrings(inits[..|inits| - 1]) + inits[|inits| - 1].volumes
  }

  /** A service's own volume strings, then those of its init containers. */
  function VolumeStrings(svc: ServiceVolumes): seq<string> {
    svc.volumes + InitStrings(svc.inits)
  }

  /** The init containers' strings follow one another as declared. */
  lemma {:induction false} InitStringsJoined(a: seq<InitVolumes>, x: InitVolumes, b: seq<InitVolumes>)
    ensures InitStrings(a + [x] + b) == InitStrings(a) + x.volumes + InitStrings(b)
  {
    if b == [] {
      assert (a + [x])[..|a|] == a && a + [x] + b == a + [x];
    } else {
      var n := |b| - 1;
      InitStringsJoined(a, x, b[..n]);
      assert (a + [x] + b)[..|a| + 1 + n] == a + [x] + b[..n];
    }
  }

  /** A service's own strings come first. */
  lemma {:induction false} VolumeStringsJoined(svc: ServiceVolumes, a: seq<InitVolumes>, x: InitVolumes, b: seq<InitVolumes>)
    requires svc.inits == a + [x] + b
    ensures VolumeStrings(svc) == svc.volumes + InitStrings(a) + x.volumes + InitStrings(b)
  {
    InitStringsJoined(a, x, b);
    assert svc.volumes + (InitStrings(a) + x.volumes + InitStrings(b)) == svc.volumes + InitStrings(a) + x.volumes + InitStrings(b);
  }

  method ServiceVolumeStrings(svc: ServiceVolumes) returns (vols: seq<string>)
    ensures vols == VolumeStrings(svc)
  {
    vols := svc.volumes;
    for k := 0 to |svc.inits|
      invariant vols == svc.volumes + InitStrings(svc.inits[..k])
    {
      assert svc.inits[..k + 1][..k] == svc.inits[..k];
      vols := vols + svc.inits[k].volumes;
    }
    assert svc.inits[..|svc.inits|] == svc.inits;
  }

  /** Indexed by source; the last entry for a source wins. */
  function BySource(mounts: seq<SecretMount>): map<string, SecretMount> {
    if mounts == [] then map[]
    else
      var n := |mounts| - 1;
      BySource(mounts[..n])[mounts[n].source := mounts[n]]
  }

  /** Every listed source has an entry, and every entry is one listed for it. */
  lemma {:induction false} BySourceListed(mounts: seq<SecretMount>, source: string)
    ensures source in BySource(mounts) <==> exists k :: 0 <= k < |mounts| && mounts[k].source == source
    ensures source in BySource(mounts) ==> BySource(mounts)[source] in mounts && BySource(mounts)[source].source == source
  {
    if mounts != [] {
      var n := |mounts| - 1;
      BySourceListed(mounts[..n], source);
      assert mounts == mounts[..n] + [mounts[n]];
      if mounts[n].source != source && source in BySource(mounts[..n]) {
        var k :| 0 <= k < n && mounts[..n][k].source == source;
        assert mounts[k].source == source;
      }
      if k :| 0 <= k < |mounts| && mounts[k].source == source {
        assert k == n || mounts[..n][k].source == source;
      }
    }
  }

  /** The entry kept for a source is the last one listed. */
  lemma {:induction false} BySourceIsLast(mounts: seq<SecretMount>, sm: SecretMount, later: seq<SecretMount>)
    requires forall x :: x in later ==> x.source != sm.source
    ensures sm.source in BySource(mounts + [sm] + later) && BySource(mounts + [sm] + later)[sm.source] == sm
    decreases |later|
  {
    var all := mounts + [sm] + later;
    if later == [] {
      assert all == mounts + [sm];
    } else {
      var n := |later| - 1;
      assert later[n] in later;
      assert all[..|all| - 1] == mounts + [sm] + later[..n] && all[|all| - 1] == later[n];
      BySourceIsLast(mounts, sm, later[..n]);
    }
  }

  method SecretMountsBySource(svc: ServiceVolumes) returns (m: map<string, SecretMount>)
    ensures m == BySource(svc.secretMounts)
  {
    m := map[];
    for k := 0 to |svc.secretMounts|
      invariant m == BySource(svc.secretMounts[..k])
    {
      assert svc.secretMounts[..k + 1][..k] == svc.secretMounts[..k];
      m := m[svc.secretMounts[k].source := svc.secretMounts[k]];
    }
    assert svc.secretMounts[..|svc.secretMounts|] == svc.secretMounts;
  }

  class VolumePlan {
    const c: Context
    var mounts: map<string, VolumeMount>
    var podVolumes: seq<PodVolume>
    var configMaps: seq<ConfigMap>
    var warnings: seq<string>
    var refusals: seq<Refusal>
    var overrides: seq<Override>
    var mustFix: bool
    var names: map<string, string>
    var usedSecrets: set<string>
    ghost var claims: seq<Claim>
    ghost var clash: bool

    ghost function View(): PlanState
      reads this
    {
      PlanState(mounts, podVolumes, configMaps, warnings, refusals, overrides, mustFix, names, usedSecrets, claims, clash)
    }

    constructor (c: Context)
      ensures this.c == c && View() == EmptyPlan()
    {
      this.c := c;
      mounts, podVolumes, configMaps, warnings, refusals, overrides := map[], [], [], [], [], [];
      mustFix, names, usedSecrets, claims, clash := false, map[], {}, [], false;
    }

    method ClaimName(base: string, source: string) returns (name: string)
      modifies this
      ensures name == NameFor(c, old(names), base, source)
      ensures View() == WithClaim(c, old(View()), base, source)
    {
      if base !in names || names[base] == source {
        name := base;
      } else {
        name := WithSuffix(base, c.host.hash(source));
      }
      claims := claims + [Claim(name, source)];
      clash := clash || Clashes(names, name, source);
      names := names[name := source];
    }

    method AddPodVolume(pv: PodVolume)
      modifies this
      ensures View() == old(View()).(podVolumes := WithVolume(old(podVolumes), pv))
    {
      for k := 0 to |podVolumes|
        invariant View() == old(View()) && forall i :: 0 <= i < k ==> podVolumes[i].name != pv.name
      {
        if podVolumes[k].name == pv.name {
          return;
        }
      }
      podVolumes := podVolumes + [pv];
    }

    method HasConfigMap(name: string) returns (found: bool)
      ensures found <==> DeclaresConfigMap(configMaps, name)
    {
      for k := 0 to |configMaps|
        invariant forall i :: 0 <= i < k ==> configMaps[i].name != name
      {
        if configMaps[k].name == name {
          return true;
        }
      }
      return false;
    }

    method RecordRefusal(refusal: Refusal, override: Option<Override>)
      modifies this
      ensures View() == WithRefusal(old(View()), refusal, override)
    {
      refusals := refusals + [refusal];
      if override.None? {
        mustFix := true;
        return;
      }
      for k := 0 to |overrides|
        invariant View() == old(View()).(refusals := old(refusals) + [refusal])
        invariant override.value !in overrides[..k]
      {
        if overrides[k] == override.value {
          return;
        }
      }
      assert overrides[..|overrides|] == overrides;
      overrides := overrides + [override.value];
    }

    method AddNamedVolume(vol: string, p: Parsed)
      requires p == ParseVolumeString(c.host, vol) && p.source !in c.secrets && !IsBindMount(p.source)
      modifies this
      ensures View() == Mounted(c, old(View()), vol)
    {
      var base := SanitizeName(c.host.lower, c.host.hash, p.source);
      var name := ClaimName(base, p.source);
      var backing := if p.source in c.declared then PersistentClaim(p.source) else EmptyDir;
      AddPodVolume(PodVolume(name, backing));
      mounts := mounts[vol := VolumeMount(name, p.dest, "", p.readOnly)];
    }

    method AddSecretMount(vol: string, p: Parsed, sm: SecretMount)
      requires p == ParseVolumeString(c.host, vol) && p.source in c.secrets && sm == c.secrets[p.source]
      modifies this
      ensures View() == Mounted(c, old(View()), vol)
    {
      usedSecrets := usedSecrets + {p.source};
      var key := if sm.key == "" then c.host.configMapKey(c.host.baseName(p.source)) else sm.key;
      var base := SanitizeName(c.host.lower, c.host.hash, sm.secretName);
      var name := ClaimName(base, p.source);
      AddPodVolume(PodVolume(name, FromSecret(sm.secretName)));
      mounts := mounts[vol := VolumeMount(name, p.dest, key, true)];
    }

    /** The policy on a file that carries a private key. */
    method AllowSecretMaterial(vol: string) returns (allowed: bool)
      modifies this
      ensures allowed == c.policy.configMap
      ensures View() == if allowed then old(View()).(warnings := old(warnings) + [vol])
                        else WithRefusal(old(View()), RefusedMount(vol), Some(UseConfigMap))
    {
      if !c.policy.configMap {
        RecordRefusal(RefusedMount(vol), Some(UseConfigMap));
        return false;
      }
      warnings := warnings + [vol];
      return true;
    }

    method AddConfigMap(vol: string, p: Parsed, content: string, filename: string)
      requires p == ParseVolumeString(c.host, vol) && ReadsFile(c, p.source)
      requires c.host.read(p.source) == File(content, filename)
      modifies this
      ensures View() == if Decide(c, p.source).Mount? then Mounted(c, old(View()), vol) else Refused(c, old(View()), vol)
    {
      var base := SanitizeName(c.host.lower, c.host.hash, c.service + "-" + filename);
      var name := ClaimName(base, p.source);
      var key := c.host.configMapKey(filename);
      if HasPrivateKey(content) {
        var allowed := AllowSecretMaterial(vol);
        if !allowed {
          return;
        }
      }
      AddPodVolume(PodVolume(name, FromConfigMap(name)));
      var found := HasConfigMap(name);
      if !found {
        configMaps := configMaps + [ConfigMap(name, key, content)];
      }
      mounts := mounts[vol := VolumeMount(name, p.dest, key, true)];
    }

    /** The policy on a bind mount with no Kubernetes equivalent. */
    method AddUnrepresentable(vol: string, p: Parsed)
      requires p == ParseVolumeString(c.host, vol) && Unreadable(c, p.source)
      modifies this
      ensures View() == if Decide(c, p.source).Mount? then Mounted(c, old(View()), vol) else Refused(c, old(View()), vol)
    {
      if !c.policy.emptyDir {
        RecordRefusal(RefusedMount(vol), Some(UseEmptyDir));
        return;
      }
      warnings := warnings + [vol];
      var base := SanitizeName(c.host.lower, c.host.hash, p.source);
      var name := ClaimName(base, p.source);
      AddPodVolume(PodVolume(name, EmptyDir));
      mounts := mounts[vol := VolumeMount(name, p.dest, "", p.readOnly)];
    }

    method Add(vol: string)
      modifies this
      ensures View() == Added(c, old(View()), vol)
    {
      if vol in mounts {
        return;
      }
      var p := ParseVolumeString(c.host, vol);
      if p.dest == "" {
        return;
      }
      if p.source in c.secrets {
        AddSecretMount(vol, p, c.secrets[p.source]);
        return;
      }
      if !IsBindMount(p.source) {
        AddNamedVolume(vol, p);
        return;
      }
      match c.host.read(p.source)
      case Unrepresentable => AddUnrepresentable(vol, p);
      case File(content, filename) => AddConfigMap(vol, p, content, filename);
    }

    method ReportUnmatchedSecretMounts() returns (ghost order: seq<string>)
      modifies this
      ensures EnumeratesUnmatched(c, old(View()), order) && View() == Unmatched(old(View()), order)
    {
      order := [];
      var rest := c.secrets.Keys;
      while rest != {}
        invariant rest <= c.secrets.Keys && NoDuplicates(order)
        invariant forall s :: s in order <==> s in c.secrets && s !in rest && s !in old(usedSecrets)
        invariant View() == Unmatched(old(View()), order) && usedSecrets == old(usedSecrets)
        decreases rest
      {
        var source :| source in rest;
        rest := rest - {source};
        if source !in usedSecrets {
          RecordRefusal(UnmatchedSecret(source), None);
          order := order + [source];
          assert order[..|order| - 1] + [source] == order;
        }
      }
    }

    method MountsFor(volumes: seq<string>) returns (ms: seq<VolumeMount>)
      ensures ms == MountList(mounts, FirstMounted(mounts, volumes))
    {
      ms := [];
      var seen: set<string> := {};
      for k := 0 to |volumes|
        invariant ms == MountList(mounts, FirstMounted(mounts, volumes[..k]))
        invariant forall v :: v in FirstMounted(mounts, volumes[..k]) <==> v in seen
      {
        assert volumes[..k + 1][..k] == volumes[..k];
        if volumes[k] in mounts && volumes[k] !in seen {
          seen := seen + {volumes[k]};
          ms := ms + [mounts[volumes[k]]];
          assert FirstMounted(mounts, volumes[..k + 1])[..|ms| - 1] == FirstMounted(mounts, volumes[..k]);
        }
      }
      assert volumes[..|volumes|] == volumes;
    }
  }

  /** The mounted volume strings, each at its first occurrence. */
  function FirstMounted(mounts: map<string, VolumeMount>, volumes: seq<string>): (r: seq<string>)
    ensures NoDuplicates(r) && forall v :: v in r <==> v in volumes && v in mounts
  {
    if volumes == [] then []
    else
      var n := |volumes| - 1;
      var before := FirstMounted(mounts, volumes[..n]);
      assert volumes == volumes[..n] + [volumes[n]];
      if volumes[n] in mounts && volumes[n] !in before then before + [volumes[n]] else before
  }

  /** In the order of first mention. */
  lemma {:induction false} FirstMountedInOrder(mounts: map<string, VolumeMount>, volumes: seq<string>, i: nat, j: nat)
    requires i < j < |FirstMounted(mounts, volumes)|
    ensures var r := FirstMounted(mounts, volumes);
      exists k :: 0 <= k < |volumes| && volumes[k] == r[i] && r[j] !in volumes[..k + 1]
  {
    var n := |volumes| - 1;
    var before, r := FirstMounted(mounts, volumes[..n]), FirstMounted(mounts, volumes);
    assert volumes == volumes[..n] + [volumes[n]];
    if j < |before| {
      FirstMountedInOrder(mounts, volumes[..n], i, j);
      var k :| 0 <= k < n && volumes[..n][k] == before[i] && before[j] !in volumes[..n][..k + 1];
      assert volumes[..n][..k + 1] == volumes[..k + 1] && volumes[k] == r[i];
    } else {
      assert before[i] in before;
      var k :| 0 <= k < n && volumes[..n][k] == before[i];
      assert volumes[k] == r[i];
      forall x | x in volumes[..k + 1] ensures x in volumes[..n] {
        var l :| 0 <= l < k + 1 && volumes[l] == x;
        assert volumes[..n][l] == x;
      }
    }
  }

  function MountList(mounts: map<string, VolumeMount>, vols: seq<string>): (ms: seq<VolumeMount>)
    requires forall v :: v in vols ==> v in mounts
    ensures |ms| == |vols| && forall k :: 0 <= k < |vols| ==> ms[k] == mounts[vols[k]]
  {
    seq(|vols|, k requires 0 <= k < |vols| => mounts[vols[k]])
  }

  lemma {:induction false} AddedNext(c: Context, vols: seq<string>, k: nat)
    requires k < |vols|
    ensures AddedAll(c, vols[..k + 1]) == Added(c, AddedAll(c, vols[..k]), vols[k])
  {
    assert vols[..k + 1][..k] == vols[..k];
  }

  method PlanVolumes(host: Host, service: string, svc: ServiceVolumes, declared: set<string>, policy: Policy)
    returns (p: VolumePlan)
    ensures fresh(p) && p.c == Context(host, service, BySource(svc.secretMounts), declared, policy)
    ensures Planned(p.c, VolumeStrings(svc), p.View())
  {
    var secrets := SecretMountsBySource(svc);
    var c := Context(host, service, secrets, declared, policy);
    p := new VolumePlan(c);
    var vols := ServiceVolumeStrings(svc);
    for k := 0 to |vols|
      invariant fresh(p) && p.c == c && p.View() == AddedAll(c, vols[..k])
    {
      AddedNext(c, vols, k);
      p.Add(vols[k]);
    }
    assert vols[..|vols|] == vols;
    ghost var order := p.ReportUnmatchedSecretMounts();
  }
}
