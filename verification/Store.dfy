/** The state store: rollouts by id, and dependency links kept in two buckets, by source and by target. */
module Store {
  import opened Graphs
  import opened Requests

  datatype Reference = Reference(id: Id, key: Key)

  datatype Link = Link(source: Reference, target: Reference)

  datatype Rollout = Rollout(id: Id, key: Key, body: Body, succeeded: bool)

  type Bucket = map<Id, seq<Reference>>

  // ---- Lists of references ----

  function RefIds(rs: seq<Reference>): set<Id> {
    if rs == [] then {} else RefIds(rs[..|rs| - 1]) + {rs[|rs| - 1].id}
  }

  predicate DistinctRefs(rs: seq<Reference>) {
    rs == [] || (DistinctRefs(rs[..|rs| - 1]) && rs[|rs| - 1].id !in RefIds(rs[..|rs| - 1]))
  }

  lemma {:induction false} RefIdsSnoc(rs: seq<Reference>, r: Reference)
    ensures RefIds(rs + [r]) == RefIds(rs) + {r.id}
    ensures DistinctRefs(rs + [r]) <==> DistinctRefs(rs) && r.id !in RefIds(rs)
  {
    assert (rs + [r])[..|rs|] == rs;
  }

  lemma {:induction false} RefIdsMember(rs: seq<Reference>, x: Id)
    ensures x in RefIds(rs) <==> exists i :: 0 <= i < |rs| && rs[i].id == x
  {
    if rs != [] {
      var n := |rs| - 1;
      RefIdsMember(rs[..n], x);
      if x in RefIds(rs) && rs[n].id != x {
        var i :| 0 <= i < n && rs[..n][i].id == x;
        assert rs[i].id == x;
      }
      if i :| 0 <= i < |rs| && rs[i].id == x {
        assert i == n || rs[..n][i].id == x;
      }
    }
  }

  function RolloutIds(rs: seq<Rollout>): set<Id> {
    if rs == [] then {} else RolloutIds(rs[..|rs| - 1]) + {rs[|rs| - 1].id}
  }

  /** The first reference of each id, in order. */
  function UniqueRefs(rs: seq<Reference>): seq<Reference> {
    if rs == [] then []
    else
      var rest, r := UniqueRefs(rs[..|rs| - 1]), rs[|rs| - 1];
      if r.id in RefIds(rest) then rest else rest + [r]
  }

  lemma {:induction false} UniqueRefsSound(rs: seq<Reference>)
    ensures RefIds(UniqueRefs(rs)) == RefIds(rs) && DistinctRefs(UniqueRefs(rs))
  {
    if rs != [] {
      var n := |rs| - 1;
      UniqueRefsSound(rs[..n]);
      RefIdsSnoc(UniqueRefs(rs[..n]), rs[n]);
    }
  }

  lemma {:induction false} UniqueRefsKeepsDistinct(rs: seq<Reference>)
    requires DistinctRefs(rs)
    ensures UniqueRefs(rs) == rs
  {
    if rs != [] {
      var n := |rs| - 1;
      var init, r := rs[..n], rs[n];
      UniqueRefsKeepsDistinct(init);
      assert UniqueRefs(rs) == if r.id in RefIds(init) then init else init + [r];
    }
  }

  /** Adding a reference to a list of distinct ones and removing duplicates appends it unless its id is there. */
  lemma {:induction false} UniqueRefsAppend(rs: seq<Reference>, r: Reference)
    requires DistinctRefs(rs)
    ensures UniqueRefs(rs + [r]) == if r.id in RefIds(rs) then rs else rs + [r]
  {
    UniqueRefsKeepsDistinct(rs);
    assert (rs + [r])[..|rs|] == rs;
  }

  method Unique(rl: seq<Reference>) returns (result: seq<Reference>)
    ensures result == UniqueRefs(rl)
  {
    var check := {};
    result := [];
    for i := 0 to |rl|
      invariant result == UniqueRefs(rl[..i]) && check == RefIds(result)
    {
      assert rl[..i + 1][..i] == rl[..i];
      if rl[i].id !in check {
        check := check + {rl[i].id};
        RefIdsSnoc(result, rl[i]);
        result := result + [rl[i]];
      }
    }
    assert rl[..|rl|] == rl;
  }

  /** The references whose id differs from `id`. */
  function Others(rs: seq<Reference>, id: Id): seq<Reference> {
    if rs == [] then []
    else
      var r := rs[|rs| - 1];
      Others(rs[..|rs| - 1], id) + (if r.id != id then [r] else [])
  }

  lemma {:induction false} OthersSound(rs: seq<Reference>, id: Id)
    ensures RefIds(Others(rs, id)) == RefIds(rs) - {id}
    ensures DistinctRefs(rs) ==> DistinctRefs(Others(rs, id))
  {
    if rs != [] {
      var n := |rs| - 1;
      OthersSound(rs[..n], id);
      RefIdsSnoc(Others(rs[..n], id), rs[n]);
      if rs[n].id == id {
        assert Others(rs, id) == Others(rs[..n], id);
      }
    }
  }

  // ---- Buckets as relations ----

  function Pairs(b: Bucket): Relation {
    set a, c | a in b && c in RefIds(b[a]) :: (a, c)
  }

  predicate WellFormed(b: Bucket) {
    forall a :: a in b ==> b[a] != [] && DistinctRefs(b[a])
  }

  lemma {:induction false} PairsAt(b: Bucket, a: Id, c: Id)
    ensures (a, c) in Pairs(b) <==> a in b && c in RefIds(b[a])
  { }

  function ListAt(b: Bucket, a: Id): seq<Reference> {
    if a in b then b[a] else []
  }

  method AddTo(bucket: Bucket, from: Reference, to: Reference) returns (bucket': Bucket)
    requires WellFormed(bucket)
    ensures WellFormed(bucket') && Pairs(bucket') == Pairs(bucket) + {(from.id, to.id)}
    ensures bucket' == bucket[from.id := if to.id in RefIds(ListAt(bucket, from.id)) then ListAt(bucket, from.id)
                                         else ListAt(bucket, from.id) + [to]]
  {
    var current := if from.id in bucket then bucket[from.id] else [];
    RefIdsSnoc(current, to);
    UniqueRefsAppend(current, to);
    var toList := Unique(current + [to]);
    bucket' := bucket[from.id := toList];
    PairsExtended(bucket, from.id, toList, to.id);
    StaysWellFormed(bucket, from.id, toList);
  }

  lemma {:induction false} StaysWellFormed(b: Bucket, a: Id, list: seq<Reference>)
    requires WellFormed(b) && list != [] && DistinctRefs(list)
    ensures WellFormed(b[a := list])
  { }

  lemma {:induction false} PairsExtended(b: Bucket, a: Id, list: seq<Reference>, c: Id)
    requires RefIds(list) == RefIds(ListAt(b, a)) + {c}
    ensures Pairs(b[a := list]) == Pairs(b) + {(a, c)} && list != []
  {
    forall e ensures e in Pairs(b[a := list]) <==> e in Pairs(b) + {(a, c)} {
      PairsAt(b, e.0, e.1);
      PairsAt(b[a := list], e.0, e.1);
    }
    assert c in RefIds(list);
  }

  /** Removes `sourceId` from the reverse list of every listed target, dropping lists that become empty. */
  method CleanReverseLinks(bucket: Bucket, targets: seq<Reference>, sourceId: Id) returns (bucket': Bucket)
    requires WellFormed(bucket)
    ensures WellFormed(bucket')
    ensures forall t, s :: (t, s) in Pairs(bucket') <==>
      (t, s) in Pairs(bucket) && !(s == sourceId && t in RefIds(targets))
  {
    bucket' := bucket;
    for i := 0 to |targets|
      invariant WellFormed(bucket')
      invariant forall t, s :: (t, s) in Pairs(bucket') <==>
        (t, s) in Pairs(bucket) && !(s == sourceId && t in RefIds(targets[..i]))
    {
      assert targets[..i + 1] == targets[..i] + [targets[i]];
      RefIdsSnoc(targets[..i], targets[i]);
      var key := targets[i].id;
      ghost var before := bucket';
      if key in bucket' {
        bucket' := CleanEntry(bucket', key, sourceId);
      } else {
        forall s ensures (key, s) !in Pairs(bucket') { PairsAt(bucket', key, s); }
      }
    }
    assert targets[..|targets|] == targets;
  }

  method CleanEntry(bucket: Bucket, key: Id, sourceId: Id) returns (bucket': Bucket)
    requires WellFormed(bucket) && key in bucket
    ensures WellFormed(bucket')
    ensures forall t, s :: (t, s) in Pairs(bucket') <==> (t, s) in Pairs(bucket) && (t, s) != (key, sourceId)
  {
    var sources := bucket[key];
    var filtered: seq<Reference> := [];
    for i := 0 to |sources|
      invariant filtered == Others(sources[..i], sourceId)
    {
      assert sources[..i + 1][..i] == sources[..i];
      if sources[i].id != sourceId {
        filtered := filtered + [sources[i]];
      }
    }
    assert sources[..|sources|] == sources;
    OthersSound(sources, sourceId);
    if |filtered| == 0 {
      EntryDropped(bucket, key, sourceId);
      bucket' := bucket - {key};
    } else {
      StaysWellFormed(bucket, key, filtered);
      EntryReplaced(bucket, key, filtered, sourceId);
      bucket' := bucket[key := filtered];
    }
  }

  lemma {:induction false} EntryDropped(b: Bucket, key: Id, sourceId: Id)
    requires WellFormed(b) && key in b && RefIds(b[key]) - {sourceId} == {}
    ensures WellFormed(b - {key})
    ensures forall t, s :: (t, s) in Pairs(b - {key}) <==> (t, s) in Pairs(b) && (t, s) != (key, sourceId)
  {
    forall t, s ensures (t, s) in Pairs(b - {key}) <==> (t, s) in Pairs(b) && (t, s) != (key, sourceId) {
      PairsAt(b, t, s);
      PairsAt(b - {key}, t, s);
      assert s in RefIds(b[key]) ==> s == sourceId || s in RefIds(b[key]) - {sourceId};
    }
  }

  lemma {:induction false} EntryReplaced(b: Bucket, key: Id, list: seq<Reference>, sourceId: Id)
    requires key in b && RefIds(list) == RefIds(b[key]) - {sourceId}
    ensures forall t, s :: (t, s) in Pairs(b[key := list]) <==> (t, s) in Pairs(b) && (t, s) != (key, sourceId)
  {
    forall t, s ensures (t, s) in Pairs(b[key := list]) <==> (t, s) in Pairs(b) && (t, s) != (key, sourceId) {
      PairsAt(b, t, s);
      PairsAt(b[key := list], t, s);
    }
  }

  function WithoutSource(r: Relation, id: Id): Relation {
    set e | e in r && e.0 != id
  }

  // ---- The database ----

  class DB {
    var rollouts: map<Id, Rollout>
    var bySource: Bucket
    var byTarget: Bucket

    /** The links on record, as one relation on ids. */
    ghost var links: Relation

    /** Both buckets hold that relation, seen from either end, in non-empty lists without repeats. */
    ghost predicate Valid()
      reads this`bySource, this`byTarget, this`links
    {
      && WellFormed(bySource) && WellFormed(byTarget)
      && Pairs(bySource) == links
      && forall s, t :: (s, t) in links <==> (t, s) in Pairs(byTarget)
    }

    constructor ()
      ensures Valid() && links == {} && rollouts == map[]
    {
      rollouts, bySource, byTarget, links := map[], map[], map[], {};
    }

    method AddLink(l: Link)
      requires Valid()
      modifies this`bySource, this`byTarget, this`links
      ensures Valid() && links == old(links) + {(l.source.id, l.target.id)}
    {
      bySource := AddTo(bySource, l.source, l.target);
      byTarget := AddTo(byTarget, l.target, l.source);
      links := links + {(l.source.id, l.target.id)};
    }

    /** Removes exactly the links that leave `r`. */
    method RemoveLink(r: Reference)
      requires Valid()
      modifies this`bySource, this`byTarget, this`links
      ensures Valid() && links == WithoutSource(old(links), r.id)
    {
      var targets := if r.id in bySource then bySource[r.id] else [];
      ghost var was := bySource;
      bySource := bySource - {r.id};
      byTarget := CleanReverseLinks(byTarget, targets, r.id);
      links := WithoutSource(links, r.id);
      forall s, t
        ensures (s, t) in Pairs(bySource) <==> (s, t) in Pairs(was) && s != r.id
        ensures (s, t) in Pairs(bySource) <==> (t, s) in Pairs(byTarget)
      {
        PairsAt(was, s, t);
        PairsAt(bySource, s, t);
      }
    }

    /** The targets that `source` depends on: the image of the relation. */
    method GetDependencies(source: Id) returns (deps: seq<Reference>)
      requires Valid()
      ensures DistinctRefs(deps) && forall t :: t in RefIds(deps) <==> (source, t) in links
    {
      deps := if source in bySource then bySource[source] else [];
      forall t ensures t in RefIds(deps) <==> (source, t) in links {
        PairsAt(bySource, source, t);
      }
    }

    /** The sources that depend on `target`: the preimage of the relation. */
    method GetDepending(target: Id) returns (deps: seq<Reference>)
      requires Valid()
      ensures DistinctRefs(deps) && forall s :: s in RefIds(deps) <==> (s, target) in links
    {
      deps := if target in byTarget then byTarget[target] else [];
      forall s ensures s in RefIds(deps) <==> (s, target) in links {
        PairsAt(byTarget, target, s);
      }
    }

    /** The dependents of a resource that have a rollout. */
    method GetReferencesTo(target: Id) returns (refs: seq<Rollout>)
      requires Valid() && forall id :: id in rollouts ==> rollouts[id].id == id
      ensures RolloutIds(refs) == set s | s in rollouts && (s, target) in links
    {
      var deps := GetDepending(target);
      refs := [];
      for i := 0 to |deps|
        invariant RolloutIds(refs) == RefIds(deps[..i]) * rollouts.Keys
      {
        assert deps[..i + 1] == deps[..i] + [deps[i]];
        RefIdsSnoc(deps[..i], deps[i]);
        var id := deps[i].id;
        if id in rollouts {
          assert (refs + [rollouts[id]])[..|refs|] == refs;
          refs := refs + [rollouts[id]];
        }
      }
      assert deps[..|deps|] == deps;
    }

    /** All links, gathered source by source. */
    method LoadLinks() returns (loaded: seq<(Id, Id)>)
      requires Valid()
      ensures ToSet(loaded) == links
    {
      loaded := [];
      var keys := bySource.Keys;
      while keys != {}
        invariant keys <= bySource.Keys
        invariant forall e :: e in loaded <==> e in links && e.0 !in keys
        decreases |keys|
      {
        var key :| key in keys;
        var deps := GetDependencies(key);
        var more := LinksFrom(key, deps);
        assert forall e :: e in loaded + more <==> e in loaded || e in more;
        loaded := loaded + more;
        keys := keys - {key};
      }
      assert forall e :: e in links ==> e.0 in bySource;
    }
  }

  method LinksFrom(key: Id, deps: seq<Reference>) returns (links: seq<(Id, Id)>)
    ensures forall e :: e in links <==> e.0 == key && e.1 in RefIds(deps)
  {
    links := [];
    for i := 0 to |deps|
      invariant forall e :: e in links <==> e.0 == key && e.1 in RefIds(deps[..i])
    {
      assert deps[..i + 1] == deps[..i] + [deps[i]];
      RefIdsSnoc(deps[..i], deps[i]);
      links := links + [(key, deps[i].id)];
    }
    assert deps[..|deps|] == deps;
  }
}
