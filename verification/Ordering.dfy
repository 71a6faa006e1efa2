/** The order Go's `sort.Strings` uses, and sorting by it. */
module Ordering {

  /** Go's `<` on strings: the first differing character decides, a proper prefix is smaller. */
  predicate Less(a: string, b: string) {
    if b == "" then false
    else if a == "" then true
    else a[0] < b[0] || (a[0] == b[0] && Less(a[1..], b[1..]))
  }

  predicate LessEq(a: string, b: string) {
    a == b || Less(a, b)
  }

  lemma {:induction false} LessTotal(a: string, b: string)
    ensures Less(a, b) || a == b || Less(b, a)
  {
    if a != "" && b != "" && a[0] == b[0] {
      LessTotal(a[1..], b[1..]);
      if a[1..] == b[1..] {
        assert a == [a[0]] + a[1..] == [b[0]] + b[1..] == b;
      }
    }
  }

  lemma {:induction false} LessTransitive(a: string, b: string, c: string)
    requires Less(a, b) && Less(b, c)
    ensures Less(a, c)
  {
    if a != "" && a[0] == b[0] == c[0] {
      LessTransitive(a[1..], b[1..], c[1..]);
    }
  }

  lemma {:induction false} LessIrreflexive(a: string)
    ensures !Less(a, a)
  {
    if a != "" {
      LessIrreflexive(a[1..]);
    }
  }

  /** The order spelled out: a proper prefix comes first, and otherwise the smaller character where the strings part. */
  lemma {:induction false} LessMeans(a: string, b: string)
    ensures Less(a, b) <==> a < b || exists i :: 0 <= i < |a| && i < |b| && a[..i] == b[..i] && a[i] < b[i]
  {
    if a != "" && b != "" {
      LessMeans(a[1..], b[1..]);
      if a[0] == b[0] {
        assert a == [a[0]] + a[1..] && b == [a[0]] + b[1..];
        assert a < b <==> a[1..] < b[1..];
        if i :| 0 <= i < |a| - 1 && i < |b| - 1 && a[1..][..i] == b[1..][..i] && a[1..][i] < b[1..][i] {
          PartLater(a, b, i);
        }
        if i :| 0 <= i < |a| && i < |b| && a[..i] == b[..i] && a[i] < b[i] {
          PartEarlier(a, b, i);
        }
      } else {
        LessAtOnce(a, b);
      }
    }
  }

  lemma {:induction false} PartLater(a: string, b: string, i: nat)
    requires a != "" && b != "" && a[0] == b[0] && i < |a| - 1 && i < |b| - 1 && a[1..][..i] == b[1..][..i]
    ensures a[..i + 1] == b[..i + 1] && a[i + 1] == a[1..][i] && b[i + 1] == b[1..][i]
  {
    assert a[..i + 1] == [a[0]] + a[1..][..i] && b[..i + 1] == [b[0]] + b[1..][..i];
  }

  lemma {:induction false} PartEarlier(a: string, b: string, i: nat)
    requires i < |a| && i < |b| && a[0] == b[0] && a[..i] == b[..i] && a[i] < b[i]
    ensures i > 0 && a[1..][..i - 1] == b[1..][..i - 1] && a[1..][i - 1] < b[1..][i - 1]
  {
    assert a[1..][..i - 1] == a[..i][1..] && b[1..][..i - 1] == b[..i][1..];
  }

  lemma {:induction false} LessAtOnce(a: string, b: string)
    requires a != "" && b != "" && a[0] != b[0]
    ensures !(a < b)
    ensures (exists i :: 0 <= i < |a| && i < |b| && a[..i] == b[..i] && a[i] < b[i]) <==> a[0] < b[0]
  {
    if a[0] < b[0] {
      assert a[..0] == b[..0] && a[0] < b[0];
    }
    if i :| 0 <= i < |a| && i < |b| && a[..i] == b[..i] && a[i] < b[i] {
      if i > 0 { SameHead(a, b, i); }
    }
  }

  lemma {:induction false} SameHead(a: string, b: string, i: nat)
    requires 0 < i <= |a| && i <= |b| && a[..i] == b[..i]
    ensures a[0] == b[0]
  {
    assert a[..i][0] == b[..i][0];
  }

  lemma {:induction false} LessEqTransitive(a: string, b: string, c: string)
    requires LessEq(a, b) && LessEq(b, c)
    ensures LessEq(a, c)
  {
    if Less(a, b) && Less(b, c) {
      LessTransitive(a, b, c);
    }
  }

  lemma {:induction false} LessEqAntisymmetric(a: string, b: string)
    requires LessEq(a, b) && LessEq(b, a)
    ensures a == b
  {
    if a != b {
      LessTransitive(a, b, a);
      LessIrreflexive(a);
    }
  }

  predicate Sorted(s: seq<string>) {
    forall i, j :: 0 <= i < j < |s| ==> LessEq(s[i], s[j])
  }

  function Insert(x: string, s: seq<string>): (r: seq<string>)
    ensures multiset(r) == multiset(s) + multiset{x}
    ensures |r| == |s| + 1
  {
    if s == [] then [x]
    else if LessEq(x, s[0]) then [x] + s
    else
      assert s == [s[0]] + s[1..];
      [s[0]] + Insert(x, s[1..])
  }

  /** `sort.Strings`. */
  function Sort(s: seq<string>): (r: seq<string>)
    ensures multiset(r) == multiset(s)
    ensures |r| == |s|
  {
    if s == [] then []
    else
      assert s == [s[0]] + s[1..];
      Insert(s[0], Sort(s[1..]))
  }

  lemma {:induction false} InsertSorted(x: string, s: seq<string>)
    requires Sorted(s)
    ensures Sorted(Insert(x, s))
  {
    if s == [] {
    } else if LessEq(x, s[0]) {
      forall j | 0 <= j < |s| ensures LessEq(x, s[j]) {
        if j > 0 { LessEqTransitive(x, s[0], s[j]); }
      }
    } else {
      LessTotal(x, s[0]);
      var t := Insert(x, s[1..]);
      InsertSorted(x, s[1..]);
      forall j | 0 <= j < |t| ensures LessEq(s[0], t[j]) {
        assert t[j] in multiset(t);
        if t[j] != x {
          assert t[j] in s[1..];
        }
      }
    }
  }

  lemma {:induction false} SortSorted(s: seq<string>)
    ensures Sorted(Sort(s))
  {
    if s != [] {
      SortSorted(s[1..]);
      InsertSorted(s[0], Sort(s[1..]));
    }
  }

  /** Sorting neither adds nor drops elements. */
  lemma {:induction false} SortElements(s: seq<string>)
    ensures forall x :: x in Sort(s) <==> x in s
  {
    forall x ensures x in Sort(s) <==> x in s {
      assert x in Sort(s) <==> x in multiset(Sort(s));
      assert x in s <==> x in multiset(s);
    }
  }

  predicate NoDuplicates<T(==)>(s: seq<T>) {
    forall i, j :: 0 <= i < j < |s| ==> s[i] != s[j]
  }

  lemma {:induction false} NoDuplicatesCounts<T>(s: seq<T>)
    ensures NoDuplicates(s) <==> forall x :: x in s ==> multiset(s)[x] == 1
  {
    if s != [] {
      var n := |s| - 1;
      var t := s[..n];
      assert s == t + [s[n]];
      NoDuplicatesCounts(t);
      if NoDuplicates(s) {
        assert NoDuplicates(t);
        assert s[n] !in t;
        assert multiset(t)[s[n]] == 0;
        forall x | x in s ensures multiset(s)[x] == 1 {
          if x != s[n] { assert x in t; }
        }
      }
      if forall x :: x in s ==> multiset(s)[x] == 1 {
        assert s[n] in s;
        assert s[n] !in multiset(t);
        forall x | x in t ensures multiset(t)[x] == 1 {
          assert x in s && x in multiset(t);
        }
      }
    }
  }

  lemma {:induction false} SortNoDuplicates(s: seq<string>)
    requires NoDuplicates(s)
    ensures NoDuplicates(Sort(s))
  {
    NoDuplicatesCounts(s);
    SortElements(s);
    NoDuplicatesCounts(Sort(s));
  }

  /** Dictionary order on sequences of ids. */
  ghost predicate LexLessEq(p: seq<string>, q: seq<string>) {
    p <= q || exists i ::
      0 <= i < |p| && i < |q| && p[..i] == q[..i] && Less(p[i], q[i])
  }

  /** The keys of a map, sorted; the map yields them in any order. */
  method SortedKeys<V>(m: map<string, V>) returns (keys: seq<string>)
    ensures Sorted(keys) && NoDuplicates(keys) && forall x :: x in keys <==> x in m
  {
    keys := [];
    var rest := m.Keys;
    while rest != {}
      invariant rest <= m.Keys && NoDuplicates(keys) && forall x :: x in keys <==> x in m && x !in rest
      decreases |rest|
    {
      var id :| id in rest;
      rest := rest - {id};
      keys := keys + [id];
    }
    SortSorted(keys);
    SortNoDuplicates(keys);
    SortElements(keys);
    keys := Sort(keys);
  }
}
