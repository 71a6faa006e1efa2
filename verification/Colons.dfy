/** Strings with fields separated by colons. */
module Colons {

  /** The first colon from `i` on, or the end. */
  function ColonFrom(s: string, i: nat): (k: nat)
    requires i <= |s|
    ensures i <= k <= |s| && (forall j :: i <= j < k ==> s[j] != ':') && (k < |s| ==> s[k] == ':')
    decreases |s| - i
  {
    if i == |s| || s[i] == ':' then i else ColonFrom(s, i + 1)
  }

  function FirstColon(s: string): nat {
    ColonFrom(s, 0)
  }

  function SplitFrom(s: string, i: nat): (parts: seq<string>)
    requires i <= |s|
    ensures |parts| >= 1
    decreases |s| - i
  {
    var k := ColonFrom(s, i);
    if k == |s| then [s[i..]] else [s[i..k]] + SplitFrom(s, k + 1)
  }

  /** `strings.Split(s, ":")` */
  function Split(s: string): (parts: seq<string>)
    ensures |parts| >= 1
  {
    SplitFrom(s, 0)
  }

  lemma {:induction false} ColonAfter(a: string, tail: string, i: nat)
    requires ':' !in a && (tail == "" || tail[0] == ':') && i <= |a|
    ensures ColonFrom(a + tail, i) == |a|
    decreases |a| - i
  {
    if i < |a| {
      assert (a + tail)[i] == a[i];
      ColonAfter(a, tail, i + 1);
    }
  }

  lemma {:induction false} FirstColonAfter(a: string, tail: string)
    requires ':' !in a && (tail == "" || tail[0] == ':')
    ensures FirstColon(a + tail) == |a|
  {
    ColonAfter(a, tail, 0);
  }

  lemma {:induction false} ColonShift(p: string, b: string, i: nat)
    requires i <= |b|
    ensures ColonFrom(p + b, |p| + i) == |p| + ColonFrom(b, i)
    decreases |b| - i
  {
    if i < |b| {
      assert (p + b)[|p| + i] == b[i];
      if b[i] != ':' { ColonShift(p, b, i + 1); }
    }
  }

  lemma {:induction false} SplitShift(p: string, b: string, i: nat)
    requires i <= |b|
    ensures SplitFrom(p + b, |p| + i) == SplitFrom(b, i)
    decreases |b| - i
  {
    var k := ColonFrom(b, i);
    ColonShift(p, b, i);
    if k == |b| {
      assert (p + b)[|p| + i..] == b[i..];
    } else {
      SplitShift(p, b, k + 1);
      assert (p + b)[|p| + i..|p| + k] == b[i..k];
    }
  }

  /** A string without a colon is one field. */
  lemma {:induction false} SplitField(a: string)
    requires ':' !in a
    ensures Split(a) == [a]
  {
    FirstColonAfter(a, "");
    assert a + "" == a && a[0..] == a;
  }

  lemma {:induction false} SplitFirst(a: string, b: string)
    requires ':' !in a
    ensures Split(a + ":" + b) == [a] + Split(b)
  {
    var s := a + ":" + b;
    assert s == a + (":" + b) && s == (a + ":") + b;
    FirstColonAfter(a, ":" + b);
    SplitShift(a + ":", b, 0);
    assert s[0..|a|] == a;
  }

  lemma {:induction false} JoinAssoc(head: string, tail: string, b: string)
    ensures head + ":" + tail + ":" + b == head + ":" + (tail + ":" + b)
  { }

  /** Splitting takes joining apart. */
  lemma {:induction false} SplitJoined(a: string, b: string)
    ensures Split(a + ":" + b) == Split(a) + Split(b)
    decreases |a|
  {
    var k := FirstColon(a);
    if k == |a| {
      SplitFirst(a, b);
      SplitField(a);
    } else {
      assert a == a[..k] + ":" + a[k + 1..];
      SplitJoined(a[k + 1..], b);
      SplitJoinedStep(a[..k], a[k + 1..], b);
    }
  }

  lemma {:induction false} SplitJoinedStep(head: string, tail: string, b: string)
    requires ':' !in head && Split(tail + ":" + b) == Split(tail) + Split(b)
    ensures Split(head + ":" + tail + ":" + b) == Split(head + ":" + tail) + Split(b)
  {
    SplitFirst(head, tail);
    SplitFirst(head, tail + ":" + b);
    JoinAssoc(head, tail, b);
    FieldsAssoc(head, Split(tail), Split(b));
  }

  lemma {:induction false} FieldsAssoc(head: string, p: seq<string>, q: seq<string>)
    ensures [head] + (p + q) == [head] + p + q
  { }

  /** Without a colon between them, the last field of one string and the first of the next run together. */
  lemma {:induction false} SplitConcat(a: string, b: string)
    ensures var p, q := Split(a), Split(b);
      Split(a + b) == p[..|p| - 1] + [p[|p| - 1] + q[0]] + q[1..]
    decreases |a|
  {
    var k := FirstColon(a);
    if k == |a| {
      SplitField(a);
      SplitHead(a, b);
    } else {
      var head, tail := a[..k], a[k + 1..];
      assert a == head + ":" + tail && a + b == head + ":" + (tail + b);
      SplitConcat(tail, b);
      SplitFirst(head, tail);
      SplitFirst(head, tail + b);
      ConsFields(head, Split(tail), Split(b));
    }
  }

  lemma {:induction false} SplitHead(a: string, b: string)
    requires ':' !in a
    ensures Split(a + b) == [a + Split(b)[0]] + Split(b)[1..]
  {
    var k := FirstColon(b);
    assert b == b[..k] + b[k..];
    if k == |b| {
      SplitField(b);
      SplitField(a + b);
    } else {
      var head, tail := b[..k], b[k + 1..];
      assert b == head + ":" + tail && a + b == (a + head) + ":" + tail;
      SplitFirst(head, tail);
      SplitFirst(a + head, tail);
    }
  }

  lemma {:induction false} ConsFields(head: string, p: seq<string>, q: seq<string>)
    requires |p| >= 1 && |q| >= 1
    ensures var hp := [head] + p;
      hp[..|hp| - 1] + [hp[|hp| - 1] + q[0]] + q[1..] == [head] + (p[..|p| - 1] + [p[|p| - 1] + q[0]] + q[1..])
  { }

  lemma {:induction false} SplitCounts(a: string)
    requires ':' in a
    ensures |Split(a)| >= 2
  {
    var k := FirstColon(a);
  }
}
