/** Making Kubernetes names: labels in the sense of section 2.1 of RFC 1123. */
module Names {

  const MAX_LABEL := 63
  const HASH_LEN := 8

  /** Lower-casing, whatever its table: only the characters it yields matter here. */
  type Lower = string -> string

  predicate IsAlnum(c: char) {
    'a' <= c <= 'z' || '0' <= c <= '9'
  }

  predicate IsLabelChar(c: char) {
    IsAlnum(c) || c == '-'
  }

  predicate LabelChars(s: string) {
    forall i :: 0 <= i < |s| ==> IsLabelChar(s[i])
  }

  predicate IsHash(s: string) {
    |s| == HASH_LEN && forall i :: 0 <= i < |s| ==> IsAlnum(s[i])
  }

  /** Eight lower-case hexadecimal characters; that they are letters and digits is what is used. */
  type Hash = s: string | IsHash(s) witness "00000000"

  /** The short digest, as any function. */
  type Digest = string -> Hash

  /** Letters, digits and dashes, beginning and ending with a letter or digit, of 1 to 63 characters. */
  predicate IsLabel(s: string) {
    1 <= |s| <= MAX_LABEL && LabelChars(s) && IsAlnum(s[0]) && IsAlnum(s[|s| - 1])
  }

  // ---- Trimming dashes ----

  function TrimLeft(s: string): string {
    if s != "" && s[0] == '-' then TrimLeft(s[1..]) else s
  }

  function TrimRight(s: string): string {
    if s != "" && s[|s| - 1] == '-' then TrimRight(s[..|s| - 1]) else s
  }

  function Trim(s: string): string {
    TrimRight(TrimLeft(s))
  }

  lemma {:induction false} TrimLeftSound(s: string)
    requires LabelChars(s)
    ensures LabelChars(TrimLeft(s)) && |TrimLeft(s)| <= |s|
    ensures TrimLeft(s) != "" ==> IsAlnum(TrimLeft(s)[0])
  {
    if s != "" && s[0] == '-' { TrimLeftSound(s[1..]); }
  }

  lemma {:induction false} TrimRightSound(s: string)
    requires LabelChars(s) && (s != "" ==> IsAlnum(s[0]))
    ensures LabelChars(TrimRight(s)) && |TrimRight(s)| <= |s|
    ensures s != "" ==> TrimRight(s) != "" && TrimRight(s)[0] == s[0]
    ensures TrimRight(s) != "" ==> IsAlnum(TrimRight(s)[|TrimRight(s)| - 1])
  {
    if s != "" && s[|s| - 1] == '-' { TrimRightSound(s[..|s| - 1]); }
  }

  /** What is left is empty or begins and ends with a letter or digit. */
  lemma {:induction false} TrimSound(s: string)
    requires LabelChars(s)
    ensures var t := Trim(s);
      LabelChars(t) && |t| <= |s| && (t != "" ==> IsAlnum(t[0]) && IsAlnum(t[|t| - 1]))
    ensures s != "" && IsAlnum(s[0]) ==> Trim(s) != ""
  {
    TrimLeftSound(s);
    TrimRightSound(TrimLeft(s));
  }

  // ---- Names ----

  function WithSuffix(name: string, suffix: Hash): string {
    var t := Trim(name);
    if t == "" then "v-" + suffix
    else if |t| + |suffix| + 1 > MAX_LABEL then Trim(t[..MAX_LABEL - |suffix| - 1]) + "-" + suffix
    else t + "-" + suffix
  }

  lemma {:induction false} WithSuffixIsLabel(name: string, suffix: Hash)
    requires LabelChars(name)
    ensures IsLabel(WithSuffix(name, suffix))
  {
    var t := Trim(name);
    TrimSound(name);
    if t == "" {
      SuffixedIsLabel("v", suffix);
      assert "v-" + suffix == "v" + "-" + suffix;
    } else if |t| + |suffix| + 1 > MAX_LABEL {
      var cut := t[..MAX_LABEL - |suffix| - 1];
      TrimSound(cut);
      SuffixedIsLabel(Trim(cut), suffix);
    } else {
      SuffixedIsLabel(t, suffix);
    }
  }

  lemma {:induction false} SuffixedIsLabel(t: string, suffix: Hash)
    requires t != "" && LabelChars(t) && IsAlnum(t[0]) && |t| + 1 + |suffix| <= MAX_LABEL
    ensures IsLabel(t + "-" + suffix)
  {
    var r := t + "-" + suffix;
    forall i | 0 <= i < |r| ensures IsLabelChar(r[i]) {
      if i < |t| {
        assert r[i] == t[i];
      } else if i > |t| {
        assert r[i] == suffix[i - |t| - 1];
      }
    }
    assert r[|r| - 1] == suffix[HASH_LEN - 1];
  }

  /** Letters and digits kept, every other run of characters collapsed to one dash; `dashed` says one was just written. */
  function Collapse(s: string, dashed: bool): string {
    if s == "" then ""
    else if IsAlnum(s[0]) then [s[0]] + Collapse(s[1..], false)
    else if dashed then Collapse(s[1..], true)
    else "-" + Collapse(s[1..], true)
  }

  lemma {:induction false} CollapseIsLabelChars(s: string, dashed: bool)
    ensures LabelChars(Collapse(s, dashed))
  {
    if s != "" {
      CollapseIsLabelChars(s[1..], false);
      CollapseIsLabelChars(s[1..], true);
    }
  }

  function Sanitized(lower: Lower, hash: Digest, s: string): string {
    var name := Trim(Collapse(lower(s), false));
    if name == "" then "v-" + hash(s)
    else if |name| > MAX_LABEL then WithSuffix(name[..MAX_LABEL - HASH_LEN - 1], hash(s))
    else name
  }

  /** No two dashes in a row: the collapse is complete. */
  predicate SingleDashes(s: string) {
    forall i :: 0 < i < |s| ==> s[i - 1] != '-' || s[i] != '-'
  }

  lemma {:induction false} CollapseSingleDashes(s: string, dashed: bool)
    ensures SingleDashes(Collapse(s, dashed))
    ensures dashed && Collapse(s, dashed) != "" ==> Collapse(s, dashed)[0] != '-'
  {
    if s != "" {
      CollapseSingleDashes(s[1..], false);
      CollapseSingleDashes(s[1..], true);
    }
  }

  /** Trimming takes a slice. */
  lemma {:induction false} TrimSingleDashes(s: string)
    requires SingleDashes(s)
    ensures SingleDashes(Trim(s))
  {
    TrimLeftSlice(s);
    TrimRightSlice(TrimLeft(s));
  }

  lemma {:induction false} TrimLeftSlice(s: string)
    requires SingleDashes(s)
    ensures SingleDashes(TrimLeft(s))
  {
    if s != "" && s[0] == '-' { TrimLeftSlice(s[1..]); }
  }

  lemma {:induction false} TrimRightSlice(s: string)
    requires SingleDashes(s)
    ensures SingleDashes(TrimRight(s))
  {
    if s != "" && s[|s| - 1] == '-' { TrimRightSlice(s[..|s| - 1]); }
  }

  lemma {:induction false} SuffixedSingleDashes(t: string, suffix: Hash)
    requires SingleDashes(t) && t != "" && IsAlnum(t[|t| - 1])
    ensures SingleDashes(t + "-" + suffix)
  {
    var r := t + "-" + suffix;
    forall i | 0 < i < |r| ensures r[i - 1] != '-' || r[i] != '-' {
      if i > |t| { assert r[i] == suffix[i - |t| - 1]; }
    }
  }

  lemma {:induction false} WithSuffixSingleDashes(name: string, suffix: Hash)
    requires LabelChars(name) && SingleDashes(name)
    ensures SingleDashes(WithSuffix(name, suffix))
  {
    var t := Trim(name);
    TrimSound(name);
    TrimSingleDashes(name);
    if t == "" {
      SuffixedSingleDashes("v", suffix);
      assert "v-" + suffix == "v" + "-" + suffix;
    } else if |t| + |suffix| + 1 > MAX_LABEL {
      var cut := t[..MAX_LABEL - |suffix| - 1];
      TrimSound(cut);
      TrimSingleDashes(cut);
      SuffixedSingleDashes(Trim(cut), suffix);
    } else {
      SuffixedSingleDashes(t, suffix);
    }
  }

  /** Any string becomes a label, with no two dashes in a row. */
  lemma {:induction false} SanitizedIsLabel(lower: Lower, hash: Digest, s: string)
    ensures IsLabel(Sanitized(lower, hash, s)) && SingleDashes(Sanitized(lower, hash, s))
    ensures var r := Sanitized(lower, hash, s);
      1 <= |r| <= 63 && r[0] != '-' && r[|r| - 1] != '-'
      && forall i :: 0 <= i < |r| ==> 'a' <= r[i] <= 'z' || '0' <= r[i] <= '9' || r[i] == '-'
  {
    var raw := Collapse(lower(s), false);
    CollapseIsLabelChars(lower(s), false);
    CollapseSingleDashes(lower(s), false);
    TrimSound(raw);
    TrimSingleDashes(raw);
    var name := Trim(raw);
    if name == "" {
      SuffixedIsLabel("v", hash(s));
      SuffixedSingleDashes("v", hash(s));
      assert "v-" + hash(s) == "v" + "-" + hash(s);
    } else if |name| > MAX_LABEL {
      WithSuffixIsLabel(name[..MAX_LABEL - HASH_LEN - 1], hash(s));
      WithSuffixSingleDashes(name[..MAX_LABEL - HASH_LEN - 1], hash(s));
    }
  }

  lemma {:induction false} CollapseFixes(s: string, dashed: bool)
    requires LabelChars(s) && SingleDashes(s) && (dashed && s != "" ==> s[0] != '-')
    ensures Collapse(s, dashed) == s
  {
    if s != "" {
      CollapseFixes(s[1..], s[0] == '-');
      assert s == [s[0]] + s[1..];
    }
  }

  /** The strings sanitizing leaves alone are exactly the labels it can produce, so it is idempotent. */
  lemma {:induction false} SanitizedFixesLabels(lower: Lower, hash: Digest, s: string)
    requires lower(s) == s
    ensures Sanitized(lower, hash, s) == s <==> IsLabel(s) && SingleDashes(s)
  {
    SanitizedIsLabel(lower, hash, s);
    if IsLabel(s) && SingleDashes(s) {
      CollapseFixes(s, false);
    }
  }

  // ---- What a name says of the string it was made from ----

  predicate AllAlnum(s: string) {
    forall i :: 0 <= i < |s| ==> IsAlnum(s[i])
  }

  /** How many letters and digits `s` begins with. */
  function Run(s: string): (k: nat)
    ensures k <= |s| && AllAlnum(s[..k]) && (k < |s| ==> !IsAlnum(s[k]))
    ensures forall i :: 0 <= i < k ==> 'a' <= s[i] <= 'z' || '0' <= s[i] <= '9'
    ensures k < |s| ==> !('a' <= s[k] <= 'z' || '0' <= s[k] <= '9')
  {
    if s == "" || !IsAlnum(s[0]) then 0
    else
      var k := Run(s[1..]);
      assert forall i :: 0 < i <= k ==> s[i] == s[1..][..k][i - 1];
      k + 1
  }

  /** The maximal runs of letters and digits. */
  function Words(s: string): seq<string>
    decreases |s|
  {
    if s == "" then []
    else if Run(s) == 0 then Words(s[1..])
    else [s[..Run(s)]] + Words(s[Run(s)..])
  }

  function Dashed(words: seq<string>): string {
    if words == [] then ""
    else if |words| == 1 then words[0]
    else words[0] + "-" + Dashed(words[1..])
  }

  lemma {:induction false} CollapseRun(w: string, t: string, dashed: bool)
    requires AllAlnum(w) && w != ""
    ensures Collapse(w + t, dashed) == w + Collapse(t, false)
  {
    var s := w + t;
    assert s[0] == w[0] && IsAlnum(w[0]);
    if |w| == 1 {
      assert s[1..] == t;
    } else {
      assert s[1..] == w[1..] + t && w == [w[0]] + w[1..];
      CollapseRun(w[1..], t, false);
    }
  }

  lemma {:induction false} TrimLeftCollapse(s: string)
    ensures TrimLeft(Collapse(s, false)) == Collapse(s, true)
  {
    CollapseSingleDashes(s, true);
    if s != "" && !IsAlnum(s[0]) {
      assert Collapse(s, false)[1..] == Collapse(s[1..], true);
    }
  }

  lemma {:induction false} TrimRightKeeps(p: string, x: string)
    ensures TrimRight(x) != "" ==> TrimRight(p + x) == p + TrimRight(x)
  {
    if x != "" && x[|x| - 1] == '-' {
      assert (p + x)[..|p + x| - 1] == p + x[..|x| - 1];
      TrimRightKeeps(p, x[..|x| - 1]);
    }
  }

  lemma {:induction false} TrimmedWord(w: string)
    requires AllAlnum(w) && w != ""
    ensures TrimRight(w) == w && TrimRight(w + "-") == w
  {
    assert IsAlnum(w[|w| - 1]) && (w + "-")[..|w|] == w;
  }

  /** The first word and what follows it. */
  lemma {:induction false} TrimmedStep(w: string, t: string)
    requires AllAlnum(w) && w != "" && (t != "" ==> !IsAlnum(t[0]))
    requires TrimRight(Collapse(t, true)) == Dashed(Words(t))
    ensures TrimRight(w + Collapse(t, false)) == Dashed([w] + Words(t))
  {
    TrimmedWord(w);
    if t == "" {
      assert w + "" == w;
    } else {
      var x := Collapse(t, true);
      CollapseSingleDashes(t, true);
      CollapseIsLabelChars(t, true);
      TrimRightSound(x);
      DashedEmpty(t);
      TrimAfterDash(w, x);
      assert Collapse(t, false) == "-" + x;
    }
  }

  lemma {:induction false} TrimAfterDash(w: string, x: string)
    requires AllAlnum(w) && w != "" && (TrimRight(x) == "" ==> x == "")
    ensures TrimRight(w + ("-" + x)) == if x == "" then w else w + "-" + TrimRight(x)
  {
    TrimmedWord(w);
    assert w + ("-" + x) == (w + "-") + x;
    if x == "" {
      assert (w + "-") + x == w + "-";
    } else {
      TrimRightKeeps(w + "-", x);
    }
  }

  lemma {:induction false} DashedEmpty(t: string)
    ensures Dashed(Words(t)) == "" <==> Words(t) == []
    decreases |t|
  {
    if t != "" && Run(t) == 0 { DashedEmpty(t[1..]); }
  }

  lemma {:induction false} TrimmedWords(s: string)
    ensures TrimRight(Collapse(s, true)) == Dashed(Words(s))
    decreases |s|
  {
    if s != "" && Run(s) == 0 {
      TrimmedWords(s[1..]);
    } else if s != "" {
      var k := Run(s);
      TrimmedWords(s[k..]);
      assert s == s[..k] + s[k..];
      CollapseRun(s[..k], s[k..], true);
      TrimmedStep(s[..k], s[k..]);
    }
  }

  /** Collapsing and trimming joins the words of the string with dashes. */
  lemma {:induction false} TrimmedIsDashed(s: string)
    ensures Trim(Collapse(s, false)) == Dashed(Words(s))
  {
    TrimLeftCollapse(s);
    TrimmedWords(s);
  }

  /** `r` is the first 54 characters of `full`, or 53 when a dash would come last, a dash and the hash. */
  predicate CutWithHash(full: string, hash: string, r: string) {
    if |full| < 54 then false
    else if full[53] == '-' then r == full[..53] + "-" + hash
    else r == full[..54] + "-" + hash
  }

  lemma {:induction false} TrimCut(full: string)
    requires |full| >= 54 && LabelChars(full) && SingleDashes(full) && full[0] != '-'
    ensures Trim(full[..54]) == if full[53] == '-' then full[..53] else full[..54]
  {
    var cut := full[..54];
    assert TrimLeft(cut) == cut && cut[53] == full[53];
    if full[53] == '-' {
      assert full[53 - 1] != '-';
      var shorter := full[..53];
      assert shorter[|shorter| - 1] == full[52] && TrimRight(shorter) == shorter;
      assert cut[..|cut| - 1] == shorter;
    }
  }

  /**
    * What a name keeps of its string: the words joined with dashes, cut with a hash of the string when they are too
    * long, and the hash alone when there are none.
    */
  lemma {:induction false} SanitizedMeans(lower: Lower, hash: Digest, s: string)
    ensures var full, r := Dashed(Words(lower(s))), Sanitized(lower, hash, s);
      if full == "" then r == "v-" + hash(s)
      else if |full| <= 63 then r == full
      else CutWithHash(full, hash(s), r)
  {
    var full := Dashed(Words(lower(s)));
    TrimmedIsDashed(lower(s));
    CollapseIsLabelChars(lower(s), false);
    CollapseSingleDashes(lower(s), false);
    TrimSound(Collapse(lower(s), false));
    TrimSingleDashes(Collapse(lower(s), false));
    if |full| > 63 {
      TrimCut(full);
    }
  }

  /** A suffixed name is the name, cut as above when there is no room, a dash and the suffix. */
  lemma {:induction false} WithSuffixMeans(name: string, suffix: Hash)
    requires IsLabel(name) && SingleDashes(name)
    ensures if |name| <= 54 then WithSuffix(name, suffix) == name + "-" + suffix
            else CutWithHash(name, suffix, WithSuffix(name, suffix))
  {
    assert TrimLeft(name) == name && Trim(name) == name;
    if |name| > 54 { TrimCut(name); }
  }

  /** The builder loop of sanitizeName: one pass with a flag. */
  method CollapseRuns(text: string) returns (b: string)
    ensures b == Collapse(text, false)
  {
    b := "";
    var dashed := false;
    for i := 0 to |text|
      invariant b + Collapse(text[i..], dashed) == Collapse(text, false)
    {
      assert text[i..][1..] == text[i + 1..] && text[i..][0] == text[i];
      if IsAlnum(text[i]) {
        b := b + [text[i]];
        dashed := false;
      } else if !dashed {
        b := b + "-";
        dashed := true;
      }
    }
    assert text[|text|..] == "" && b + "" == b;
  }

  method SanitizeName(lower: Lower, hash: Digest, s: string) returns (name: string)
    ensures name == Sanitized(lower, hash, s) && IsLabel(name)
  {
    SanitizedIsLabel(lower, hash, s);
    var b := CollapseRuns(lower(s));
    name := Trim(b);
    if name == "" {
      return "v-" + hash(s);
    }
    if |name| > MAX_LABEL {
      name := WithSuffix(name[..MAX_LABEL - HASH_LEN - 1], hash(s));
    }
  }
}
