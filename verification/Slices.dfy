/** Reversing a slice in place. */
module Slices {

  function Reversed<T>(s: seq<T>): (t: seq<T>)
    ensures |t| == |s| && forall i :: 0 <= i < |s| ==> t[i] == s[|s| - 1 - i]
  {
    if s == [] then [] else [s[|s| - 1]] + Reversed(s[..|s| - 1])
  }

  lemma {:induction false} ConcatAssoc<T>(a: seq<T>, b: seq<T>, c: seq<T>)
    ensures a + b + c == a + (b + c)
  { }

  /** Appending a sequence is appending all but its last element, and then that. */
  lemma {:induction false} ConcatSnoc<T>(a: seq<T>, b: seq<T>)
    requires b != []
    ensures a + b == a + b[..|b| - 1] + [b[|b| - 1]]
  { }

  lemma {:induction false} PrefixSnoc<T>(s: seq<T>, i: nat)
    requires i < |s|
    ensures s[..i] + [s[i]] == s[..i + 1]
  { }

  method ReverseSlice<T>(s: array<T>)
    modifies s
    ensures s[..] == Reversed(old(s[..]))
  {
    var i, j := 0, s.Length - 1;
    while i < j
      invariant 0 <= i <= s.Length && j == s.Length - 1 - i
      invariant forall k :: 0 <= k < i ==> s[k] == old(s[..])[s.Length - 1 - k]
      invariant forall k :: j < k < s.Length ==> s[k] == old(s[..])[s.Length - 1 - k]
      invariant forall k :: i <= k <= j ==> s[k] == old(s[..])[k]
    {
      s[i], s[j] := s[j], s[i];
      i, j := i + 1, j - 1;
    }
  }
}
