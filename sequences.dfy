/** Generic facts about searching, filtering and de-duplicating sequences. */
module Sequences {
  import opened Wrappers

  /** Position of the first occurrence of `x` in `s`, if there is one. */
  function IndexOf<T(==)>(s: seq<T>, x: T): (r: Option<nat>)
    ensures r.None? <==> x !in s
    ensures r.Some? ==> r.value < |s| && s[r.value] == x
    ensures r.Some? ==> forall k :: 0 <= k < r.value ==> s[k] != x
  {
    if |s| == 0 then None
    else if s[0] == x then Some(0)
    else match IndexOf(s[1..], x)
      case None => None
      case Some(i) => Some(i + 1)
  }

  /** Position of the last occurrence of `x` in `s`, if there is one. */
  function LastIndexOf<T(==)>(s: seq<T>, x: T): (r: Option<nat>)
    ensures r.None? <==> x !in s
    ensures r.Some? ==> r.value < |s| && s[r.value] == x
    ensures r.Some? ==> forall k :: r.value < k < |s| ==> s[k] != x
  {
    if |s| == 0 then None
    else if s[|s| - 1] == x then Some(|s| - 1)
    else LastIndexOf(s[..|s| - 1], x)
  }

  /** `a` can be obtained from `b` by deleting elements, keeping the order of the rest. */
  ghost predicate IsSubsequence<T>(a: seq<T>, b: seq<T>)
    decreases |b|
  {
    if a == [] then true
    else if b == [] then false
    else (a[0] == b[0] && IsSubsequence(a[1..], b[1..])) || IsSubsequence(a, b[1..])
  }

  lemma {:induction false} SubsequenceOfSelf<T>(b: seq<T>)
    ensures IsSubsequence(b, b)
    decreases |b|
  {
    if b != [] {
      SubsequenceOfSelf(b[1..]);
    }
  }

  predicate NoDuplicates<T(==)>(s: seq<T>) {
    forall i, j :: 0 <= i < j < |s| ==> s[i] != s[j]
  }

  /**
   * The distinct elements of `s`, each kept at its first appearance
   * (the order of pandas' `unique`).
   */
  function Distinct<T(==)>(s: seq<T>): (r: seq<T>)
    ensures NoDuplicates(r)
    ensures forall i :: 0 <= i < |r| ==> r[i] in s
    ensures forall i :: 0 <= i < |s| ==> s[i] in r
    ensures forall i, j :: 0 <= i < j < |r| ==> IndexOf(s, r[i]).value < IndexOf(s, r[j]).value
    decreases |s|
  {
    if s == [] then []
    else
      var init, x := s[..|s| - 1], s[|s| - 1];
      var d := Distinct(init);
      FirstPositionInPrefix(s, |s| - 1);
      assert s == init + [x];
      if x in d then d
      else
        assert IndexOf(s, x).value == |s| - 1;
        d + [x]
  }

  /** Extending a sequence does not move the first occurrence of an element it already held. */
  lemma FirstPositionInPrefix<T>(s: seq<T>, n: nat)
    requires n <= |s|
    ensures forall y :: y in s[..n] ==> IndexOf(s, y).Some? && IndexOf(s, y) == IndexOf(s[..n], y)
  {
  }
}
