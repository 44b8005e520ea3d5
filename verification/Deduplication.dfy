/** Stable deduplication: of the metric events, of the physical package ids. */
module Deduplication {
  /** The first occurrences of the elements of `s`, in order. */
  function FirstOccurrences<T(==)>(s: seq<T>): seq<T> {
    if s == [] then []
    else
      var n := |s| - 1;
      FirstOccurrences(s[..n]) + if s[n] in s[..n] then [] else [s[n]]
  }

  lemma {:induction false} SameElements<T>(s: seq<T>, e: T)
    ensures e in FirstOccurrences(s) <==> e in s
  {
    if s != [] {
      var n := |s| - 1;
      SameElements(s[..n], e);
      assert s == s[..n] + [s[n]];
    }
  }

  predicate Distinct<T(==)>(s: seq<T>) {
    forall i, j :: 0 <= i < j < |s| ==> s[i] != s[j]
  }

  lemma {:induction false} NoDuplicates<T>(s: seq<T>)
    ensures Distinct(FirstOccurrences(s))
  {
    if s != [] {
      var n := |s| - 1;
      NoDuplicates(s[..n]);
      SameElements(s[..n], s[n]);
    }
  }

  function IndexOf<T(==)>(s: seq<T>, e: T): (i: nat)
    requires e in s
    ensures i < |s| && s[i] == e && forall k :: 0 <= k < i ==> s[k] != e
  {
    if s[0] == e then 0 else 1 + IndexOf(s[1..], e)
  }

  lemma IndexInPrefix<T>(s: seq<T>, n: nat, e: T)
    requires n <= |s| && e in s[..n]
    ensures e in s && IndexOf(s, e) == IndexOf(s[..n], e) < n
  {
    var j := IndexOf(s[..n], e);
    assert s[j] == e;
    assert forall k :: 0 <= k < j ==> s[k] == s[..n][k];
  }

  /** The deduplicated list is ordered by first occurrence. */
  lemma {:induction false} OrderedByFirst<T>(s: seq<T>, i: nat, j: nat)
    requires i < j < |FirstOccurrences(s)|
    ensures var f := FirstOccurrences(s);
            f[i] in s && f[j] in s && IndexOf(s, f[i]) < IndexOf(s, f[j])
  {
    var n := |s| - 1;
    var f := FirstOccurrences(s);
    SameElements(s, f[i]);
    SameElements(s, f[j]);
    SameElements(s[..n], f[i]);
    assert f[i] in FirstOccurrences(s[..n]);
    IndexInPrefix(s, n, f[i]);
    if j < |FirstOccurrences(s[..n])| {
      OrderedByFirst(s[..n], i, j);
      IndexInPrefix(s, n, f[j]);
    } else {
      assert f[j] == s[n] && s[n] !in s[..n];
      assert forall k :: 0 <= k < n ==> s[..n][k] == s[k] && s[k] != s[n];
    }
  }

  lemma FirstOccurrencesSnoc<T>(s: seq<T>, e: T)
    ensures FirstOccurrences(s + [e]) == FirstOccurrences(s) + if e in FirstOccurrences(s) then [] else [e]
  {
    assert (s + [e])[..|s|] == s;
    SameElements(s, e);
  }
}
