/** Facts about sequences with the same elements. */
module Sequences {

  lemma WithoutOne<T>(s: seq<T>, k: nat)
    requires k < |s|
    ensures multiset(s[..k] + s[k + 1..]) == multiset(s) - multiset{s[k]}
  {
    assert s == s[..k] + [s[k]] + s[k + 1..];
  }

  /** Taking one element out leaves the last where it is. */
  lemma LastStays<T>(s: seq<T>, k: nat)
    requires k < |s| - 1
    ensures var init := s[..|s| - 1];
            s[..k] + s[k + 1..] == (init[..k] + init[k + 1..]) + [s[|s| - 1]]
  {
  }

  /** The last element of one arrangement can be taken out of the other. */
  lemma SameLast<T>(a: seq<T>, b: seq<T>) returns (k: nat)
    requires multiset(a) == multiset(b) && a != []
    ensures |a| == |b|
    ensures k < |b| && b[k] == a[|a| - 1]
    ensures multiset(a[..|a| - 1]) == multiset(b[..k] + b[k + 1..])
  {
    assert |a| == |multiset(a)| == |multiset(b)| == |b|;
    var last := a[|a| - 1];
    assert a == a[..|a| - 1] + [last];
    assert last in multiset(b);
    k :| 0 <= k < |b| && b[k] == last;
    WithoutOne(b, k);
  }
}
