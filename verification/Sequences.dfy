/** Facts about sequences as multisets, used where a slice is sorted in place. */
module Sequences {

  ghost predicate Distinct<T>(s: seq<T>) {
    forall i, j :: 0 <= i < j < |s| ==> s[i] != s[j]
  }

  lemma {:induction false} DistinctCount<T>(s: seq<T>, x: T)
    requires Distinct(s)
    ensures multiset(s)[x] <= 1
  {
    if s != [] {
      var n := |s| - 1;
      DistinctCount(s[..n], x);
      assert s == s[..n] + [s[n]] && s[n] !in s[..n];
    }
  }

  lemma RepeatCount<T>(s: seq<T>, i: nat, j: nat)
    requires i < j < |s| && s[i] == s[j]
    ensures multiset(s)[s[i]] >= 2
  {
    assert s == s[..j] + ([s[j]] + s[j + 1..]);
    assert s[i] in s[..j];
  }

  /** A permutation of a sequence without repeats has none either. */
  lemma DistinctPermutes<T>(s: seq<T>, t: seq<T>)
    requires Distinct(s) && multiset(s) == multiset(t)
    ensures Distinct(t)
  {
    forall i, j | 0 <= i < j < |t| ensures t[i] != t[j] {
      if t[i] == t[j] {
        DistinctCount(s, t[i]);
        RepeatCount(t, i, j);
      }
    }
  }

  lemma SplitLast<T>(s: seq<T>)
    requires s != []
    ensures s == s[..|s| - 1] + [s[|s| - 1]]
    ensures multiset(s) == multiset(s[..|s| - 1]) + multiset{s[|s| - 1]}
  {
    assert s == s[..|s| - 1] + [s[|s| - 1]];
  }

  lemma SplitAt<T>(s: seq<T>, k: nat)
    requires k < |s|
    ensures s == s[..k] + ([s[k]] + s[k + 1..])
    ensures multiset(s) == multiset(s[..k] + s[k + 1..]) + multiset{s[k]}
  {
    assert s == s[..k] + ([s[k]] + s[k + 1..]);
  }

  lemma SliceGrows<T>(s: seq<T>, low: nat, high: nat)
    requires low < high <= |s|
    ensures s[low..high] == s[low..high - 1] + [s[high - 1]]
  {
  }

  /** Taking the same element out of two permutations leaves two permutations. */
  lemma RemoveLast<T>(s: seq<T>, t: seq<T>) returns (k: nat)
    requires multiset(s) == multiset(t) && s != []
    ensures k < |t| && t[k] == s[|s| - 1] && multiset(s[..|s| - 1]) == multiset(t[..k] + t[k + 1..])
    ensures t == t[..k] + ([t[k]] + t[k + 1..]) && s == s[..|s| - 1] + [s[|s| - 1]]
  {
    var x := s[|s| - 1];
    SplitLast(s);
    assert x in multiset(t);
    k :| 0 <= k < |t| && t[k] == x;
    SplitAt(t, k);
    CancelOne(multiset(s[..|s| - 1]), multiset(t[..k] + t[k + 1..]), x);
  }

  lemma CancelOne<T>(a: multiset<T>, b: multiset<T>, x: T)
    requires a + multiset{x} == b + multiset{x}
    ensures a == b
  {
    assert a == a + multiset{x} - multiset{x} && b == b + multiset{x} - multiset{x};
  }

  ghost predicate Permutation<T>(s: seq<T>, t: seq<T>) {
    multiset(s) == multiset(t)
  }

  lemma PermutesItself<T>(s: seq<T>)
    ensures Permutation(s, s)
  {
  }

  lemma SwapPermutes<T>(orig: seq<T>, s: seq<T>, i: nat, j: nat)
    requires Permutation(orig, s) && i < j < |s|
    ensures Permutation(orig, s[i := s[j]][j := s[i]])
  {
  }
}
