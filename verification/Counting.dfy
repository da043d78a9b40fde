/** How large finite sets and multisets can be: what bounds the length of a run. */
module Counting {

  lemma {:induction false} SubsetSize<T>(a: set<T>, b: set<T>)
    requires a <= b
    ensures |a| <= |b|
    decreases |a|
  {
    if a != {} {
      var x :| x in a;
      SubsetSize(a - {x}, b - {x});
    }
  }

  /** A bag over finitely many kinds with a bounded number of each. */
  lemma {:induction false} MultisetSize<T>(m: multiset<T>, kinds: set<T>, each: nat)
    requires forall x :: x in m ==> x in kinds
    requires forall x :: m[x] <= each
    ensures |m| <= each * |kinds|
    decreases |kinds|
  {
    if kinds == {} {
      assert m == multiset{};
    } else {
      var x :| x in kinds;
      var rest := m[x := 0];
      assert |rest| + m[x] == |m|;
      MultisetSize(rest, kinds - {x}, each);
      assert each * |kinds| == each * |kinds - {x}| + each;
    }
  }

  /** An element at two places occurs twice. */
  lemma Twice<T>(s: seq<T>, i: nat, j: nat)
    requires i < j < |s| && s[i] == s[j]
    ensures multiset(s)[s[i]] >= 2
  {
    assert s == s[..j] + s[j..];
    assert s[i] in s[..j] && s[j..][0] == s[j] && s[j] in s[j..];
  }

  lemma {:induction false} IntervalSize(s: set<nat>, lo: nat, hi: nat)
    requires lo <= hi && forall x: nat :: x in s <==> lo <= x < hi
    ensures |s| == hi - lo
    decreases hi - lo
  {
    if lo == hi {
      assert s == {};
    } else {
      IntervalSize(s - {hi - 1}, lo, hi - 1);
    }
  }
}
