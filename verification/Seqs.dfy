/** Facts about lists that several modules use. */
module Seqs {

  ghost predicate Within<T>(s: seq<T>, all: seq<T>) {
    forall i :: 0 <= i < |s| ==> s[i] in all
  }

  lemma {:induction false} SameElements<T>(a: seq<T>, b: seq<T>)
    requires multiset(a) == multiset(b)
    ensures |a| == |b| && Within(a, b)
  {
    assert |a| == |multiset(a)| && |b| == |multiset(b)|;
    forall i | 0 <= i < |a| ensures a[i] in b {
      assert a[i] in multiset(a);
    }
  }

  /** The list with the item at one position taken out. */
  function Without<T>(s: seq<T>, k: nat): (r: seq<T>)
    requires k < |s|
    ensures |r| == |s| - 1
  {
    s[..k] + s[k + 1..]
  }

  lemma {:induction false} OneOut<T>(s: seq<T>, k: nat)
    requires k < |s|
    ensures multiset(Without(s, k)) == multiset(s) - multiset{s[k]}
  {
    assert s == s[..k] + ([s[k]] + s[k + 1..]);
  }

  /** The last item of a list is somewhere in each of its permutations. */
  lemma {:induction false} LastFound<T>(a: seq<T>, b: seq<T>) returns (k: nat)
    requires multiset(a) == multiset(b) && |a| > 0
    ensures k < |b| && b[k] == a[|a| - 1]
    ensures multiset(a[..|a| - 1]) == multiset(Without(b, k))
  {
    SameElements(a, b);
    var n := |a| - 1;
    k :| 0 <= k < |b| && b[k] == a[n];
    OneOut(b, k);
    OneOut(a, n);
    assert Without(a, n) == a[..n];
  }

  function SumOf<T>(f: T -> real, s: seq<T>): real {
    if |s| == 0 then 0.0 else SumOf(f, s[..|s| - 1]) + f(s[|s| - 1])
  }

  lemma {:induction false} SumWithout<T>(f: T -> real, s: seq<T>, k: nat)
    requires k < |s|
    ensures SumOf(f, s) == SumOf(f, Without(s, k)) + f(s[k])
  {
    var n := |s| - 1;
    if k == n {
      assert Without(s, k) == s[..n];
    } else {
      SumWithout(f, s[..n], k);
      assert Without(s, k)[..n - 1] == Without(s[..n], k);
    }
  }

  lemma {:induction false} SumOfPermutation<T>(f: T -> real, a: seq<T>, b: seq<T>)
    requires multiset(a) == multiset(b)
    ensures SumOf(f, a) == SumOf(f, b)
  {
    if |a| > 0 {
      var k := LastFound(a, b);
      SumOfPermutation(f, a[..|a| - 1], Without(b, k));
      SumWithout(f, b, k);
    } else {
      SameElements(a, b);
    }
  }

  /** The rest of a list once one of its items is taken to the front. */
  lemma {:induction false} BringForward<T>(s: seq<T>, x: T) returns (rest: seq<T>)
    requires x in s
    ensures multiset([x] + rest) == multiset(s)
    ensures forall y :: y in s && y != x ==> y in rest
  {
    var k :| 0 <= k < |s| && s[k] == x;
    OneOut(s, k);
    rest := Without(s, k);
    assert forall y :: y in s && y != x ==> y in multiset(rest);
  }
}
