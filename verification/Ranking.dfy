/** Stable sorting and standard ("1224") ranking by a comparator
    (internal/service/competition/helpers.go). Negative: the first argument ranks better; zero: tied. */
module Ranking {
  import opened Seqs

  /** The comparator orders the items consistently: ties are mutual and nothing goes round in circles. */
  ghost predicate Consistent<T>(cmp: (T, T) -> int, items: seq<T>) {
    && (forall x, y :: x in items && y in items ==> (cmp(x, y) < 0 <==> cmp(y, x) > 0))
    && (forall x, y, z :: x in items && y in items && z in items && cmp(x, y) <= 0 && cmp(y, z) <= 0 ==> cmp(x, z) <= 0)
  }

  ghost predicate Sorted<T>(cmp: (T, T) -> int, s: seq<T>) {
    forall i, j :: 0 <= i < j < |s| ==> cmp(s[i], s[j]) <= 0
  }

  /** Insertion from the right, past the items that x is strictly better than. */
  function Insert<T>(cmp: (T, T) -> int, s: seq<T>, x: T): (r: seq<T>)
    ensures |r| == |s| + 1
  {
    if |s| == 0 || cmp(x, s[|s| - 1]) >= 0 then s + [x]
    else Insert(cmp, s[..|s| - 1], x) + [s[|s| - 1]]
  }

  function StableSort<T>(cmp: (T, T) -> int, items: seq<T>): (r: seq<T>)
    ensures |r| == |items|
  {
    if |items| == 0 then []
    else Insert(cmp, StableSort(cmp, items[..|items| - 1]), items[|items| - 1])
  }

  lemma {:induction false} InsertPermutes<T>(cmp: (T, T) -> int, s: seq<T>, x: T)
    ensures multiset(Insert(cmp, s, x)) == multiset(s + [x])
  {
    if |s| > 0 && cmp(x, s[|s| - 1]) < 0 {
      InsertPermutes(cmp, s[..|s| - 1], x);
      assert s == s[..|s| - 1] + [s[|s| - 1]];
    }
  }

  /** Whatever the comparator, sorting loses and invents nothing. */
  lemma {:induction false} SortPermutes<T>(cmp: (T, T) -> int, items: seq<T>)
    ensures multiset(StableSort(cmp, items)) == multiset(items)
  {
    if |items| > 0 {
      var n := |items| - 1;
      var front, last := items[..n], items[n];
      SortPermutes(cmp, front);
      InsertPermutes(cmp, StableSort(cmp, front), last);
      assert items == front + [last];
      assert multiset(StableSort(cmp, front) + [last]) == multiset(front + [last]);
    }
  }

  lemma {:induction false} InsertWithin<T>(cmp: (T, T) -> int, s: seq<T>, x: T, all: seq<T>)
    requires Within(s, all) && x in all
    ensures Within(Insert(cmp, s, x), all)
  {
    if |s| > 0 && cmp(x, s[|s| - 1]) < 0 {
      InsertWithin(cmp, s[..|s| - 1], x, all);
    }
  }

  lemma {:induction false} SortWithin<T>(cmp: (T, T) -> int, items: seq<T>, all: seq<T>)
    requires Within(items, all)
    ensures Within(StableSort(cmp, items), all)
  {
    if |items| > 0 {
      SortWithin(cmp, items[..|items| - 1], all);
      InsertWithin(cmp, StableSort(cmp, items[..|items| - 1]), items[|items| - 1], all);
    }
  }

  /** What the coarse comparator tells apart, the fine one tells apart the same way. */
  ghost predicate Refines<T>(cmp: (T, T) -> int, coarse: (T, T) -> int, all: seq<T>) {
    forall x, y :: x in all && y in all ==> (coarse(x, y) < 0 ==> cmp(x, y) < 0) && (coarse(x, y) > 0 ==> cmp(x, y) > 0)
  }

  /** y ranks no better than anything in s. */
  ghost predicate NoBetter<T>(cmp: (T, T) -> int, s: seq<T>, y: T) {
    forall i :: 0 <= i < |s| ==> cmp(s[i], y) <= 0
  }

  lemma {:induction false} SortedSnoc<T>(cmp: (T, T) -> int, s: seq<T>, y: T)
    requires Sorted(cmp, s) && NoBetter(cmp, s, y)
    ensures Sorted(cmp, s + [y])
  {
  }

  lemma {:induction false} InsertNoBetter<T>(cmp: (T, T) -> int, coarse: (T, T) -> int, s: seq<T>, x: T, y: T)
    requires NoBetter(coarse, s, y) && coarse(x, y) <= 0
    ensures NoBetter(coarse, Insert(cmp, s, x), y)
  {
    if |s| > 0 && cmp(x, s[|s| - 1]) < 0 {
      InsertNoBetter(cmp, coarse, s[..|s| - 1], x, y);
    }
  }

  lemma {:induction false} InsertKeepsSorted<T>(cmp: (T, T) -> int, coarse: (T, T) -> int, s: seq<T>, x: T, all: seq<T>)
    requires Consistent(coarse, all) && Refines(cmp, coarse, all)
    requires Within(s, all) && x in all && Sorted(coarse, s)
    ensures Sorted(coarse, Insert(cmp, s, x))
  {
    var n := |s| - 1;
    if |s| == 0 || cmp(x, s[n]) >= 0 {
      forall i | 0 <= i < |s| ensures coarse(s[i], x) <= 0 {
        assert coarse(x, s[n]) >= 0;
        assert i == n || coarse(s[i], s[n]) <= 0;
      }
      SortedSnoc(coarse, s, x);
    } else {
      InsertKeepsSorted(cmp, coarse, s[..n], x, all);
      InsertNoBetter(cmp, coarse, s[..n], x, s[n]);
      SortedSnoc(coarse, Insert(cmp, s[..n], x), s[n]);
    }
  }

  /** Whatever the fine comparator does with the ties of a consistent coarse one, going round in circles
      included, the result is in coarse order. */
  lemma {:induction false} SortSortsCoarsely<T>(cmp: (T, T) -> int, coarse: (T, T) -> int, items: seq<T>, all: seq<T>)
    requires Consistent(coarse, all) && Refines(cmp, coarse, all) && Within(items, all)
    ensures Sorted(coarse, StableSort(cmp, items))
  {
    if |items| > 0 {
      var n := |items| - 1;
      SortSortsCoarsely(cmp, coarse, items[..n], all);
      SortWithin(cmp, items[..n], all);
      InsertKeepsSorted(cmp, coarse, StableSort(cmp, items[..n]), items[n], all);
    }
  }

  /** With a consistent comparator the result is sorted. */
  lemma {:induction false} SortSorts<T>(cmp: (T, T) -> int, items: seq<T>, all: seq<T>)
    requires Consistent(cmp, all) && Within(items, all)
    ensures Sorted(cmp, StableSort(cmp, items))
  {
    SortSortsCoarsely(cmp, cmp, items, all);
  }

  /** A list in which no item is strictly better than the one before it stays as it is. */
  lemma {:induction false} SortOfChain<T>(cmp: (T, T) -> int, items: seq<T>)
    requires forall i :: 0 < i < |items| ==> cmp(items[i], items[i - 1]) >= 0
    ensures StableSort(cmp, items) == items
  {
    if |items| > 0 {
      var n := |items| - 1;
      var front := items[..n];
      SortOfChain(cmp, front);
      assert items == front + [items[n]];
      assert n > 0 ==> front[n - 1] == items[n - 1];
      assert Insert(cmp, front, items[n]) == front + [items[n]];
    }
  }

  // ---- Stability ----

  /** The items tied with x, in order. */
  function TiedWith<T>(cmp: (T, T) -> int, x: T, s: seq<T>): seq<T> {
    if |s| == 0 then []
    else
      var n := |s| - 1;
      TiedWith(cmp, x, s[..n]) + (if cmp(s[n], x) == 0 then [s[n]] else [])
  }

  lemma {:induction false} TiedSnoc<T>(cmp: (T, T) -> int, x: T, s: seq<T>, y: T)
    ensures TiedWith(cmp, x, s + [y]) == TiedWith(cmp, x, s) + (if cmp(y, x) == 0 then [y] else [])
  {
  }

  lemma {:induction false} InsertKeepsTies<T>(cmp: (T, T) -> int, s: seq<T>, y: T, x: T, all: seq<T>)
    requires Consistent(cmp, all) && x in all && y in all && Within(s, all)
    ensures TiedWith(cmp, x, Insert(cmp, s, y)) == TiedWith(cmp, x, s + [y])
  {
    var n := |s| - 1;
    if |s| > 0 && cmp(y, s[n]) < 0 {
      InsertKeepsTies(cmp, s[..n], y, x, all);
      TiedSnoc(cmp, x, Insert(cmp, s[..n], y), s[n]);
      TiedSnoc(cmp, x, s[..n], y);
      TiedSnoc(cmp, x, s, y);
      assert cmp(y, x) == 0 ==> cmp(s[n], x) != 0;
    }
  }

  /** Sorting keeps tied items in the order in which they came. */
  lemma {:induction false} SortKeepsTies<T>(cmp: (T, T) -> int, items: seq<T>, x: T, all: seq<T>)
    requires Consistent(cmp, all) && x in all && Within(items, all)
    ensures TiedWith(cmp, x, StableSort(cmp, items)) == TiedWith(cmp, x, items)
  {
    if |items| > 0 {
      var n := |items| - 1;
      var s := StableSort(cmp, items[..n]);
      SortKeepsTies(cmp, items[..n], x, all);
      SortWithin(cmp, items[..n], all);
      InsertKeepsTies(cmp, s, items[n], x, all);
      TiedSnoc(cmp, x, s, items[n]);
    }
  }

  // ---- Ranks ----

  /** Position plus one, or the rank of the item before if the two are tied. */
  function StandardRanks<T>(cmp: (T, T) -> int, s: seq<T>): (ranks: seq<int>)
    ensures |ranks| == |s|
  {
    if |s| == 0 then []
    else
      var n := |s| - 1;
      var ranks := StandardRanks(cmp, s[..n]);
      ranks + [if n > 0 && cmp(s[n], s[n - 1]) == 0 then ranks[n - 1] else n + 1]
  }

  /** assignStandardRanks: number everyone, then pull tied items up to the rank before them. */
  method AssignStandardRanks<T>(cmp: (T, T) -> int, sorted: seq<T>) returns (ranks: seq<int>)
    ensures ranks == StandardRanks(cmp, sorted)
  {
    ranks := [];
    for i := 0 to |sorted|
      invariant |ranks| == i && forall j :: 0 <= j < i ==> ranks[j] == j + 1
    {
      ranks := ranks + [i + 1];
    }
    if |sorted| == 0 {
      return;
    }
    assert sorted[..1][..0] == [];
    for i := 1 to |sorted|
      invariant |ranks| == |sorted|
      invariant ranks[..i] == StandardRanks(cmp, sorted[..i])
      invariant forall j :: i <= j < |sorted| ==> ranks[j] == j + 1
    {
      var done := ranks[..i];
      assert sorted[..i + 1][..i] == sorted[..i];
      if cmp(sorted[i], sorted[i - 1]) == 0 {
        ranks := ranks[i := ranks[i - 1]];
      }
      assert ranks[..i + 1] == done + [ranks[i]];
    }
    assert sorted[..|sorted|] == sorted && ranks[..|sorted|] == ranks;
  }

  /** How many of the items are strictly better than x. */
  function CountBetter<T>(cmp: (T, T) -> int, items: seq<T>, x: T): nat {
    if |items| == 0 then 0
    else CountBetter(cmp, items[..|items| - 1], x) + (if cmp(items[|items| - 1], x) < 0 then 1 else 0)
  }

  lemma {:induction false} CountPrefix<T>(cmp: (T, T) -> int, s: seq<T>, x: T, n: nat)
    requires n <= |s| && forall i :: 0 <= i < |s| ==> (cmp(s[i], x) < 0 <==> i < n)
    ensures CountBetter(cmp, s, x) == n
  {
    if |s| > 0 {
      CountPrefix(cmp, s[..|s| - 1], x, if n == |s| then n - 1 else n);
    }
  }

  lemma {:induction false} CountForTied<T>(cmp: (T, T) -> int, s: seq<T>, x: T, y: T)
    requires forall i :: 0 <= i < |s| ==> (cmp(s[i], x) < 0 <==> cmp(s[i], y) < 0)
    ensures CountBetter(cmp, s, x) == CountBetter(cmp, s, y)
  {
    if |s| > 0 {
      CountForTied(cmp, s[..|s| - 1], x, y);
    }
  }

  lemma {:induction false} RankAt<T>(cmp: (T, T) -> int, s: seq<T>, i: nat)
    requires i < |s|
    ensures StandardRanks(cmp, s)[i] ==
            if i > 0 && cmp(s[i], s[i - 1]) == 0 then StandardRanks(cmp, s)[i - 1] else i + 1
  {
    if i < |s| - 1 {
      RankAt(cmp, s[..|s| - 1], i);
    }
  }

  lemma {:induction false} RankOfSorted<T>(cmp: (T, T) -> int, s: seq<T>, i: nat, all: seq<T>)
    requires Consistent(cmp, all) && Within(s, all) && Sorted(cmp, s) && i < |s|
    ensures StandardRanks(cmp, s)[i] == 1 + CountBetter(cmp, s, s[i])
  {
    RankAt(cmp, s, i);
    if i > 0 && cmp(s[i], s[i - 1]) == 0 {
      RankOfSorted(cmp, s, i - 1, all);
      CountForTied(cmp, s, s[i], s[i - 1]);
    } else {
      forall j | 0 <= j < |s| ensures cmp(s[j], s[i]) < 0 <==> j < i {
        if j < i {
          assert j == i - 1 || cmp(s[j], s[i - 1]) <= 0;
        } else {
          assert j == i || cmp(s[i], s[j]) <= 0;
        }
      }
      CountPrefix(cmp, s, s[i], i);
    }
  }

  lemma {:induction false} CountOfConcat<T>(cmp: (T, T) -> int, a: seq<T>, b: seq<T>, x: T)
    ensures CountBetter(cmp, a + b, x) == CountBetter(cmp, a, x) + CountBetter(cmp, b, x)
  {
    if |b| > 0 {
      assert (a + b)[..|a + b| - 1] == a + b[..|b| - 1];
      CountOfConcat(cmp, a, b[..|b| - 1], x);
    } else {
      assert a + b == a;
    }
  }

  lemma {:induction false} CountWithout<T>(cmp: (T, T) -> int, s: seq<T>, k: nat, x: T)
    requires k < |s|
    ensures CountBetter(cmp, s, x) == CountBetter(cmp, Without(s, k), x) + (if cmp(s[k], x) < 0 then 1 else 0)
  {
    assert s == s[..k] + ([s[k]] + s[k + 1..]);
    CountOfConcat(cmp, s[..k], s[k + 1..], x);
    CountOfConcat(cmp, s[..k], [s[k]] + s[k + 1..], x);
    CountOfConcat(cmp, [s[k]], s[k + 1..], x);
    assert [s[k]][..0] == [];
  }

  lemma {:induction false} CountOfPermutation<T>(cmp: (T, T) -> int, a: seq<T>, b: seq<T>, x: T)
    requires multiset(a) == multiset(b)
    ensures CountBetter(cmp, a, x) == CountBetter(cmp, b, x)
  {
    if |a| > 0 {
      var k := LastFound(a, b);
      CountOfPermutation(cmp, a[..|a| - 1], Without(b, k), x);
      CountWithout(cmp, b, k, x);
    } else {
      SameElements(a, b);
    }
  }

  /** Ranking a list puts everyone at one plus the number of strictly better items, so the rank of an
      item does not depend on the order of the list, nor on which sorting algorithm is used. */
  lemma {:induction false} RankIsPlace<T>(cmp: (T, T) -> int, items: seq<T>, sorted: seq<T>, i: nat)
    requires Consistent(cmp, items)
    requires multiset(sorted) == multiset(items) && Sorted(cmp, sorted) && i < |sorted|
    ensures StandardRanks(cmp, sorted)[i] == 1 + CountBetter(cmp, items, sorted[i])
  {
    SameElements(sorted, items);
    RankOfSorted(cmp, sorted, i, items);
    CountOfPermutation(cmp, sorted, items, sorted[i]);
  }

  lemma {:induction false} CountAtMost<T>(cmp: (T, T) -> int, s: seq<T>, x: T, n: nat)
    requires n <= |s| && forall i :: n <= i < |s| ==> cmp(s[i], x) >= 0
    ensures CountBetter(cmp, s, x) <= n
  {
    if |s| > 0 {
      CountAtMost(cmp, s[..|s| - 1], x, if n == |s| then n - 1 else n);
    }
  }

  lemma {:induction false} CountAtLeast<T>(cmp: (T, T) -> int, s: seq<T>, x: T, n: nat)
    requires n <= |s| && forall i :: 0 <= i < n ==> cmp(s[i], x) < 0
    ensures CountBetter(cmp, s, x) >= n
  {
    if |s| > 0 {
      CountAtLeast(cmp, s[..|s| - 1], x, if n == |s| then n - 1 else n);
    }
  }

  lemma {:induction false} NotBetterAt<T>(cmp: (T, T) -> int, a: seq<T>, b: seq<T>, i: nat, all: seq<T>)
    requires Consistent(cmp, all) && Within(a, all) && Within(b, all)
    requires Sorted(cmp, a) && Sorted(cmp, b) && multiset(a) == multiset(b) && i < |a| == |b|
    ensures cmp(a[i], b[i]) >= 0
  {
    if cmp(a[i], b[i]) < 0 {
      forall j | 0 <= j < i + 1 ensures cmp(a[j], b[i]) < 0 {
        assert j == i || cmp(a[j], a[i]) <= 0;
      }
      CountAtLeast(cmp, a, b[i], i + 1);
      forall j | i <= j < |b| ensures cmp(b[j], b[i]) >= 0 {
        assert j == i || cmp(b[i], b[j]) <= 0;
      }
      CountAtMost(cmp, b, b[i], i);
      CountOfPermutation(cmp, a, b, b[i]);
    }
  }

  /** Two sorted arrangements of the same items agree at every position, up to ties. */
  lemma {:induction false} SortedUpToTies<T>(cmp: (T, T) -> int, a: seq<T>, b: seq<T>, i: nat, all: seq<T>)
    requires Consistent(cmp, all) && Within(a, all) && Within(b, all)
    requires Sorted(cmp, a) && Sorted(cmp, b) && multiset(a) == multiset(b) && i < |a| == |b|
    ensures cmp(a[i], b[i]) == 0
  {
    NotBetterAt(cmp, a, b, i, all);
    NotBetterAt(cmp, b, a, i, all);
  }

  // ---- Better means a better rank ----

  lemma {:induction false} RankAtMost<T>(cmp: (T, T) -> int, s: seq<T>, i: nat)
    requires i < |s|
    ensures StandardRanks(cmp, s)[i] <= i + 1
  {
    RankAt(cmp, s, i);
    if i > 0 {
      RankAtMost(cmp, s, i - 1);
    }
  }

  lemma {:induction false} RankAtLeast<T>(cmp: (T, T) -> int, coarse: (T, T) -> int, s: seq<T>, i: nat, j: nat, all: seq<T>)
    requires Consistent(coarse, all) && Refines(cmp, coarse, all) && Within(s, all)
    requires i < j < |s| && coarse(s[i], s[j]) < 0
    ensures StandardRanks(cmp, s)[j] >= i + 2
  {
    RankAt(cmp, s, j);
    if cmp(s[j], s[j - 1]) == 0 {
      assert coarse(s[j], s[j - 1]) == 0 && coarse(s[j], s[i]) > 0;
      assert coarse(s[i], s[j - 1]) < 0;
      RankAtLeast(cmp, coarse, s, i, j - 1, all);
    }
  }

  /** Whoever is strictly better by a consistent comparator that the ranking refines gets a strictly better
      rank, whether or not the ranking's own comparator is consistent. */
  lemma {:induction false} BetterRanksAhead<T>(cmp: (T, T) -> int, coarse: (T, T) -> int, items: seq<T>, i: nat, j: nat)
    requires Consistent(coarse, items) && Refines(cmp, coarse, items) && i < |items| && j < |items|
    requires var s := StableSort(cmp, items); coarse(s[i], s[j]) < 0
    ensures var ranks := StandardRanks(cmp, StableSort(cmp, items)); ranks[i] < ranks[j]
  {
    var s := StableSort(cmp, items);
    SortWithin(cmp, items, items);
    SortSortsCoarsely(cmp, coarse, items, items);
    assert i < j;
    RankAtMost(cmp, s, i);
    RankAtLeast(cmp, coarse, s, i, j, items);
  }

  // ---- Items that stay in turn ----

  /** y, n and x at these places, in this order. */
  ghost predicate InTurnAt<T>(s: seq<T>, i: int, k: int, j: int, y: T, n: T, x: T) {
    0 <= i < k < j < |s| && s[i] == y && s[k] == n && s[j] == x
  }

  ghost predicate InTurn<T>(s: seq<T>, y: T, n: T, x: T) {
    exists i, k, j :: InTurnAt(s, i, k, j, y, n, x)
  }

  lemma {:induction false} InsertSplits<T>(cmp: (T, T) -> int, s: seq<T>, x: T) returns (p: nat)
    ensures p <= |s| && Insert(cmp, s, x) == s[..p] + [x] + s[p..]
  {
    if |s| == 0 || cmp(x, s[|s| - 1]) >= 0 {
      p := |s|;
    } else {
      var n := |s| - 1;
      p := InsertSplits(cmp, s[..n], x);
      assert s[..n][..p] == s[..p] && s[..n][p..] + [s[n]] == s[p..];
    }
  }

  function Shifted(p: nat, i: int): int {
    if i < p then i else i + 1
  }

  lemma {:induction false} SplitShifts<T>(s: seq<T>, w: T, p: nat, i: nat)
    requires p <= |s| && i < |s|
    ensures (s[..p] + [w] + s[p..])[Shifted(p, i)] == s[i]
  {
  }

  lemma {:induction false} InsertKeepsTurn<T>(cmp: (T, T) -> int, s: seq<T>, w: T, y: T, n: T, x: T)
    requires InTurn(s, y, n, x)
    ensures InTurn(Insert(cmp, s, w), y, n, x)
  {
    var i, k, j :| InTurnAt(s, i, k, j, y, n, x);
    var p := InsertSplits(cmp, s, w);
    SplitShifts(s, w, p, i);
    SplitShifts(s, w, p, k);
    SplitShifts(s, w, p, j);
    assert InTurnAt(Insert(cmp, s, w), Shifted(p, i), Shifted(p, k), Shifted(p, j), y, n, x);
  }
}
