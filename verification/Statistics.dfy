/** The arithmetic behind the window's aggregates: sums, means, counts and order
    statistics of integer samples. */
module Statistics {

  function Sum(xs: seq<int>): int {
    if xs == [] then 0 else Sum(xs[..|xs| - 1]) + xs[|xs| - 1]
  }

  /** The mean as the exact rational, 0 for no samples. */
  function Mean(xs: seq<int>): real {
    if xs == [] then 0.0 else Sum(xs) as real / |xs| as real
  }

  lemma {:induction false} SumConcat(a: seq<int>, b: seq<int>)
    ensures Sum(a + b) == Sum(a) + Sum(b)
  {
    if b == [] {
      assert a + b == a;
    } else {
      assert (a + b)[..|a + b| - 1] == a + b[..|b| - 1];
      SumConcat(a, b[..|b| - 1]);
    }
  }

  /** What a mean is, whoever computes it: 0 of nothing, the sample of one, and of two stretches
      together the mean that weighs each by its length. */
  lemma MeanLaws(a: seq<int>, b: seq<int>, x: int)
    ensures Mean([]) == 0.0
    ensures Mean([x]) == x as real
    ensures Mean(a + b) * |a + b| as real == Mean(a) * |a| as real + Mean(b) * |b| as real
  {
    assert [x][..0] == [];
    SumConcat(a, b);
    MeanTimesCount(a);
    MeanTimesCount(b);
    MeanTimesCount(a + b);
  }

  lemma MeanTimesCount(xs: seq<int>)
    ensures Mean(xs) * |xs| as real == Sum(xs) as real
  {
  }

  /** How many samples satisfy p. */
  function Count(xs: seq<int>, p: int -> bool): (n: nat)
    ensures n <= |xs|
  {
    if xs == [] then 0 else (if p(xs[0]) then 1 else 0) + Count(xs[1..], p)
  }

  ghost predicate Sorted(xs: seq<int>) {
    forall i, j :: 0 <= i < j < |xs| ==> xs[i] <= xs[j]
  }

  /** r is the value at position k of the samples in ascending order. The definition
      does not sort: at most k samples are smaller, more than k are no larger. */
  ghost predicate IsOrderStatistic(xs: seq<int>, k: nat, r: int) {
    && r in xs
    && Count(xs, x => x < r) <= k < Count(xs, x => x <= r)
  }

  lemma {:induction false} CountConcat(a: seq<int>, b: seq<int>, p: int -> bool)
    ensures Count(a + b, p) == Count(a, p) + Count(b, p)
  {
    if a == [] {
      assert a + b == b;
    } else {
      assert (a + b)[1..] == a[1..] + b;
      CountConcat(a[1..], b, p);
    }
  }

  lemma {:induction false} CountAll(xs: seq<int>, p: int -> bool)
    requires forall i :: 0 <= i < |xs| ==> p(xs[i])
    ensures Count(xs, p) == |xs|
  {
    if xs != [] {
      CountAll(xs[1..], p);
    }
  }

  lemma {:induction false} CountNone(xs: seq<int>, p: int -> bool)
    requires forall i :: 0 <= i < |xs| ==> !p(xs[i])
    ensures Count(xs, p) == 0
  {
    if xs != [] {
      CountNone(xs[1..], p);
    }
  }

  lemma {:induction false} CountComplement(xs: seq<int>, p: int -> bool, q: int -> bool)
    requires forall x :: p(x) <==> !q(x)
    ensures Count(xs, p) + Count(xs, q) == |xs|
  {
    if xs != [] {
      CountComplement(xs[1..], p, q);
    }
  }

  /** The sequence without its element at i. */
  function Without(xs: seq<int>, i: nat): seq<int>
    requires i < |xs|
  {
    xs[..i] + xs[i + 1..]
  }

  lemma WithoutRemovesOne(xs: seq<int>, i: nat)
    requires i < |xs|
    ensures multiset(Without(xs, i)) == multiset(xs) - multiset{xs[i]}
  {
    assert xs == xs[..i] + ([xs[i]] + xs[i + 1..]);
  }

  lemma CountWithout(xs: seq<int>, i: nat, p: int -> bool)
    requires i < |xs|
    ensures Count(xs, p) == Count(Without(xs, i), p) + (if p(xs[i]) then 1 else 0)
  {
    CountConcat(xs[..i], xs[i + 1..], p);
    CountConcat(xs[..i], [xs[i]] + xs[i + 1..], p);
    assert xs == xs[..i] + ([xs[i]] + xs[i + 1..]);
  }

  /** The first element of a, wherever a permutation of a has it. */
  lemma MatchFirst(a: seq<int>, b: seq<int>) returns (i: nat)
    requires a != [] && multiset(a) == multiset(b)
    ensures i < |b| && b[i] == a[0] && multiset(Without(a, 0)) == multiset(Without(b, i))
  {
    assert a[0] in multiset(b);
    i :| i < |b| && b[i] == a[0];
    WithoutRemovesOne(a, 0);
    WithoutRemovesOne(b, i);
  }

  /** Counting is blind to order. */
  lemma {:induction false} CountPermutation(a: seq<int>, b: seq<int>, p: int -> bool)
    requires multiset(a) == multiset(b)
    ensures Count(a, p) == Count(b, p)
    decreases |a|
  {
    if a == [] {
      assert |multiset(b)| == 0;
    } else {
      var i := MatchFirst(a, b);
      CountPermutation(Without(a, 0), Without(b, i), p);
      CountWithout(a, 0, p);
      CountWithout(b, i, p);
    }
  }

  /** Position k of a sorted sequence is the order statistic k of any permutation of it. */
  lemma SortedGivesOrderStatistic(xs: seq<int>, sorted: seq<int>, k: nat)
    requires Sorted(sorted) && multiset(sorted) == multiset(xs) && k < |sorted|
    ensures IsOrderStatistic(xs, k, sorted[k])
  {
    var r := sorted[k];
    var less, atMost := x => x < r, x => x <= r;
    assert sorted == sorted[..k] + sorted[k..];
    CountConcat(sorted[..k], sorted[k..], less);
    CountNone(sorted[k..], less);
    assert sorted == sorted[..k + 1] + sorted[k + 1..];
    CountConcat(sorted[..k + 1], sorted[k + 1..], atMost);
    CountAll(sorted[..k + 1], atMost);
    CountPermutation(sorted, xs, less);
    CountPermutation(sorted, xs, atMost);
    assert r in multiset(sorted);
  }

  lemma {:induction false} CountMonotone(xs: seq<int>, p: int -> bool, q: int -> bool)
    requires forall x :: p(x) ==> q(x)
    ensures Count(xs, p) <= Count(xs, q)
  {
    if xs != [] {
      CountMonotone(xs[1..], p, q);
    }
  }

  /** Two samples with the same multiset of values have the same order statistic. */
  lemma OrderStatisticUnique(a: seq<int>, b: seq<int>, k: nat, r: int, s: int)
    requires multiset(a) == multiset(b)
    requires IsOrderStatistic(a, k, r) && IsOrderStatistic(b, k, s)
    ensures r == s
  {
    CountPermutation(a, b, x => x <= r);
    CountPermutation(a, b, x => x < r);
    if r < s {
      CountMonotone(b, x => x <= r, x => x < s);
    } else if s < r {
      CountMonotone(b, x => x <= s, x => x < r);
    }
  }

  /** The position Go computes as int(0.95 * n). */
  function P95Index(n: nat): nat {
    95 * n / 100
  }

  /** The 95th percentile of a window: the clamp of P95ActiveConns is never needed, fewer
      than one sample in twenty exceeds the result, and at most nineteen in twenty lie
      strictly below it. */
  lemma P95Bounds(xs: seq<int>, r: int)
    requires xs != [] && IsOrderStatistic(xs, P95Index(|xs|), r)
    ensures P95Index(|xs|) < |xs|
    ensures 20 * Count(xs, x => x > r) < |xs|
    ensures 20 * Count(xs, x => x < r) <= 19 * |xs|
  {
    CountComplement(xs, x => x <= r, x => x > r);
  }

  function Insert(x: int, xs: seq<int>): seq<int> {
    if xs == [] || x <= xs[0] then [x] + xs else [xs[0]] + Insert(x, xs[1..])
  }

  /** The library call sort.Ints, of which only the result matters here. */
  function SortInts(xs: seq<int>): seq<int> {
    if xs == [] then [] else Insert(xs[0], SortInts(xs[1..]))
  }

  lemma {:induction false} InsertAdds(x: int, xs: seq<int>)
    ensures multiset(Insert(x, xs)) == multiset([x]) + multiset(xs)
    ensures Insert(x, xs) != [] && (Insert(x, xs)[0] == x || (xs != [] && Insert(x, xs)[0] == xs[0]))
  {
    if xs != [] && xs[0] < x {
      InsertAdds(x, xs[1..]);
      assert xs == [xs[0]] + xs[1..];
    }
  }

  lemma SortedPrepend(x: int, xs: seq<int>)
    requires Sorted(xs) && (xs == [] || x <= xs[0])
    ensures Sorted([x] + xs)
  {
  }

  lemma {:induction false} InsertSorts(x: int, xs: seq<int>)
    requires Sorted(xs)
    ensures Sorted(Insert(x, xs))
  {
    if xs == [] || x <= xs[0] {
      SortedPrepend(x, xs);
    } else {
      InsertSorts(x, xs[1..]);
      InsertAdds(x, xs[1..]);
      SortedPrepend(xs[0], Insert(x, xs[1..]));
    }
  }

  lemma {:induction false} SortIntsSorts(xs: seq<int>)
    ensures Sorted(SortInts(xs)) && multiset(SortInts(xs)) == multiset(xs)
    ensures |SortInts(xs)| == |xs|
  {
    if xs != [] {
      SortIntsSorts(xs[1..]);
      InsertSorts(xs[0], SortInts(xs[1..]));
      InsertAdds(xs[0], SortInts(xs[1..]));
      assert xs == [xs[0]] + xs[1..];
    }
    assert |multiset(SortInts(xs))| == |multiset(xs)|;
  }

  /** When no sample exceeds m and at most three fifths of them exceed m/2, the sum stays
      within four fifths of the maximum. */
  lemma {:induction false} SumOfMostlyLight(xs: seq<int>, m: int)
    requires 0 <= m && forall i :: 0 <= i < |xs| ==> xs[i] <= m
    ensures 2 * Sum(xs) <= m * (|xs| + Count(xs, x => 2 * x > m))
  {
    if xs != [] {
      var init, last := xs[..|xs| - 1], xs[|xs| - 1];
      var heavy := x => 2 * x > m;
      SumOfMostlyLight(init, m);
      CountConcat(init, [last], heavy);
      assert xs == init + [last];
      assert m * (|init| + Count(init, heavy) + 1) == m * (|init| + Count(init, heavy)) + m;
      assert m * (|init| + Count(init, heavy) + 2) == m * (|init| + Count(init, heavy)) + 2 * m;
      assert Count([last], heavy) == if heavy(last) then 1 else 0;
    }
  }
}
