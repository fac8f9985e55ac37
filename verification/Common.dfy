/** Vocabulary shared by every module: optional values, the tail of a history,
    and what it means for one sequence to be an in-order selection of another. */
module Common {

  datatype Option<+T> = None | Some(value: T)

  function Min(a: int, b: int): int {
    if a <= b then a else b
  }

  function Max(a: int, b: int): int {
    if a <= b then b else a
  }

  /** The newest n elements of s, oldest first; all of s while it is shorter than n. */
  function Newest<T>(s: seq<T>, n: nat): (r: seq<T>)
    ensures |r| == Min(|s|, n)
  {
    if |s| <= n then s else s[|s| - n..]
  }

  /** The positions `at` pick `part` out of `whole`, left to right. */
  ghost predicate Picks<T>(at: seq<nat>, part: seq<T>, whole: seq<T>) {
    && |at| == |part|
    && (forall i :: 0 <= i < |at| ==> at[i] < |whole| && whole[at[i]] == part[i])
    && (forall i, j :: 0 <= i < j < |at| ==> at[i] < at[j])
  }

  /** part is an order-preserving subsequence of whole. */
  ghost predicate InOrder<T>(part: seq<T>, whole: seq<T>) {
    exists at: seq<nat> :: Picks(at, part, whole)
  }

  lemma EmptyInOrder<T>(whole: seq<T>)
    ensures InOrder([], whole)
  {
    assert Picks([], [], whole);
  }

  /** A new element that is kept extends both sides. */
  lemma InOrderKeep<T>(part: seq<T>, whole: seq<T>, x: T)
    requires InOrder(part, whole)
    ensures InOrder(part + [x], whole + [x])
  {
    var at: seq<nat> :| Picks(at, part, whole);
    assert Picks(at + [|whole|], part + [x], whole + [x]);
  }

  /** A new element that is lost extends only the whole. */
  lemma InOrderSkip<T>(part: seq<T>, whole: seq<T>, x: T)
    requires InOrder(part, whole)
    ensures InOrder(part, whole + [x])
  {
    var at: seq<nat> :| Picks(at, part, whole);
    assert Picks(at, part, whole + [x]);
  }

  /** Any prefix of a selection is a selection. */
  lemma InOrderPrefix<T>(part: seq<T>, more: seq<T>, whole: seq<T>)
    requires InOrder(part + more, whole)
    ensures InOrder(part, whole)
  {
    var at: seq<nat> :| Picks(at, part + more, whole);
    forall i | 0 <= i < |part|
      ensures at[i] < |whole| && whole[at[i]] == part[i]
    {
      assert (part + more)[i] == part[i];
    }
    assert Picks(at[..|part|], part, whole);
  }

  /** The newest elements of a selection are a selection. */
  lemma InOrderNewest<T>(part: seq<T>, whole: seq<T>, n: nat)
    requires InOrder(part, whole)
    ensures InOrder(Newest(part, n), whole)
  {
    var at: seq<nat> :| Picks(at, part, whole);
    assert Picks(Newest(at, n), Newest(part, n), whole);
  }

  lemma {:induction false} IncreasingFromStart(at: seq<nat>, k: nat)
    requires k < |at| && forall i, j :: 0 <= i < j < |at| ==> at[i] < at[j]
    ensures k <= at[k]
  {
    if k > 0 {
      IncreasingFromStart(at, k - 1);
    }
  }

  lemma {:induction false} IncreasingToEnd(at: seq<nat>, k: nat, bound: nat)
    requires k < |at| && forall i, j :: 0 <= i < j < |at| ==> at[i] < at[j]
    requires forall i :: 0 <= i < |at| ==> at[i] < bound
    ensures at[k] <= bound - (|at| - k)
    decreases |at| - k
  {
    if k + 1 < |at| {
      IncreasingToEnd(at, k + 1, bound);
    }
  }

  /** A selection as long as the whole is the whole: nothing was lost or reordered. */
  lemma FullSelection<T>(part: seq<T>, whole: seq<T>)
    requires InOrder(part, whole) && |part| == |whole|
    ensures part == whole
  {
    var at: seq<nat> :| Picks(at, part, whole);
    forall k | 0 <= k < |part|
      ensures part[k] == whole[k]
    {
      IncreasingFromStart(at, k);
      IncreasingToEnd(at, k, |whole|);
    }
  }

  /** `back` is what is left of `whole` from a place on. */
  predicate Remains<T(==)>(whole: seq<T>, from: nat, back: seq<T>) {
    from <= |whole| && back == whole[from..]
  }

  lemma RemainsAppend<T>(whole: seq<T>, from: nat, back: seq<T>, x: T)
    requires Remains(whole, from, back)
    ensures Remains(whole + [x], from, back + [x])
  {
  }

  lemma RemainsTake<T>(whole: seq<T>, from: nat, back: seq<T>)
    requires Remains(whole, from, back) && back != []
    ensures Remains(whole, from + 1, back[1..])
  {
  }

  /** What an extended sequence contains. */
  lemma InExtended<T>(s: seq<T>, last: T, x: T)
    ensures x in s + [last] <==> x in s || x == last
  {
  }
}
