/** Queries over a collection read in its `findAll` order: the stream
    `filter(...).findFirst()` pattern, derived repository finders that return
    every match, and removal of the matching records. */
module Lookup {
  import opened Wrappers

  /** Index of the first element satisfying `p`, or None when none does. */
  function FirstIndex<T>(xs: seq<T>, p: T -> bool): (r: Option<nat>)
    ensures r.Some? ==> r.value < |xs| && p(xs[r.value])
    ensures r.Some? ==> forall j :: 0 <= j < r.value ==> !p(xs[j])
    ensures r.None? <==> forall j :: 0 <= j < |xs| ==> !p(xs[j])
  {
    if |xs| == 0 then None
    else if p(xs[0]) then Some(0)
    else match FirstIndex(xs[1..], p)
      case None => None
      case Some(i) => Some(i + 1)
  }

  /** The indices of all elements satisfying `p`, in ascending order. */
  function AllIndices<T>(xs: seq<T>, p: T -> bool): (r: seq<nat>)
    ensures forall k :: 0 <= k < |r| ==> r[k] < |xs| && p(xs[r[k]])
    ensures forall i :: 0 <= i < |xs| && p(xs[i]) ==> i in r
    ensures forall k, l :: 0 <= k < l < |r| ==> r[k] < r[l]
  {
    if |xs| == 0 then []
    else AllIndices(xs[..|xs| - 1], p) + (if p(xs[|xs| - 1]) then [|xs| - 1] else [])
  }

  /** The elements satisfying `p`, in their original order. */
  function Keep<T>(xs: seq<T>, p: T -> bool): (r: seq<T>)
    ensures forall k :: 0 <= k < |r| ==> r[k] in xs && p(r[k])
    ensures forall i :: 0 <= i < |xs| && p(xs[i]) ==> xs[i] in r
    ensures |r| <= |xs|
    ensures (forall i :: 0 <= i < |xs| ==> p(xs[i])) ==> r == xs
  {
    if |xs| == 0 then []
    else (if p(xs[0]) then [xs[0]] else []) + Keep(xs[1..], p)
  }

  /** Keeping distributes over concatenation: the kept elements stay in
      their original order. */
  lemma {:induction false} KeepConcat<T>(xs: seq<T>, ys: seq<T>, p: T -> bool)
    ensures Keep(xs + ys, p) == Keep(xs, p) + Keep(ys, p)
  {
    if |xs| == 0 {
      assert xs + ys == ys;
    } else {
      assert (xs + ys)[0] == xs[0];
      assert (xs + ys)[1..] == xs[1..] + ys;
      KeepConcat(xs[1..], ys, p);
    }
  }

  /** Every element satisfying `p` is kept as many times as it occurs,
      and every other element is dropped. */
  lemma {:induction false} KeepCounts<T>(xs: seq<T>, p: T -> bool)
    ensures forall x :: multiset(Keep(xs, p))[x] == if p(x) then multiset(xs)[x] else 0
  {
    if |xs| > 0 {
      KeepCounts(xs[1..], p);
      assert xs == [xs[0]] + xs[1..];
      assert multiset(xs) == multiset([xs[0]]) + multiset(xs[1..]);
    }
  }

  /** When exactly one element fails `p`, keeping the others shortens the
      sequence by exactly one. */
  lemma {:induction false} KeepDropsOne<T>(xs: seq<T>, p: T -> bool, k: nat)
    requires k < |xs| && !p(xs[k])
    requires forall i :: 0 <= i < |xs| && i != k ==> p(xs[i])
    ensures |Keep(xs, p)| == |xs| - 1
  {
    if k == 0 {
      assert forall i :: 0 <= i < |xs[1..]| ==> p(xs[1..][i]) by {
        forall i | 0 <= i < |xs[1..]| ensures p(xs[1..][i]) {
          assert xs[1..][i] == xs[i + 1];
        }
      }
    } else {
      assert p(xs[0]);
      forall i | 0 <= i < |xs[1..]| && i != k - 1 ensures p(xs[1..][i]) {
        assert xs[1..][i] == xs[i + 1];
      }
      KeepDropsOne(xs[1..], p, k - 1);
    }
  }
}
