/** The median pointer of `WeightsData`: an index `k` into the ledger and a
    cache `sum_w_k` that is meant to hold the weight of entries `0..=k`.

    This module holds the prefix sums, the reference definition of the
    weighted median (a full recomputation from the ledger), the two pointer
    walks of `rebalance` (`Shrink` and `Grow`, the loops at
    sputnik-staking/src/lib.rs:307-315) and what each walk achieves when
    the cache is exact on entry. */
module Walk {
  import opened Base

  /** Weight of the entries `0..n` (exclusive). */
  function SumTo(w: seq<u128>, n: nat): nat
    requires n <= |w|
  {
    if n == 0 then 0 else SumTo(w, n - 1) + w[n - 1]
  }

  /** Prefix sums never decrease. */
  lemma {:induction false} SumToMonotone(w: seq<u128>, a: nat, b: nat)
    requires a <= b <= |w|
    ensures SumTo(w, a) <= SumTo(w, b)
  {
    if a < b {
      SumToMonotone(w, a, b - 1);
    }
  }

  /** `k` marks the weighted median for threshold `half`: the weight before
      entry `k` is below `half`, the weight through entry `k` reaches it. */
  ghost predicate IsMedianIndex(w: seq<u128>, half: nat, k: nat) {
    k < |w| && SumTo(w, k) < half <= SumTo(w, k + 1)
  }

  /** There is at most one median index. */
  lemma MedianIndexUnique(w: seq<u128>, half: nat, k1: nat, k2: nat)
    requires IsMedianIndex(w, half, k1) && IsMedianIndex(w, half, k2)
    ensures k1 == k2
  {
    if k1 < k2 {
      SumToMonotone(w, k1 + 1, k2);
    } else if k2 < k1 {
      SumToMonotone(w, k2 + 1, k1);
    }
  }

  /** Reference scan: the first index from `j` on whose prefix reaches
      `half`, recomputing every prefix from scratch. */
  function FirstReaching(w: seq<u128>, half: nat, j: nat): (r: Option<nat>)
    requires j <= |w| && SumTo(w, j) < half
    ensures r.Some? ==> j <= r.value && IsMedianIndex(w, half, r.value)
    ensures r.None? ==> SumTo(w, |w|) < half
    decreases |w| - j
  {
    if j == |w| then None
    else if half <= SumTo(w, j + 1) then Some(j)
    else FirstReaching(w, half, j + 1)
  }

  /** The result rule of `rebalance` (sputnik-staking/src/lib.rs:317-321):
      the vote at `k`, or, when the weight through `k` is exactly half the
      total, the average (saturating sum, halved toward zero) of the votes
      at `k` and `k + 1`. Both reads are unguarded in the source and abort
      past the end. */
  function Pick(y: seq<i128>, k: nat, exactSplit: bool): (r: Outcome<i128>)
    ensures r.Abort? <==> k >= |y| || (exactSplit && k + 1 >= |y|)
    ensures r.Abort? ==> r.fault == VoteOutOfRange
    ensures r.Done? && !exactSplit ==> r.value == y[k]
    ensures r.Done? && exactSplit ==> r.value == HalfTowardZero(SatAddI(y[k], y[k + 1]))
    ensures r.Done? && exactSplit ==>
      var s: int := y[k] as int + y[k + 1] as int;
      I128_MIN <= s <= I128_MAX ==> s - 1 <= 2 * r.value <= s + 1
  {
    if k >= |y| then Abort(VoteOutOfRange)
    else if !exactSplit then Done(y[k])
    else if k + 1 >= |y| then Abort(VoteOutOfRange)
    else Done(HalfTowardZero(SatAddI(y[k], y[k + 1])))
  }

  /** The weighted median recomputed from the whole ledger: undefined while
      `total / 2` is zero, and undefined when the ledger never reaches half
      the total or the exact-split average has no right neighbour. */
  function WeightedMedian(y: seq<i128>, w: seq<u128>, total: u128): (r: Option<i128>)
    requires |y| == |w|
    ensures r.Some? ==>
      exists k: nat :: IsMedianIndex(w, total / 2, k) && Pick(y, k, SumTo(w, k + 1) == total / 2) == Done(r.value)
  {
    var half := total / 2;
    if half == 0 then None
    else
      match FirstReaching(w, half, 0)
      case None => None
      case Some(k) =>
        match Pick(y, k, SumTo(w, k + 1) == half)
        case Abort(_) => None
        case Done(m) => Some(m)
  }

  /** The pointer and its cache. */
  datatype Pointer = Pointer(k: nat, sum: u128)

  /** The shrink loop: while `k >= 1` and the cache without `w[k]` still
      reaches `half`, drop `w[k]` from the cache and move `k` left. Reading
      `w[k]` past the end aborts. */
  function Shrink(w: seq<u128>, k: nat, sum: u128, half: u128): (r: Outcome<Pointer>)
    ensures k < |w| ==> r.Done?
    ensures r.Abort? ==> r.fault == WeightOutOfRange
    ensures r.Done? ==> (r.value.k <= k && r.value.sum <= sum &&
      (r.value.k == 0 || (r.value.k < |w| && SatSub(r.value.sum, w[r.value.k]) < half)))
    decreases k
  {
    if k == 0 then Done(Pointer(k, sum))
    else if k >= |w| then Abort(WeightOutOfRange)
    else if SatSub(sum, w[k]) >= half then Shrink(w, k - 1, SatSub(sum, w[k]), half)
    else Done(Pointer(k, sum))
  }

  /** The grow loop: while the cache is below `half`, move `k` right and add
      the new `w[k]`. Reading `w[k]` past the end aborts. */
  function Grow(w: seq<u128>, k: nat, sum: u128, half: u128): (r: Outcome<Pointer>)
    ensures r.Abort? ==> r.fault == WeightOutOfRange && sum < half
    ensures r.Done? ==> k <= r.value.k && sum <= r.value.sum && half <= r.value.sum
    ensures r.Done? && k < |w| ==> r.value.k < |w|
    decreases |w| - k
  {
    if sum >= half then Done(Pointer(k, sum))
    else if k + 1 >= |w| then Abort(WeightOutOfRange)
    else Grow(w, k + 1, SatAdd(sum, w[k + 1]), half)
  }

  /** With an exact cache and no saturation, the grow loop keeps the cache
      exact, stops at the first index from `k` on that reaches `half`, and
      aborts exactly when the whole ledger stays below `half`. */
  lemma {:induction false} GrowExact(w: seq<u128>, k: nat, sum: u128, half: u128)
    requires k < |w| && sum == SumTo(w, k + 1) && SumTo(w, |w|) <= U128_MAX
    ensures Grow(w, k, sum, half).Done? <==> half <= SumTo(w, |w|)
    ensures Grow(w, k, sum, half).Done? ==>
      var p := Grow(w, k, sum, half).value;
      p.k < |w| && p.sum == SumTo(w, p.k + 1) && (p.k == k || SumTo(w, p.k) < half)
    decreases |w| - k
  {
    SumToMonotone(w, k + 1, |w|);
    if sum < half && k + 1 < |w| {
      SumToMonotone(w, k + 2, |w|);
      GrowExact(w, k + 1, SatAdd(sum, w[k + 1]), half);
    }
  }

  /** With an exact cache, the shrink loop never aborts, keeps the cache
      exact, stops with the weight before `k` below `half`, and keeps the
      cache at or above `half` when it started there. */
  lemma {:induction false} ShrinkExact(w: seq<u128>, k: nat, sum: u128, half: u128)
    requires 0 < half && k < |w| && sum == SumTo(w, k + 1)
    ensures Shrink(w, k, sum, half).Done?
    ensures var p := Shrink(w, k, sum, half).value;
      p.k <= k && p.sum == SumTo(w, p.k + 1) && SumTo(w, p.k) < half &&
      (half <= sum ==> half <= p.sum)
    decreases k
  {
    if k > 0 && SatSub(sum, w[k]) >= half {
      ShrinkExact(w, k - 1, SatSub(sum, w[k]), half);
    }
  }

  /** A cache at or above `half` on entry to the shrink loop ends at the
      weighted median. */
  lemma ShrinkFindsMedian(w: seq<u128>, k: nat, sum: u128, half: u128)
    requires 0 < half && k < |w| && sum == SumTo(w, k + 1) && half <= sum
    ensures Shrink(w, k, sum, half).Done?
    ensures IsMedianIndex(w, half, Shrink(w, k, sum, half).value.k)
  {
    ShrinkExact(w, k, sum, half);
  }

  /** A pointer at or left of the median on entry to the grow loop ends at
      the weighted median. */
  lemma GrowFindsMedian(w: seq<u128>, k: nat, sum: u128, half: u128)
    requires k < |w| && sum == SumTo(w, k + 1) && SumTo(w, k) < half
    requires half <= SumTo(w, |w|) <= U128_MAX
    ensures Grow(w, k, sum, half).Done?
    ensures IsMedianIndex(w, half, Grow(w, k, sum, half).value.k)
  {
    GrowExact(w, k, sum, half);
  }

  /** The pointer repair the algorithm needs in both branches: the shrink
      loop followed by the grow loop. */
  function Repair(w: seq<u128>, k: nat, sum: u128, half: u128): (r: Outcome<Pointer>)
    ensures r.Done? ==> half <= r.value.sum
  {
    match Shrink(w, k, sum, half)
    case Abort(f) => Abort(f)
    case Done(p) => Grow(w, p.k, p.sum, half)
  }

  /** From any exact cache, the repair lands on the weighted median that a
      full recomputation finds, whenever the ledger reaches `half`. */
  lemma RepairFindsMedian(w: seq<u128>, k: nat, sum: u128, half: u128)
    requires 0 < half && k < |w| && sum == SumTo(w, k + 1)
    requires half <= SumTo(w, |w|) <= U128_MAX
    ensures Repair(w, k, sum, half).Done?
    ensures var p := Repair(w, k, sum, half).value;
      IsMedianIndex(w, half, p.k) && p.sum == SumTo(w, p.k + 1) &&
      FirstReaching(w, half, 0) == Some(p.k)
  {
    ShrinkExact(w, k, sum, half);
    var p := Shrink(w, k, sum, half).value;
    GrowFindsMedian(w, p.k, p.sum, half);
    GrowExact(w, p.k, p.sum, half);
    var q := Grow(w, p.k, p.sum, half).value;
    var f := FirstReaching(w, half, 0);
    if f.Some? {
      MedianIndexUnique(w, half, f.value, q.k);
    }
  }

  /** A pointer at the weighted median gives, through the result rule, the
      median a full recomputation gives. */
  lemma PickAtMedian(y: seq<i128>, w: seq<u128>, total: u128, k: nat)
    requires |y| == |w| && 0 < total / 2 && IsMedianIndex(w, total / 2, k)
    ensures WeightedMedian(y, w, total) ==
      match Pick(y, k, SumTo(w, k + 1) == total / 2)
      case Abort(_) => None
      case Done(m) => Some(m)
  {
    var f := FirstReaching(w, total / 2, 0);
    assert f.Some? by {
      SumToMonotone(w, k + 1, |w|);
    }
    MedianIndexUnique(w, total / 2, f.value, k);
  }
}
