/** The incremental weighted-median engine: `WeightsData` and `rebalance`
    (sputnik-staking/src/lib.rs:37-55, :253-326; the same code is
    sputnik-median/src/lib.rs:21-43, :91-164).

    `Step` states what one `rebalance` call does to the persisted data and
    to the median, stage by stage as the source runs them; the class
    `WeightsData` holds the data and its method `Rebalance` runs the calls
    in place and is proved to agree with `Step`. The lemmas say what the
    calls mean for the ledger and where the incremental pointer does or
    does not land on the weighted median. */
module Engine {
  import opened Base
  import opened Ledger
  import opened Walk

  /** The persisted state of `WeightsData`: the caller-supplied total, the
      pointer `k` (a `u32`), the cache `sum_w_k`, the votes and weights. */
  datatype Snapshot = Snapshot(total: u128, k: nat, sumWK: u128, y: seq<i128>, w: seq<u128>)

  /** The arguments of `rebalance(new_total, new_stake, new_vote, old_stake,
      old_vote)`; an `oldVote` of -1 means there is no previous vote. */
  datatype Event = Event(newTotal: u128, newStake: u128, newVote: i128, oldStake: u128, oldVote: i128)

  /** The data after a call and the median the call stores. */
  datatype Rebalanced = Rebalanced(data: Snapshot, median: i128)

  /** `WeightsData::new()`. */
  const Empty: Snapshot := Snapshot(0, 0, 0, [], [])

  /** The decrement stage: it runs only for a real previous vote with a
      nonzero stake. */
  function RemoveOld(u: Upserted, e: Event): (r: Outcome<Decremented>)
    requires |u.y| == |u.w| && Ascending(u.y)
    ensures r.Done? ==> |r.value.y| == |r.value.w| && Ascending(r.value.y)
  {
    if e.oldVote != -1 && e.oldStake != 0 then Decrement(u.y, u.w, e.oldVote, e.oldStake)
    else Done(Decremented(u.y, u.w, None))
  }

  /** Pointer fix-up after a removal at or right of `k`: `k -= 1` on a
      `u32`, which panics at 0. */
  function ShiftPointer(k: nat, removed: Option<nat>): (r: Outcome<nat>)
    ensures r.Abort? <==> removed.Some? && k <= removed.value && k == 0
  {
    if removed.Some? && removed.value >= k then
      if k == 0 then Abort(PointerUnderflow) else Done(k - 1)
    else Done(k)
  }

  /** The cache patch, judged against the median from before the call:
      the new stake joins the cache when it is the only entry or lies at or
      left of the old median, the old stake leaves it when the old vote lay
      at or left of it; both saturate. `Cache.PatchCacheExact` says when
      the result is the exact weight through the pointer's vote. */
  function PatchCache(sum: u128, len: nat, median: i128, e: Event): u128
  {
    var s1 := if len == 1 || e.newVote <= median then SatAdd(sum, e.newStake) else sum;
    if e.oldVote <= median then SatSub(s1, e.oldStake) else s1
  }

  /** The pointer walk chosen by the side of the new vote: the shrink loop
      (after moving `k` right past a newly inserted entry) when the old
      median lies right of the new vote, else the grow loop. */
  function WalkPointer(w: seq<u128>, added: bool, k: nat, sum: u128, half: u128, median: i128, newVote: i128): Outcome<Pointer>
  {
    if median > newVote then
      Shrink(w, if added && |w| > 1 then k + 1 else k, sum, half)
    else Grow(w, k, sum, half)
  }

  /** Everything after the ledger update: the degenerate case, or the cache
      patch, the walk and the result rule. */
  function Settle(dec: Decremented, added: bool, k: nat, sum: u128, median: i128, e: Event): (r: Outcome<Rebalanced>)
    requires |dec.y| == |dec.w|
    ensures r.Done? ==> r.value.data.total == e.newTotal && r.value.data.y == dec.y && r.value.data.w == dec.w
    ensures r.Done? && e.newTotal / 2 == 0 ==> r.value.median == median && r.value.data.sumWK == 0
    ensures r.Done? && e.newTotal / 2 != 0 ==> r.value.data.k < |dec.y|
    ensures r.Abort? ==> r.fault != MissingOldVote
    ensures r.Done? && e.newTotal / 2 != 0 ==>
      Pick(r.value.data.y, r.value.data.k, r.value.data.sumWK == e.newTotal / 2) == Done(r.value.median)
  {
    var half := e.newTotal / 2;
    if e.newTotal == 0 || half == 0 then
      Done(Rebalanced(Snapshot(e.newTotal, k, 0, dec.y, dec.w), median))
    else
      match WalkPointer(dec.w, added, k, PatchCache(sum, |dec.y|, median, e), half, median, e.newVote)
      case Abort(f) => Abort(f)
      case Done(p) =>
        match Pick(dec.y, p.k, p.sum == half)
        case Abort(f) => Abort(f)
        case Done(m) => Done(Rebalanced(Snapshot(e.newTotal, p.k, p.sum, dec.y, dec.w), m))
  }

  /** The ledger once the call has updated it, whether the upsert created
      an entry, and the pointer after the fix-up for a removal. */
  datatype Staged = Staged(dec: Decremented, added: bool, k: nat)

  /** The ledger stages of the call: upsert, decrement, and the pointer
      fix-up after a removal. */
  function LedgerStage(y: seq<i128>, w: seq<u128>, k: nat, e: Event): (r: Outcome<Staged>)
    requires |y| == |w| && Ascending(y)
    ensures r.Done? ==> |r.value.dec.y| == |r.value.dec.w| && Ascending(r.value.dec.y)
    ensures var dec := RemoveOld(Upsert(y, w, e.newVote, e.newStake), e);
      (r == Abort(MissingOldVote) <==> dec.Abort?) && (r.Done? ==> dec == Done(r.value.dec))
    ensures var dec := RemoveOld(Upsert(y, w, e.newVote, e.newStake), e);
      r == Abort(PointerUnderflow) <==> dec.Done? && ShiftPointer(k, dec.value.removed).Abort?
    ensures r.Done? ==> ShiftPointer(k, r.value.dec.removed) == Done(r.value.k)
    ensures r.Done? ==> r.value.added == Upsert(y, w, e.newVote, e.newStake).added
  {
    var u := Upsert(y, w, e.newVote, e.newStake);
    match RemoveOld(u, e)
    case Abort(f) => Abort(f)
    case Done(dec) =>
      match ShiftPointer(k, dec.removed)
      case Abort(f) => Abort(f)
      case Done(k1) => Done(Staged(dec, u.added, k1))
  }

  /** One `rebalance` call. A panic of the source is an `Abort`, after
      which NEAR keeps the state from before the call. */
  function Step(d: Snapshot, median: i128, e: Event): (r: Outcome<Rebalanced>)
    requires Ascending(d.y)
    ensures |d.y| != |d.w| ==> r == Abort(LengthMismatch)
    ensures r.Done? ==> r.value.data.total == e.newTotal
    ensures r.Done? ==> |r.value.data.y| == |r.value.data.w| && Ascending(r.value.data.y)
    ensures r.Done? && e.newTotal / 2 == 0 ==> r.value.median == median && r.value.data.sumWK == 0
    ensures r.Done? && e.newTotal / 2 != 0 ==> r.value.data.k < |r.value.data.y|
    ensures r.Done? && e.newTotal / 2 != 0 ==>
      Pick(r.value.data.y, r.value.data.k, r.value.data.sumWK == e.newTotal / 2) == Done(r.value.median)
  {
    if |d.y| != |d.w| then Abort(LengthMismatch)
    else
      match LedgerStage(d.y, d.w, d.k, e)
      case Abort(f) => Abort(f)
      case Done(st) => Settle(st.dec, st.added, st.k, d.sumWK, median, e)
  }

  /** The upsert stage on the vectors (sputnik-staking/src/lib.rs:265-279). */
  method UpsertVotes(y: seq<i128>, w: seq<u128>, v: i128, stake: u128) returns (u: Upserted)
    requires |y| == |w| && Ascending(y)
    ensures u == Upsert(y, w, v, stake)
  {
    var y1, w1 := y, w;
    var found := BinarySearch(y1, v);
    match found {
      case Found(idx) =>
        if stake != 0 {
          w1 := w1[idx := SatAdd(w1[idx], stake)];
        }
        u := Upserted(y1, w1, false);
      case Missing(idx) =>
        y1 := InsertAt(y1, idx, v);
        w1 := InsertAt(w1, idx, stake);
        u := Upserted(y1, w1, true);
    }
  }

  /** The decrement stage on the vectors (sputnik-staking/src/lib.rs:285-289):
      the weight is overwritten first and the entry removed when it reads 0. */
  method DecrementVotes(y: seq<i128>, w: seq<u128>, v: i128, stake: u128) returns (r: Outcome<Decremented>)
    requires |y| == |w| && Ascending(y)
    ensures r == Decrement(y, w, v, stake)
  {
    var at := BinarySearch(y, v);
    if at.Missing? {
      return Abort(MissingOldVote);
    }
    var idx := at.index;
    var w1 := w[idx := SatSub(w[idx], stake)];
    if w1[idx] == 0 {
      assert RemoveAt(w1, idx) == RemoveAt(w, idx);
      r := Done(Decremented(RemoveAt(y, idx), RemoveAt(w1, idx), Some(idx)));
    } else {
      r := Done(Decremented(y, w1, None));
    }
  }

  /** The shrink loop (sputnik-staking/src/lib.rs:307-310). */
  method ShrinkLoop(w: seq<u128>, k: nat, sum: u128, half: u128) returns (r: Outcome<Pointer>)
    ensures r == Shrink(w, k, sum, half)
  {
    var k1: nat, s1: u128 := k, sum;
    while k1 >= 1
      invariant Shrink(w, k1, s1, half) == Shrink(w, k, sum, half)
      decreases k1
    {
      if k1 >= |w| {
        return Abort(WeightOutOfRange);
      }
      if SatSub(s1, w[k1]) < half {
        break;
      }
      s1 := SatSub(s1, w[k1]);
      k1 := k1 - 1;
    }
    r := Done(Pointer(k1, s1));
  }

  /** The grow loop (sputnik-staking/src/lib.rs:312-315). */
  method GrowLoop(w: seq<u128>, k: nat, sum: u128, half: u128) returns (r: Outcome<Pointer>)
    ensures r == Grow(w, k, sum, half)
  {
    var k1: nat, s1: u128 := k, sum;
    while s1 < half
      invariant Grow(w, k1, s1, half) == Grow(w, k, sum, half)
      decreases |w| - k1
    {
      if k1 + 1 >= |w| {
        return Abort(WeightOutOfRange);
      }
      k1 := k1 + 1;
      s1 := SatAdd(s1, w[k1]);
    }
    r := Done(Pointer(k1, s1));
  }

  /** The ledger stages on the vectors (sputnik-staking/src/lib.rs:265-295). */
  method StageLedger(y: seq<i128>, w: seq<u128>, k: nat, e: Event) returns (r: Outcome<Staged>)
    requires |y| == |w| && Ascending(y)
    ensures r == LedgerStage(y, w, k, e)
  {
    var u := UpsertVotes(y, w, e.newVote, e.newStake);
    var dec := Decremented(u.y, u.w, None);
    if e.oldVote != -1 && e.oldStake != 0 {
      var out := DecrementVotes(u.y, u.w, e.oldVote, e.oldStake);
      if out.Abort? {
        return Abort(out.fault);
      }
      dec := out.value;
    }
    assert RemoveOld(u, e) == Done(dec);
    var k1: nat := k;
    if dec.removed.Some? && dec.removed.value >= k1 {
      if k1 == 0 {
        return Abort(PointerUnderflow);
      }
      k1 := k1 - 1;
    }
    r := Done(Staged(dec, u.added, k1));
  }

  /** The result rule on the vector (sputnik-staking/src/lib.rs:317-321). */
  method PickVote(y: seq<i128>, k: nat, exactSplit: bool) returns (r: Outcome<i128>)
    ensures r == Pick(y, k, exactSplit)
  {
    if k >= |y| {
      return Abort(VoteOutOfRange);
    }
    var m := y[k];
    if exactSplit {
      if k + 1 >= |y| {
        return Abort(VoteOutOfRange);
      }
      m := HalfTowardZero(SatAddI(m, y[k + 1]));
    }
    r := Done(m);
  }

  /** Everything after the ledger update, on the staged values
      (sputnik-staking/src/lib.rs:296-324). */
  method SettleVotes(dec: Decremented, added: bool, k: nat, sum0: u128, median: i128, e: Event)
    returns (r: Outcome<Rebalanced>)
    requires |dec.y| == |dec.w|
    ensures r == Settle(dec, added, k, sum0, median, e)
  {
    var y1, w1, len := dec.y, dec.w, |dec.y|;
    var k1: nat, sum: u128, m: i128 := k, sum0, median;
    var midStake: u128 := e.newTotal / 2;
    if e.newTotal != 0 && midStake != 0 {
      if len == 1 || e.newVote <= m {
        sum := SatAdd(sum, e.newStake);
      }
      if e.oldVote <= m {
        sum := SatSub(sum, e.oldStake);
      }
      assert sum == PatchCache(sum0, len, median, e);
      var walk;
      if m > e.newVote {
        if added && len > 1 {
          k1 := k1 + 1;
        }
        walk := ShrinkLoop(w1, k1, sum, midStake);
      } else {
        walk := GrowLoop(w1, k1, sum, midStake);
      }
      assert walk == WalkPointer(w1, added, k, sum, midStake, median, e.newVote);
      if walk.Abort? {
        return Abort(walk.fault);
      }
      k1, sum := walk.value.k, walk.value.sum;
      var picked := PickVote(y1, k1, sum == midStake);
      if picked.Abort? {
        return Abort(picked.fault);
      }
      m := picked.value;
    } else {
      sum := 0;
    }
    r := Done(Rebalanced(Snapshot(e.newTotal, k1, sum, y1, w1), m));
  }

  /** `WeightsData`, updated in place by `rebalance`. */
  class WeightsData {
    var total: u128
    var k: nat
    var sumWK: u128
    var y: seq<i128>
    var w: seq<u128>

    /** The votes stay strictly ascending: `binary_search` relies on it. */
    ghost predicate Valid()
      reads this
    {
      Ascending(y)
    }

    function Snap(): Snapshot
      reads this
    {
      Snapshot(total, k, sumWK, y, w)
    }

    /** `WeightsData::new()`: no votes, total, pointer and cache at 0. */
    constructor ()
      ensures Valid() && Snap() == Empty
    {
      total, k, sumWK, y, w := 0, 0, 0, [], [];
    }

    /** `rebalance` on this data, given the median stored before the call;
        on success it returns the median to store. The vectors are changed
        on staged copies that are written back only when the call succeeds,
        as NEAR discards the writes of a call that panics. */
    method Rebalance(median: i128, e: Event) returns (r: Outcome<i128>)
      requires Valid()
      modifies this
      ensures Valid()
      ensures match Step(old(Snap()), median, e)
        case Abort(f) => r == Abort(f) && Snap() == old(Snap())
        case Done(out) => r == Done(out.median) && Snap() == out.data
    {
      if |y| != |w| {
        return Abort(LengthMismatch);
      }
      var staged := StageLedger(y, w, k, e);
      if staged.Abort? {
        return Abort(staged.fault);
      }
      var out := SettleVotes(staged.value.dec, staged.value.added, staged.value.k, sumWK, median, e);
      if out.Abort? {
        return Abort(out.fault);
      }
      total, k, sumWK, y, w := out.value.data.total, out.value.data.k, out.value.data.sumWK, out.value.data.y, out.value.data.w;
      r := Done(out.value.median);
    }
  }

  /** The new stake joining the new vote in the ledger read as a
      dictionary (saturating). */
  ghost function AddNew(W: map<int, u128>, e: Event): map<int, u128>
  {
    if e.newVote in W then W[e.newVote := SatAdd(W[e.newVote], e.newStake)]
    else W[e.newVote := e.newStake]
  }

  /** The old stake leaving the old vote, for a real previous vote with a
      nonzero stake (saturating; the vote disappears at zero); `None` when
      the old vote is not in the ledger. */
  ghost function TakeOld(W: map<int, u128>, e: Event): Option<map<int, u128>>
  {
    if e.oldVote != -1 && e.oldStake != 0 then
      if e.oldVote !in W then None
      else
        var left := SatSub(W[e.oldVote], e.oldStake);
        Some(if left == 0 then W - {e.oldVote} else W[e.oldVote := left])
    else Some(W)
  }

  /** What one call does to the ledger read as a dictionary. */
  ghost function Tally(W: map<int, u128>, e: Event): Option<map<int, u128>>
  {
    TakeOld(AddNew(W, e), e)
  }

  /** The removal stage does to the vectors what `TakeOld` does to the
      dictionary. */
  lemma RemoveOldMeaning(u: Upserted, e: Event)
    requires |u.y| == |u.w| && Ascending(u.y)
    ensures var r, t := RemoveOld(u, e), TakeOld(Weights(u.y, u.w), e);
      (r.Abort? <==> t == None) &&
      (r.Done? ==> t.Some? && Weights(r.value.y, r.value.w) == t.value)
  {
    if e.oldVote != -1 && e.oldStake != 0 && e.oldVote in u.y {
      DecrementMeaning(u.y, u.w, e.oldVote, e.oldStake);
    }
  }

  /** The ledger stages do to the vectors what `Tally` does to the
      dictionary, and abort for a missing old vote exactly when `Tally`
      finds none. */
  lemma LedgerStageMeaning(y: seq<i128>, w: seq<u128>, k: nat, e: Event)
    requires |y| == |w| && Ascending(y)
    ensures var r, t := LedgerStage(y, w, k, e), Tally(Weights(y, w), e);
      (r == Abort(MissingOldVote) <==> t == None) &&
      (r.Done? ==> t.Some? && Weights(r.value.dec.y, r.value.dec.w) == t.value)
  {
    var u := Upsert(y, w, e.newVote, e.newStake);
    UpsertMeaning(y, w, e.newVote, e.newStake);
    var W1 := Weights(u.y, u.w);
    assert W1 == AddNew(Weights(y, w), e);
    assert Tally(Weights(y, w), e) == TakeOld(W1, e);
    RemoveOldMeaning(u, e);
  }

  /** After a successful call the ledger is `Tally` of the ledger before
      it; a call aborts for a missing old vote exactly when `Tally` finds
      none. */
  lemma StepMeaning(d: Snapshot, median: i128, e: Event)
    requires |d.y| == |d.w| && Ascending(d.y)
    ensures var r, t := Step(d, median, e), Tally(Weights(d.y, d.w), e);
      (r == Abort(MissingOldVote) <==> t == None) &&
      (r.Done? ==> t.Some? && Weights(r.value.data.y, r.value.data.w) == t.value)
  {
    LedgerStageMeaning(d.y, d.w, d.k, e);
  }

  /** A call with no stake on either side and a vote already present
      leaves the votes and weights as they were. */
  lemma StepZeroStakeKeepsLedger(d: Snapshot, median: i128, e: Event)
    requires |d.y| == |d.w| && Ascending(d.y)
    requires e.newStake == 0 && e.oldStake == 0 && e.newVote in d.y
    ensures Step(d, median, e).Done? ==>
      Step(d, median, e).value.data.y == d.y && Step(d, median, e).value.data.w == d.w
  {
    UpsertZeroPresent(d.y, d.w, e.newVote);
    assert LedgerStage(d.y, d.w, d.k, e) == Done(Staged(Decremented(d.y, d.w, None), false, d.k));
  }

  /** Round trip within one call: the same vote and the same nonzero stake
      on both sides give the votes and weights back, when the addition does
      not saturate and a present vote has a nonzero weight. */
  lemma StepRoundTripKeepsLedger(d: Snapshot, median: i128, e: Event)
    requires |d.y| == |d.w| && Ascending(d.y)
    requires e.newVote == e.oldVote != -1 && e.newStake == e.oldStake != 0
    requires e.newVote in d.y ==>
      Weights(d.y, d.w)[e.newVote] != 0 && Weights(d.y, d.w)[e.newVote] + e.newStake <= U128_MAX
    ensures Step(d, median, e).Done? ==>
      Step(d, median, e).value.data.y == d.y && Step(d, median, e).value.data.w == d.w
  {
    UpsertThenDecrement(d.y, d.w, e.newVote, e.newStake);
  }

  /** The same round trip on a vote that is not yet in the ledger always
      aborts while the pointer is at 0: the vote is inserted and removed
      again at an index at or right of `k`, and `k -= 1` underflows. */
  lemma StepRoundTripAbsentUnderflows(d: Snapshot, median: i128, e: Event)
    requires |d.y| == |d.w| && Ascending(d.y) && d.k == 0
    requires e.newVote == e.oldVote != -1 && e.newStake == e.oldStake != 0
    requires e.newVote !in d.y
    ensures Step(d, median, e) == Abort(PointerUnderflow)
  {
    UpsertThenDecrement(d.y, d.w, e.newVote, e.newStake);
  }

  /** The pointer sits on the weighted median and the cache holds the
      weight through it: the invariant the algorithm is designed around. */
  ghost predicate AtMedian(d: Snapshot)
  {
    |d.y| == |d.w| && Ascending(d.y) &&
    IsMedianIndex(d.w, d.total / 2, d.k) && d.sumWK == SumTo(d.w, d.k + 1)
  }

  /** First vote on an empty ledger: `rebalance(100, 100, 5, 0, -1)` gives
      the ledger [(5, 100)] and the median 5. */
  lemma ScenarioFirstVote()
    ensures Step(Empty, -1, Event(100, 100, 5, 0, -1)) ==
      Done(Rebalanced(Snapshot(100, 0, 100, [5], [100]), 5))
  {
    assert Upsert([], [], 5, 100) == Upserted([5], [100], true);
  }

  /** A second vote with the same weight splits the total exactly:
      `rebalance(200, 100, 10, 0, -1)` gives [(5, 100), (10, 100)] and the
      median (5 + 10) / 2 = 7. */
  lemma ScenarioExactSplit()
    ensures Step(Snapshot(100, 0, 100, [5], [100]), 5, Event(200, 100, 10, 0, -1)) ==
      Done(Rebalanced(Snapshot(200, 0, 100, [5, 10], [100, 100]), 7))
  {
    assert Locate([5], 10) == Missing(1);
    assert Upsert([5], [100], 10, 100) == Upserted([5, 10], [100, 100], true);
  }

  /** Moving 50 from vote 5 to vote 8: `rebalance(200, 50, 8, 50, 5)` gives
      [(5, 50), (8, 50), (10, 100)] and the median (8 + 10) / 2 = 9, which is
      also what a full recomputation gives. */
  lemma ScenarioMove()
    ensures Step(Snapshot(200, 0, 100, [5, 10], [100, 100]), 7, Event(200, 50, 8, 50, 5)) ==
      Done(Rebalanced(Snapshot(200, 1, 100, [5, 8, 10], [50, 50, 100]), 9))
    ensures WeightedMedian([5, 8, 10], [50, 50, 100], 200) == Some(9)
  {
    assert Locate([5, 10], 8) == Missing(1);
    assert Upsert([5, 10], [100, 100], 8, 50) == Upserted([5, 8, 10], [100, 50, 100], true);
    assert Locate([5, 8, 10], 5) == Found(0);
    assert [100, 50, 100][0 := 50] == [50, 50, 100];
    assert Decrement([5, 8, 10], [100, 50, 100], 5, 50) ==
      Done(Decremented([5, 8, 10], [50, 50, 100], None));
    assert Grow([50, 50, 100], 0, 50, 100) == Done(Pointer(1, 100));
    assert SumTo([50, 50, 100], 2) == 100;
    assert FirstReaching([50, 50, 100], 100, 0) == Some(1);
  }

  /** Withdrawing all the weight of the only vote aborts: the entry is
      removed at index 0 while `k` is 0, and `k -= 1` underflows. */
  lemma ScenarioWithdrawAll()
    ensures Step(Snapshot(100, 0, 100, [5], [100]), 5, Event(0, 0, 5, 100, 5)) ==
      Abort(PointerUnderflow)
  {
    var e := Event(0, 0, 5, 100, 5);
    assert Locate([5], 5) == Found(0);
    assert Upsert([5], [100], 5, 0) == Upserted([5], [100], false);
    assert RemoveAt([5], 0) == [] && RemoveAt([100], 0) == [];
    assert Decrement([5], [100], 5, 100) == Done(Decremented([], [], Some(0)));
    assert RemoveOld(Upserted([5], [100], false), e) == Done(Decremented([], [], Some(0)));
    assert LedgerStage([5], [100], 0, e) == Abort(PointerUnderflow);
  }

  /** The shrink branch never moves the pointer right, so a call that
      takes weight from a vote left of the median can leave the cache
      below half the total. From [(3, 40), (5, 61), (10, 100)], total 201,
      with the pointer on the median 5, the holder of 40 on vote 3 dropping
      to 2 while the total drops to 163 gets the median 5, while the
      ledger [(3, 2), (5, 61), (10, 100)] has its weighted median at 10:
      the call breaks `AtMedian`. */
  lemma ShrinkBranchMissesMedian()
    ensures AtMedian(Snapshot(201, 1, 101, [3, 5, 10], [40, 61, 100]))
    ensures WeightedMedian([3, 5, 10], [40, 61, 100], 201) == Some(5)
    ensures Step(Snapshot(201, 1, 101, [3, 5, 10], [40, 61, 100]), 5, Event(163, 2, 3, 40, 3)) ==
      Done(Rebalanced(Snapshot(163, 1, 63, [3, 5, 10], [2, 61, 100]), 5))
    ensures !AtMedian(Snapshot(163, 1, 63, [3, 5, 10], [2, 61, 100]))
    ensures WeightedMedian([3, 5, 10], [2, 61, 100], 163) == Some(10)
  {
    assert SumTo([40, 61, 100], 1) == 40;
    assert SumTo([40, 61, 100], 2) == 101;
    assert FirstReaching([40, 61, 100], 100, 0) == Some(1);
    ShrinkBranchStages();
    assert Shrink([2, 61, 100], 1, 63, 81) == Done(Pointer(1, 63));
    assert SumTo([2, 61, 100], 2) == 63;
    assert SumTo([2, 61, 100], 3) == 163;
    assert FirstReaching([2, 61, 100], 81, 0) == Some(2);
  }

  /** The ledger stages of `ShrinkBranchMissesMedian`: vote 3 keeps an
      entry of 2, and the pointer stays at 1. */
  lemma ShrinkBranchStages()
    ensures LedgerStage([3, 5, 10], [40, 61, 100], 1, Event(163, 2, 3, 40, 3)) ==
      Done(Staged(Decremented([3, 5, 10], [2, 61, 100], None), false, 1))
  {
    assert Locate([3, 5, 10], 3) == Found(0);
    assert Upsert([3, 5, 10], [40, 61, 100], 3, 2) == Upserted([3, 5, 10], [42, 61, 100], false);
    assert [42, 61, 100][0 := 2] == [2, 61, 100];
    assert Decrement([3, 5, 10], [42, 61, 100], 3, 40) == Done(Decremented([3, 5, 10], [2, 61, 100], None));
  }

  /** The mirror case: the grow branch never moves the pointer left, so a
      call that takes weight from a vote right of the median can leave the
      cache far above half the total. From [(3, 60), (5, 41), (10, 100)],
      total 201, with the pointer on the median 5, the holder of 100 on
      vote 10 dropping to 10 (total 111) gets the median 5, while the
      ledger [(3, 60), (5, 41), (10, 10)] has its weighted median at 3. */
  lemma GrowBranchMissesMedian()
    ensures AtMedian(Snapshot(201, 1, 101, [3, 5, 10], [60, 41, 100]))
    ensures WeightedMedian([3, 5, 10], [60, 41, 100], 201) == Some(5)
    ensures Step(Snapshot(201, 1, 101, [3, 5, 10], [60, 41, 100]), 5, Event(111, 10, 10, 100, 10)) ==
      Done(Rebalanced(Snapshot(111, 1, 101, [3, 5, 10], [60, 41, 10]), 5))
    ensures !AtMedian(Snapshot(111, 1, 101, [3, 5, 10], [60, 41, 10]))
    ensures WeightedMedian([3, 5, 10], [60, 41, 10], 111) == Some(3)
  {
    assert SumTo([60, 41, 100], 1) == 60;
    assert SumTo([60, 41, 100], 2) == 101;
    assert FirstReaching([60, 41, 100], 100, 0) == Some(1);
    GrowBranchStages();
    assert Grow([60, 41, 10], 1, 101, 55) == Done(Pointer(1, 101));
    assert SumTo([60, 41, 10], 1) == 60;
    assert FirstReaching([60, 41, 10], 55, 0) == Some(0);
  }

  /** The ledger stages of `GrowBranchMissesMedian`: vote 10 keeps an
      entry of 10, and the pointer stays at 1. */
  lemma GrowBranchStages()
    ensures LedgerStage([3, 5, 10], [60, 41, 100], 1, Event(111, 10, 10, 100, 10)) ==
      Done(Staged(Decremented([3, 5, 10], [60, 41, 10], None), false, 1))
  {
    assert Locate([3, 5, 10], 10) == Found(2);
    assert [60, 41, 100][2 := 110] == [60, 41, 110];
    assert Upsert([3, 5, 10], [60, 41, 100], 10, 10) == Upserted([3, 5, 10], [60, 41, 110], false);
    assert [60, 41, 110][2 := 10] == [60, 41, 10];
    assert Decrement([3, 5, 10], [60, 41, 110], 10, 100) == Done(Decremented([3, 5, 10], [60, 41, 10], None));
  }

  /** The pointer fix-up shifts `k` left after a removal right of it. From
      [(5, 50), (8, 50), (10, 100)], total 200, whose median 9 averages the
      votes around an exact split, the holder of 100 on vote 10 unstaking
      everything (total 100) gets the median 5 and a cache of 100 over the
      ledger [(5, 50), (8, 50)], whose prefix through the pointer is 50 and
      whose weighted median is 6. */
  lemma RightRemovalBreaksCache()
    ensures AtMedian(Snapshot(200, 1, 100, [5, 8, 10], [50, 50, 100]))
    ensures WeightedMedian([5, 8, 10], [50, 50, 100], 200) == Some(9)
    ensures Step(Snapshot(200, 1, 100, [5, 8, 10], [50, 50, 100]), 9, Event(100, 0, 10, 100, 10)) ==
      Done(Rebalanced(Snapshot(100, 0, 100, [5, 8], [50, 50]), 5))
    ensures SumTo([50, 50], 1) == 50
    ensures !AtMedian(Snapshot(100, 0, 100, [5, 8], [50, 50]))
    ensures WeightedMedian([5, 8], [50, 50], 100) == Some(6)
  {
    assert SumTo([50, 50, 100], 1) == 50;
    assert SumTo([50, 50, 100], 2) == 100;
    assert FirstReaching([50, 50, 100], 100, 0) == Some(1);
    RightRemovalStages();
    assert Grow([50, 50], 0, 100, 50) == Done(Pointer(0, 100));
    assert FirstReaching([50, 50], 50, 0) == Some(0);
  }

  /** The ledger stages of `RightRemovalBreaksCache`: the entry of vote 10
      goes, and the pointer moves from 1 to 0. */
  lemma RightRemovalStages()
    ensures LedgerStage([5, 8, 10], [50, 50, 100], 1, Event(100, 0, 10, 100, 10)) ==
      Done(Staged(Decremented([5, 8], [50, 50], Some(2)), false, 0))
  {
    assert Locate([5, 8, 10], 10) == Found(2);
    assert Upsert([5, 8, 10], [50, 50, 100], 10, 0) == Upserted([5, 8, 10], [50, 50, 100], false);
    assert RemoveAt([5, 8, 10], 2) == [5, 8];
    assert RemoveAt([50, 50, 100], 2) == [50, 50];
    assert Decrement([5, 8, 10], [50, 50, 100], 10, 100) == Done(Decremented([5, 8], [50, 50], Some(2)));
  }

  /** The cache patch judges the new stake against the stored median, which
      after an exact split is an average and not the vote at the pointer.
      From [(5, 100), (10, 100)] with the median 7, a first vote of 100 on
      7 (total 300) adds its stake to the cache although vote 7 lies right
      of the pointer: the cache becomes 200 against a prefix of 100, and
      the call returns 5 where the weighted median is 7. */
  lemma SplitMedianBreaksCache()
    ensures AtMedian(Snapshot(200, 0, 100, [5, 10], [100, 100]))
    ensures WeightedMedian([5, 10], [100, 100], 200) == Some(7)
    ensures Step(Snapshot(200, 0, 100, [5, 10], [100, 100]), 7, Event(300, 100, 7, 0, -1)) ==
      Done(Rebalanced(Snapshot(300, 0, 200, [5, 7, 10], [100, 100, 100]), 5))
    ensures SumTo([100, 100, 100], 1) == 100
    ensures !AtMedian(Snapshot(300, 0, 200, [5, 7, 10], [100, 100, 100]))
    ensures WeightedMedian([5, 7, 10], [100, 100, 100], 300) == Some(7)
  {
    assert SumTo([100, 100], 1) == 100;
    assert FirstReaching([100, 100], 100, 0) == Some(0);
    SplitMedianStages();
    assert Grow([100, 100, 100], 0, 200, 150) == Done(Pointer(0, 200));
    assert SumTo([100, 100, 100], 2) == 200;
    assert FirstReaching([100, 100, 100], 150, 0) == Some(1);
  }

  /** The ledger stages of `SplitMedianBreaksCache`: vote 7 is inserted
      between 5 and 10, and the pointer stays at 0. */
  lemma SplitMedianStages()
    ensures LedgerStage([5, 10], [100, 100], 0, Event(300, 100, 7, 0, -1)) ==
      Done(Staged(Decremented([5, 7, 10], [100, 100, 100], None), true, 0))
  {
    assert Locate([5, 10], 7) == Missing(1);
    assert InsertAt([5, 10], 1, 7) == [5, 7, 10];
    assert InsertAt([100, 100], 1, 100) == [100, 100, 100];
    assert Upsert([5, 10], [100, 100], 7, 100) == Upserted([5, 7, 10], [100, 100, 100], true);
  }
}
