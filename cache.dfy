/** The cache `sum_w_k` against the prefix sums of the ledger: how each
    stage of `rebalance` changes the weight through the pointer's vote, when
    the source's cache update matches that change, and where it does not.

    The stages are the upsert of the new vote (sputnik-staking/src/lib.rs:265-279),
    the decrement of the old one (:284-289), the pointer shift after a
    removal (:290-292) and the cache patch (:296-302). */
module Cache {
  import opened Base
  import opened Ledger
  import opened Walk
  import opened Engine

  /** Overwriting one weight changes the prefixes that contain it by the
      difference. */
  lemma {:induction false} SumToUpdate(w: seq<u128>, i: nat, x: u128, n: nat)
    requires i < |w| && n <= |w|
    ensures SumTo(w[i := x], n) == if i < n then SumTo(w, n) - w[i] + x else SumTo(w, n)
  {
    if n > 0 {
      SumToUpdate(w, i, x, n - 1);
    }
  }

  /** Inserting a weight adds it to every prefix that reaches past the
      insertion point. */
  lemma {:induction false} SumToInsert(w: seq<u128>, i: nat, x: u128, n: nat)
    requires i <= |w| && n <= |w| + 1
    ensures SumTo(InsertAt(w, i, x), n) == if n <= i then SumTo(w, n) else SumTo(w, n - 1) + x
  {
    if n > 0 {
      SumToInsert(w, i, x, n - 1);
    }
  }

  /** Removing a weight takes it out of every prefix that reaches past the
      removal point. */
  lemma {:induction false} SumToRemove(w: seq<u128>, i: nat, n: nat)
    requires i < |w| && n < |w|
    ensures SumTo(RemoveAt(w, i), n) == if n <= i then SumTo(w, n) else SumTo(w, n + 1) - w[i]
  {
    if n > 0 {
      SumToRemove(w, i, n - 1);
    }
  }

  /** A prefix holds at least each of its weights. */
  lemma SumToCovers(w: seq<u128>, j: nat, n: nat)
    requires j < n <= |w|
    ensures w[j] <= SumTo(w, n)
  {
    SumToMonotone(w, j + 1, n);
  }

  /** The side test of the cache patch: when the median is the vote at the
      pointer, "at or left of the median" is "located at or left of the
      pointer". */
  lemma SideOfMedian(y: seq<i128>, k: nat, v: i128)
    requires Ascending(y) && k < |y|
    ensures v <= y[k] <==> Locate(y, v).index <= k
  {
    LocateAscending(y, v);
    var p := Locate(y, v);
    if p.index <= k && p.index < |y| {
      assert p.index < k ==> y[p.index] < y[k];
    }
  }

  /** The upsert and the cache: the weight through the pointer's vote
      grows by the new stake exactly when the new vote lands at or left of
      the pointer, and an insertion there moves that vote one place right. */
  lemma UpsertKeepsCache(y: seq<i128>, w: seq<u128>, k: nat, v: i128, s: u128)
    requires |y| == |w| && Ascending(y) && k < |y|
    requires Locate(y, v).Found? ==> w[Locate(y, v).index] + s <= U128_MAX
    ensures var u, p := Upsert(y, w, v, s), Locate(y, v).index;
      var k1 := if u.added && p <= k then k + 1 else k;
      k1 < |u.y| && u.y[k1] == y[k] &&
      SumTo(u.w, k1 + 1) == SumTo(w, k + 1) + (if p <= k then s else 0)
  {
    LocateAscending(y, v);
    match Locate(y, v)
    case Found(i) =>
      RaiseKeepsCache(y, w, k, v, s, i);
    case Missing(i) =>
      UpsertMissing(y, w, v, s, i);
      InsertKeepsCache(y, w, k, i, v, s);
  }

  /** The found case of `UpsertKeepsCache`. */
  lemma RaiseKeepsCache(y: seq<i128>, w: seq<u128>, k: nat, v: i128, s: u128, i: nat)
    requires |y| == |w| && Ascending(y) && k < |y|
    requires Locate(y, v) == Found(i) && w[i] + s <= U128_MAX
    ensures Upsert(y, w, v, s) == Upserted(y, w[i := w[i] + s], false)
    ensures SumTo(w[i := w[i] + s], k + 1) == SumTo(w, k + 1) + (if i <= k then s else 0)
  {
    assert s == 0 ==> w[i := w[i] + s] == w;
    SumToUpdate(w, i, w[i] + s, k + 1);
  }

  /** An absent vote is inserted at its insertion point. */
  lemma UpsertMissing(y: seq<i128>, w: seq<u128>, v: i128, s: u128, i: nat)
    requires |y| == |w| && Ascending(y)
    requires Locate(y, v) == Missing(i)
    ensures Upsert(y, w, v, s) == Upserted(InsertAt(y, i, v), InsertAt(w, i, s), true)
  {
  }

  /** The insertion case of `UpsertKeepsCache`. */
  lemma InsertKeepsCache(y: seq<i128>, w: seq<u128>, k: nat, i: nat, v: i128, s: u128)
    requires |y| == |w| && k < |y| && i <= |y|
    ensures var k1 := if i <= k then k + 1 else k;
      InsertAt(y, i, v)[k1] == y[k] &&
      SumTo(InsertAt(w, i, s), k1 + 1) == SumTo(w, k + 1) + (if i <= k then s else 0)
  {
    if i <= k {
      SumToInsert(w, i, s, k + 2);
    } else {
      SumToInsert(w, i, s, k + 1);
    }
  }

  /** The decrement and the cache, when the entry survives: the weight
      through the pointer's vote shrinks by the old stake exactly when the
      old vote is at or left of the pointer. */
  lemma DecrementKeepsCache(y: seq<i128>, w: seq<u128>, k: nat, v: i128, s: u128)
    requires |y| == |w| && Ascending(y) && k < |y|
    requires Locate(y, v).Found? && s < w[Locate(y, v).index]
    ensures var i := Locate(y, v).index;
      Decrement(y, w, v, s) == Done(Decremented(y, w[i := w[i] - s], None)) &&
      SumTo(w[i := w[i] - s], k + 1) == SumTo(w, k + 1) - (if i <= k then s else 0)
  {
    var i := Locate(y, v).index;
    SumToUpdate(w, i, w[i] - s, k + 1);
  }

  /** The pointer shift a removal calls for: one place left when the
      removed entry lay left of the pointer, none when it lay right. */
  function ShiftToVote(k: nat, i: nat): (k1: nat)
    requires i != k
    ensures i < k ==> k1 + 1 == k
    ensures k < i ==> k1 == k
  {
    if i < k then k - 1 else k
  }

  /** With that shift, a removal elsewhere keeps the pointer on its vote,
      and the weight through it loses exactly the removed weight when it lay
      left of the pointer. */
  lemma RemovalKeepsCache(y: seq<i128>, w: seq<u128>, k: nat, i: nat)
    requires |y| == |w| && k < |y| && i < |y| && i != k
    ensures var k1 := ShiftToVote(k, i);
      k1 < |y| - 1 && RemoveAt(y, i)[k1] == y[k] &&
      SumTo(RemoveAt(w, i), k1 + 1) == SumTo(w, k + 1) - (if i < k then w[i] else 0)
  {
    SumToRemove(w, i, ShiftToVote(k, i) + 1);
  }

  /** The shift as written (`idx >= k` at :290) never keeps the pointer on
      its vote after a removal elsewhere: a removal right of the pointer
      moves it one vote left, and a removal left of it leaves the index
      alone, so it lands on the next vote. */
  lemma ShiftPointerLeavesVote(y: seq<i128>, k: nat, i: nat)
    requires Ascending(y) && k < |y| && i < |y| && i != k
    ensures k < i && k == 0 ==> ShiftPointer(k, Some(i)) == Abort(PointerUnderflow)
    ensures k < i && 0 < k ==>
      ShiftPointer(k, Some(i)) == Done(k - 1) && RemoveAt(y, i)[k - 1] < y[k]
    ensures i < k ==> ShiftPointer(k, Some(i)) == Done(k)
    ensures i < k < |y| - 1 ==> y[k] < RemoveAt(y, i)[k]
  {
  }

  /** The cache is exact and the stored median is the vote at the pointer:
      the state a call leaves when the weight through the pointer is not
      exactly half the total. */
  ghost predicate AtVote(d: Snapshot, median: i128)
  {
    |d.y| == |d.w| && Ascending(d.y) && d.k < |d.y| &&
    d.sumWK == SumTo(d.w, d.k + 1) && median == d.y[d.k]
  }

  /** A call whose ledger stages neither saturate nor remove an entry: the
      old stake is 0, or a real old vote keeps more than the old stake. */
  ghost predicate Plain(d: Snapshot, e: Event)
    requires |d.y| == |d.w| && Ascending(d.y)
  {
    d.sumWK + e.newStake <= U128_MAX &&
    (Locate(d.y, e.newVote).Found? ==> d.w[Locate(d.y, e.newVote).index] + e.newStake <= U128_MAX) &&
    (e.oldStake == 0 ||
      (e.oldVote != -1 &&
       var u := Upsert(d.y, d.w, e.newVote, e.newStake);
       Locate(u.y, e.oldVote).Found? && e.oldStake < u.w[Locate(u.y, e.oldVote).index]))
  }

  /** The pointer the walk starts from (:304-306). */
  function WalkStart(st: Staged, median: i128, newVote: i128): nat
  {
    if median > newVote && st.added && |st.dec.w| > 1 then st.k + 1 else st.k
  }

  /** The side test of the new stake: with the median at the pointer's
      vote, "the only entry, or at or left of the median" is "located at or
      left of the pointer". */
  lemma NewSideExact(y: seq<i128>, w: seq<u128>, k: nat, v: i128, s: u128)
    requires |y| == |w| && Ascending(y) && k < |y|
    ensures var u := Upsert(y, w, v, s);
      (|u.y| == 1 || v <= y[k]) <==> Locate(y, v).index <= k
  {
    SideOfMedian(y, k, v);
    LocateAscending(y, v);
  }

  /** The walk's start pointer after the upsert: one place right exactly
      when the new vote is inserted left of the median's vote. */
  lemma StartAfterUpsert(y: seq<i128>, w: seq<u128>, k: nat, v: i128, s: u128)
    requires |y| == |w| && Ascending(y) && k < |y|
    ensures var u, p := Upsert(y, w, v, s), Locate(y, v).index;
      var k1 := if u.added && p <= k then k + 1 else k;
      (y[k] > v && u.added ==> |u.w| > 1 && k1 == k + 1) &&
      (!(y[k] > v && u.added) ==> k1 == k)
  {
    SideOfMedian(y, k, v);
    LocateAscending(y, v);
  }

  /** The first half of the patch: after the upsert, the cache plus the
      new stake when the side test passes is the weight through the
      pointer's vote. */
  lemma PatchAddExact(y: seq<i128>, w: seq<u128>, k: nat, sum: u128, median: i128, v: i128, s: u128)
    requires |y| == |w| && Ascending(y) && k < |y| && y[k] == median && sum == SumTo(w, k + 1)
    requires sum + s <= U128_MAX
    requires Locate(y, v).Found? ==> w[Locate(y, v).index] + s <= U128_MAX
    ensures var u, p := Upsert(y, w, v, s), Locate(y, v).index;
      var k1 := if u.added && p <= k then k + 1 else k;
      k1 < |u.y| && u.y[k1] == median &&
      (if |u.y| == 1 || v <= median then SatAdd(sum, s) else sum) == SumTo(u.w, k1 + 1)
  {
    UpsertKeepsCache(y, w, k, v, s);
    NewSideExact(y, w, k, v, s);
  }

  /** The second half of the patch: after the decrement, the cache minus
      the old stake when the old vote lies at or left of the median is the
      weight through the pointer's vote. */
  lemma PatchSubExact(u: Upserted, k: nat, sum: u128, median: i128, e: Event)
    requires |u.y| == |u.w| && Ascending(u.y) && k < |u.y| && u.y[k] == median && sum == SumTo(u.w, k + 1)
    requires e.oldStake == 0 ||
      (e.oldVote != -1 && Locate(u.y, e.oldVote).Found? && e.oldStake < u.w[Locate(u.y, e.oldVote).index])
    ensures var r := RemoveOld(u, e);
      r.Done? && r.value.y == u.y && r.value.removed.None? && |r.value.w| == |u.w| &&
      (if e.oldVote <= median then SatSub(sum, e.oldStake) else sum) == SumTo(r.value.w, k + 1)
  {
    if e.oldVote != -1 && e.oldStake != 0 {
      var j := Locate(u.y, e.oldVote).index;
      DecrementKeepsCache(u.y, u.w, k, e.oldVote, e.oldStake);
      SideOfMedian(u.y, k, e.oldVote);
      if j <= k {
        SumToCovers(u.w, j, k + 1);
      }
    }
  }

  /** When the decrement removes nothing, the ledger stage keeps the
      pointer and passes on the decremented ledger. */
  lemma StageWithoutRemoval(y: seq<i128>, w: seq<u128>, k: nat, e: Event)
    requires |y| == |w| && Ascending(y)
    requires var r := RemoveOld(Upsert(y, w, e.newVote, e.newStake), e);
      r.Done? && r.value.removed.None?
    ensures LedgerStage(y, w, k, e) ==
      Done(Staged(RemoveOld(Upsert(y, w, e.newVote, e.newStake), e).value, Upsert(y, w, e.newVote, e.newStake).added, k))
  {
  }

  /** The upsert half named: the pointer `k1` on the median's vote in the
      upserted ledger (also the walk's start pointer) and the patched cache
      `s1`, exact at `k1`. */
  lemma UpsertPatched(y: seq<i128>, w: seq<u128>, k: nat, sum: u128, median: i128, v: i128, s: u128)
    returns (k1: nat, s1: u128)
    requires |y| == |w| && Ascending(y) && k < |y| && y[k] == median && sum == SumTo(w, k + 1)
    requires sum + s <= U128_MAX
    requires Locate(y, v).Found? ==> w[Locate(y, v).index] + s <= U128_MAX
    ensures s1 == if |Upsert(y, w, v, s).y| == 1 || v <= median then SatAdd(sum, s) else sum
    ensures k1 < |Upsert(y, w, v, s).y| && Upsert(y, w, v, s).y[k1] == median
    ensures s1 == SumTo(Upsert(y, w, v, s).w, k1 + 1)
    ensures k1 == if median > v && Upsert(y, w, v, s).added && |Upsert(y, w, v, s).w| > 1 then k + 1 else k
  {
    k1 := if Upsert(y, w, v, s).added && Locate(y, v).index <= k then k + 1 else k;
    s1 := if |Upsert(y, w, v, s).y| == 1 || v <= median then SatAdd(sum, s) else sum;
    assert k1 < |Upsert(y, w, v, s).y| && Upsert(y, w, v, s).y[k1] == median &&
      s1 == SumTo(Upsert(y, w, v, s).w, k1 + 1) by {
      PatchAddExact(y, w, k, sum, median, v, s);
    }
    assert k1 == if median > v && Upsert(y, w, v, s).added && |Upsert(y, w, v, s).w| > 1 then k + 1 else k by {
      StartAfterUpsert(y, w, k, v, s);
    }
  }

  /** The two halves of the patch together, stated on the upsert and the
      decrement themselves. */
  lemma PlainPatchExact(y: seq<i128>, w: seq<u128>, k: nat, sum: u128, median: i128, e: Event)
    requires |y| == |w| && Ascending(y) && k < |y| && y[k] == median && sum == SumTo(w, k + 1)
    requires sum + e.newStake <= U128_MAX
    requires Locate(y, e.newVote).Found? ==> w[Locate(y, e.newVote).index] + e.newStake <= U128_MAX
    requires var u := Upsert(y, w, e.newVote, e.newStake);
      e.oldStake == 0 ||
      (e.oldVote != -1 && Locate(u.y, e.oldVote).Found? && e.oldStake < u.w[Locate(u.y, e.oldVote).index])
    ensures var u := Upsert(y, w, e.newVote, e.newStake);
      var r := RemoveOld(u, e);
      r.Done? && r.value.removed.None? &&
      var K := WalkStart(Staged(r.value, u.added, k), median, e.newVote);
      K < |r.value.w| && r.value.y[K] == median &&
      PatchCache(sum, |r.value.y|, median, e) == SumTo(r.value.w, K + 1)
  {
    var u := Upsert(y, w, e.newVote, e.newStake);
    var k1, s1 := UpsertPatched(y, w, k, sum, median, e.newVote, e.newStake);
    PatchSubExact(u, k1, s1, median, e);
    var r := RemoveOld(u, e).value;
    assert |r.y| == |u.y|;
    assert PatchCache(sum, |r.y|, median, e) == (if e.oldVote <= median then SatSub(s1, e.oldStake) else s1);
    assert WalkStart(Staged(r, u.added, k), median, e.newVote) == k1;
  }

  /** With the stored median at the pointer's vote and a plain call, the
      stages hand the walk an exact cache at its start pointer, and that
      pointer is still on the median's vote. */
  lemma PatchCacheExact(d: Snapshot, median: i128, e: Event)
    requires AtVote(d, median) && Plain(d, e)
    ensures LedgerStage(d.y, d.w, d.k, e).Done?
    ensures var st := LedgerStage(d.y, d.w, d.k, e).value;
      var K := WalkStart(st, median, e.newVote);
      st.dec.removed.None? && st.k == d.k && K < |st.dec.w| && st.dec.y[K] == median &&
      PatchCache(d.sumWK, |st.dec.y|, median, e) == SumTo(st.dec.w, K + 1)
  {
    PlainPatchExact(d.y, d.w, d.k, d.sumWK, median, e);
    StageWithoutRemoval(d.y, d.w, d.k, e);
  }

  /** The corrected walk after the as-written stages of a plain call from
      a state whose median is the pointer's vote lands on the weighted
      median with an exact cache (`AtMedian`), and the result rule there
      gives the median a full recomputation gives. */
  lemma StagesThenRepairFindMedian(d: Snapshot, median: i128, e: Event)
    requires AtVote(d, median) && Plain(d, e) && e.newTotal / 2 != 0
    ensures LedgerStage(d.y, d.w, d.k, e).Done?
    ensures var st := LedgerStage(d.y, d.w, d.k, e).value;
      var half := e.newTotal / 2;
      var r := Repair(st.dec.w, WalkStart(st, median, e.newVote), PatchCache(d.sumWK, |st.dec.y|, median, e), half);
      half <= SumTo(st.dec.w, |st.dec.w|) <= U128_MAX ==>
        r.Done? &&
        AtMedian(Snapshot(e.newTotal, r.value.k, r.value.sum, st.dec.y, st.dec.w)) &&
        WeightedMedian(st.dec.y, st.dec.w, e.newTotal) ==
          match Pick(st.dec.y, r.value.k, r.value.sum == half)
          case Abort(_) => None
          case Done(m) => Some(m)
  {
    PatchCacheExact(d, median, e);
    var st := LedgerStage(d.y, d.w, d.k, e).value;
    var half := e.newTotal / 2;
    var K := WalkStart(st, median, e.newVote);
    var sum := PatchCache(d.sumWK, |st.dec.y|, median, e);
    if half <= SumTo(st.dec.w, |st.dec.w|) <= U128_MAX {
      RepairFindsMedian(st.dec.w, K, sum, half);
      var q := Repair(st.dec.w, K, sum, half).value;
      PickAtMedian(st.dec.y, st.dec.w, e.newTotal, q.k);
    }
  }

  /** The call of `Engine.ShrinkBranchMissesMedian` is plain and starts
      with the median at the pointer's vote, so the corrected walk applies:
      from the same patched cache it moves on to vote 10, the weighted
      median, with an exact cache of 163. */
  lemma ShrinkBranchRepaired()
    ensures AtVote(Snapshot(201, 1, 101, [3, 5, 10], [40, 61, 100]), 5)
    ensures Plain(Snapshot(201, 1, 101, [3, 5, 10], [40, 61, 100]), Event(163, 2, 3, 40, 3))
    ensures Repair([2, 61, 100], 1, 63, 81) == Done(Pointer(2, 163))
    ensures AtMedian(Snapshot(163, 2, 163, [3, 5, 10], [2, 61, 100]))
    ensures Pick([3, 5, 10], 2, 163 == 81) == Done(10)
  {
    assert SumTo([40, 61, 100], 2) == 101;
    assert Locate([3, 5, 10], 3) == Found(0);
    assert Upsert([3, 5, 10], [40, 61, 100], 3, 2) == Upserted([3, 5, 10], [42, 61, 100], false);
    assert Shrink([2, 61, 100], 1, 63, 81) == Done(Pointer(1, 63));
    assert SumTo([2, 61, 100], 2) == 63;
    assert SumTo([2, 61, 100], 3) == 163;
  }

  /** The call of `Engine.GrowBranchMissesMedian` is plain too, and the
      corrected walk shrinks to vote 3, the weighted median, with an exact
      cache of 60. */
  lemma GrowBranchRepaired()
    ensures AtVote(Snapshot(201, 1, 101, [3, 5, 10], [60, 41, 100]), 5)
    ensures Plain(Snapshot(201, 1, 101, [3, 5, 10], [60, 41, 100]), Event(111, 10, 10, 100, 10))
    ensures Repair([60, 41, 10], 1, 101, 55) == Done(Pointer(0, 60))
    ensures AtMedian(Snapshot(111, 0, 60, [3, 5, 10], [60, 41, 10]))
    ensures Pick([3, 5, 10], 0, 60 == 55) == Done(3)
  {
    assert SumTo([60, 41, 100], 2) == 101;
    assert Locate([3, 5, 10], 10) == Found(2);
    assert Upsert([3, 5, 10], [60, 41, 100], 10, 10) == Upserted([3, 5, 10], [60, 41, 110], false);
    assert Shrink([60, 41, 10], 1, 101, 55) == Done(Pointer(0, 60));
    assert SumTo([60, 41, 10], 1) == 60;
  }
}
