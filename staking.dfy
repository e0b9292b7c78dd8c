/** The staking contract's medianizer glue (sputnik-staking/src/lib.rs):
    the median and the ledger it keeps, each account's current vote, and the
    entry points that turn a vote or a change of delegated stake into one
    `rebalance` call.

    Cross-contract calls are split at their promises: `Vote` returns the
    arguments it hands to the `on_vote_change` callback, and the callbacks
    take the balances the DAO returned as parameters. Each part is its own
    NEAR receipt, so an abort in a callback does not undo `Vote`. */
module Staking {
  import opened Base
  import opened Ledger
  import opened Walk
  import opened Engine

  /** The `rebalance` call made by `on_stake_change` for an account whose
      recorded vote is `v`, given the DAO's (previous, new, total)
      delegation triple: the previous stake leaves `v`, the new one joins
      it. */
  function StakeChangeEvent(v: i128, b: (u128, u128, u128)): (e: Event)
    ensures e.newVote == e.oldVote == v
    ensures e.oldStake == b.0 && e.newStake == b.1 && e.newTotal == b.2
  {
    Event(b.2, b.1, v, b.0, v)
  }

  /** The `rebalance` call made by `on_vote_change`, as written: the
      previous vote lands in the new-vote slot and the new vote in the
      old-vote slot. */
  function VoteChangeEvent(oldVote: i128, newVote: i128, b: (u128, u128)): (e: Event)
    ensures e.newVote == oldVote && e.oldVote == newVote
    ensures e.newStake == e.oldStake == b.0 && e.newTotal == b.1
  {
    Event(b.1, b.0, oldVote, b.0, newVote)
  }

  /** The call `on_vote_change` evidently means: the account's stake
      joins the new vote and leaves the previous one, except that a first
      vote (previous vote -1) has no stake to take away. */
  function IntendedVoteChangeEvent(oldVote: i128, newVote: i128, b: (u128, u128)): (e: Event)
    ensures e.newVote == newVote && e.oldVote == oldVote
    ensures e.newStake == b.0 && e.newTotal == b.1
    ensures e.oldStake == 0 <==> oldVote == -1 || b.0 == 0
    ensures e.oldStake != 0 ==> e.oldStake == b.0
  {
    Event(b.1, b.0, newVote, if oldVote == -1 then 0 else b.0, oldVote)
  }

  /** A stake change on the ledger read as a dictionary: the account's
      vote `v` gains the new stake and loses the previous one (both
      saturating), and leaves the dictionary when it reaches 0 with a
      nonzero previous stake. */
  lemma TallyStakeChange(W: map<int, u128>, v: i128, b: (u128, u128, u128))
    requires v > 0
    ensures var after := SatSub(SatAdd(if v in W then W[v] else 0, b.1), b.0);
      Tally(W, StakeChangeEvent(v, b)) ==
        Some(if b.0 != 0 && after == 0 then W - {v} else W[v := after])
  {
    var e := StakeChangeEvent(v, b);
    var sum := SatAdd(if v in W then W[v] else 0, b.1);
    var W1 := AddNew(W, e);
    assert W1 == W[v := sum];
    if b.0 != 0 {
      var left := SatSub(sum, b.0);
      assert W1 - {v} == W - {v};
      assert W1[v := left] == W[v := left];
    } else {
      assert SatSub(sum, b.0) == sum;
    }
  }

  /** The same on the ledger: a successful `on_stake_change` call leaves
      the ledger that `TallyStakeChange` describes, and the call never
      aborts for a missing vote. */
  lemma StakeChangeMeaning(d: Snapshot, median: i128, v: i128, b: (u128, u128, u128))
    requires |d.y| == |d.w| && Ascending(d.y) && v > 0
    ensures Step(d, median, StakeChangeEvent(v, b)) != Abort(MissingOldVote)
    ensures Step(d, median, StakeChangeEvent(v, b)).Done? ==>
      var out := Step(d, median, StakeChangeEvent(v, b)).value.data;
      var W := Weights(d.y, d.w);
      var after := SatSub(SatAdd(if v in W then W[v] else 0, b.1), b.0);
      Weights(out.y, out.w) == if b.0 != 0 && after == 0 then W - {v} else W[v := after]
  {
    StepMeaning(d, median, StakeChangeEvent(v, b));
    TallyStakeChange(Weights(d.y, d.w), v, b);
  }

  /** A first vote (previous vote -1) through `on_vote_change` as written,
      on the ledger read as a dictionary, by an account with a nonzero
      stake: nothing when nobody voted `v` yet, and otherwise the stake
      moves from `v` onto the vote -1. */
  lemma TallyFirstVoteSwapped(W: map<int, u128>, v: i128, b: (u128, u128))
    requires v > 0 && b.0 != 0
    ensures v !in W <==> Tally(W, VoteChangeEvent(-1, v, b)) == None
    ensures Tally(W, VoteChangeEvent(-1, v, b)).Some? ==>
      var W2 := Tally(W, VoteChangeEvent(-1, v, b)).value;
      -1 in W2 && W2[-1] == SatAdd(if -1 in W then W[-1] else 0, b.0) &&
      (v in W2 ==> b.0 < W[v] && W2[v] == W[v] - b.0)
  {
    var e := VoteChangeEvent(-1, v, b);
    var W1 := AddNew(W, e);
    assert v in W1 <==> v in W;
    if v in W {
      assert W1[v] == W[v];
    }
  }

  /** The same first vote on the vectors: it aborts when nobody voted `v`
      yet, and otherwise leaves the stake on the vote -1. */
  lemma FirstVoteSwapped(d: Snapshot, median: i128, v: i128, b: (u128, u128))
    requires |d.y| == |d.w| && Ascending(d.y)
    requires v > 0 && b.0 != 0
    ensures v !in d.y ==> Step(d, median, VoteChangeEvent(-1, v, b)) == Abort(MissingOldVote)
    ensures Step(d, median, VoteChangeEvent(-1, v, b)).Done? ==>
      -1 in Step(d, median, VoteChangeEvent(-1, v, b)).value.data.y
  {
    var e := VoteChangeEvent(-1, v, b);
    StepMeaning(d, median, e);
    TallyFirstVoteSwapped(Weights(d.y, d.w), v, b);
  }

  /** The intended first vote never aborts for a missing old vote, and
      adds the account's stake to its new vote. */
  lemma IntendedFirstVoteCounts(d: Snapshot, median: i128, v: i128, b: (u128, u128))
    requires |d.y| == |d.w| && Ascending(d.y)
    requires v > 0
    ensures Step(d, median, IntendedVoteChangeEvent(-1, v, b)) != Abort(MissingOldVote)
    ensures Step(d, median, IntendedVoteChangeEvent(-1, v, b)).Done? ==>
      var out := Step(d, median, IntendedVoteChangeEvent(-1, v, b)).value.data;
      var W, W2 := Weights(d.y, d.w), Weights(out.y, out.w);
      W2 == W[v := SatAdd(if v in W then W[v] else 0, b.0)]
  {
    StepMeaning(d, median, IntendedVoteChangeEvent(-1, v, b));
    TallyIntendedFirstVote(Weights(d.y, d.w), v, b);
  }

  /** The intended first vote on the ledger read as a dictionary: the
      stake joins the new vote and nothing leaves. */
  lemma TallyIntendedFirstVote(W: map<int, u128>, v: i128, b: (u128, u128))
    requires v > 0
    ensures Tally(W, IntendedVoteChangeEvent(-1, v, b)) ==
      Some(W[v := SatAdd(if v in W then W[v] else 0, b.0)])
  {
  }

  /** Swapping the two votes back is not enough: with the stake also
      taken from the vote -1, which lies at or left of every median, a
      first vote on an empty ledger starts the grow loop from a cache of 0
      and runs past the end, and a first vote right of a lone median lands
      on an exact split with no vote after it. */
  lemma SentinelStakeAborts()
    ensures Step(Empty, -1, Event(100, 100, 5, 100, -1)) == Abort(WeightOutOfRange)
    ensures Step(Snapshot(100, 0, 100, [5], [100]), 5, Event(200, 100, 10, 100, -1)) ==
      Abort(VoteOutOfRange)
  {
    assert Upsert([], [], 5, 100) == Upserted([5], [100], true);
    assert Grow([100], 0, 0, 50) == Abort(WeightOutOfRange);
    assert Locate([5], 10) == Missing(1);
    assert Upsert([5], [100], 10, 100) == Upserted([5, 10], [100, 100], true);
    assert Grow([100, 100], 0, 0, 100) == Done(Pointer(1, 100));
  }

  /** The intended first vote on an empty ledger, by an account holding
      `b.0` of a total `b.1`: the ledger becomes that one entry, and the
      median becomes the vote when the account holds more than half the
      total; with exactly half the result rule reads past the end, with
      less the grow loop does, and with a total below 2 the median stays
      -1. */
  lemma IntendedFirstVoteOnEmpty(v: i128, b: (u128, u128))
    requires v > 0
    ensures var r := Step(Empty, -1, IntendedVoteChangeEvent(-1, v, b));
      (b.1 / 2 == 0 ==> r == Done(Rebalanced(Snapshot(b.1, 0, 0, [v], [b.0]), -1))) &&
      (0 < b.1 / 2 && b.0 < b.1 / 2 ==> r == Abort(WeightOutOfRange)) &&
      (0 < b.1 / 2 && b.0 == b.1 / 2 ==> r == Abort(VoteOutOfRange)) &&
      (0 < b.1 / 2 && b.1 / 2 < b.0 ==> r == Done(Rebalanced(Snapshot(b.1, 0, b.0, [v], [b.0]), v)))
  {
    var e := IntendedVoteChangeEvent(-1, v, b);
    assert Upsert([], [], v, b.0) == Upserted([v], [b.0], true);
    assert LedgerStage([], [], 0, e) == Done(Staged(Decremented([v], [b.0], None), true, 0));
    assert PatchCache(0, 1, -1, e) == b.0;
  }

  /** The intended vote change, on the ledger read as a dictionary, moves
      exactly the account's stake from the previous vote to the new one
      when the previous vote holds more than that stake and nothing
      saturates. */
  lemma IntendedVoteChangeMoves(W: map<int, u128>, a: i128, v: i128, b: (u128, u128))
    requires a > 0 && v > 0 && a != v && b.0 != 0
    requires a in W && b.0 < W[a]
    requires v in W ==> W[v] + b.0 <= U128_MAX
    ensures Tally(W, IntendedVoteChangeEvent(a, v, b)) ==
      Some(W[v := (if v in W then W[v] else 0) + b.0][a := W[a] - b.0])
  {
    var W1 := AddNew(W, IntendedVoteChangeEvent(a, v, b));
    assert W1 == W[v := (if v in W then W[v] else 0) + b.0];
    assert W1[a] == W[a];
  }

  /** The median-related state of the staking `Contract`. */
  class StakingContract {
    /** The current median; -1 until a call settles one. */
    var median: i128
    var d: WeightsData
    /** Each account's current vote. */
    var votes: map<AccountId, i128>

    ghost predicate Valid()
      reads this, d
    {
      d.Valid()
    }

    /** The medianizer part of `Contract::new`. */
    constructor ()
      ensures Valid() && fresh(d)
      ensures median == -1 && d.Snap() == Empty && votes == map[]
    {
      median := -1;
      d := new WeightsData();
      votes := map[];
    }

    /** `rebalance` on the contract: one `Step` on the ledger, judged
        against the stored median, which the result replaces. */
    method Rebalance(e: Event) returns (r: Outcome<()>)
      requires Valid()
      modifies this, d
      ensures Valid() && d == old(d) && votes == old(votes)
      ensures match Step(old(d.Snap()), old(median), e)
        case Abort(f) => r == Abort(f) && median == old(median) && d.Snap() == old(d.Snap())
        case Done(out) => r == Done(()) && median == out.median && d.Snap() == out.data
    {
      var m := d.Rebalance(median, e);
      match m
      case Abort(f) =>
        r := Abort(f);
      case Done(v) =>
        median := v;
        r := Done(());
    }

    /** `vote`: checks the storage deposit and the sign of the vote,
        records the vote, and returns the (previous vote or -1, new vote)
        pair it passes to `on_vote_change`. */
    method Vote(predecessor: AccountId, newVote: i128, attached: nat, storageByteCost: nat)
      returns (r: Outcome<(i128, i128)>)
      modifies this
      ensures median == old(median) && d == old(d)
      ensures r == (if attached != 16 * storageByteCost then Abort(WrongDeposit)
                    else if newVote <= 0 then Abort(NonPositiveVote)
                    else Done((if predecessor in old(votes) then old(votes)[predecessor] else -1, newVote)))
      ensures r.Done? ==> votes == old(votes)[predecessor := newVote]
      ensures r.Abort? ==> votes == old(votes)
    {
      if attached != 16 * storageByteCost {
        return Abort(WrongDeposit);
      }
      if newVote <= 0 {
        return Abort(NonPositiveVote);
      }
      var oldVote: i128 := -1;
      if predecessor in votes {
        oldVote := votes[predecessor];
      }
      votes := votes[predecessor := newVote];
      r := Done((oldVote, newVote));
    }

    /** `on_stake_change`: only the contract itself may call it; for an
        account that has voted, one `rebalance` moving its stake from the
        previous to the new delegated amount on its vote; nothing for an
        account that has not. */
    method OnStakeChange(predecessor: AccountId, current: AccountId, account: AccountId,
                         balances: (u128, u128, u128)) returns (r: Outcome<()>)
      requires Valid()
      modifies this, d
      ensures Valid() && d == old(d) && votes == old(votes)
      ensures predecessor != current ==>
        r == Abort(NotSelf) && median == old(median) && d.Snap() == old(d.Snap())
      ensures predecessor == current && account !in votes ==>
        r == Done(()) && median == old(median) && d.Snap() == old(d.Snap())
      ensures predecessor == current && account in votes ==>
        match Step(old(d.Snap()), old(median), StakeChangeEvent(votes[account], balances))
        case Abort(f) => r == Abort(f) && median == old(median) && d.Snap() == old(d.Snap())
        case Done(out) => r == Done(()) && median == out.median && d.Snap() == out.data
    {
      if predecessor != current {
        return Abort(NotSelf);
      }
      if account in votes {
        r := Rebalance(StakeChangeEvent(votes[account], balances));
      } else {
        r := Done(());
      }
    }

    /** `on_vote_change`: only the contract itself may call it; one
        `rebalance` with the votes in the order the source passes them. */
    method OnVoteChange(predecessor: AccountId, current: AccountId, oldVote: i128, newVote: i128,
                        balances: (u128, u128)) returns (r: Outcome<()>)
      requires Valid()
      modifies this, d
      ensures Valid() && d == old(d) && votes == old(votes)
      ensures predecessor != current ==>
        r == Abort(NotSelf) && median == old(median) && d.Snap() == old(d.Snap())
      ensures predecessor == current ==>
        match Step(old(d.Snap()), old(median), VoteChangeEvent(oldVote, newVote, balances))
        case Abort(f) => r == Abort(f) && median == old(median) && d.Snap() == old(d.Snap())
        case Done(out) => r == Done(()) && median == out.median && d.Snap() == out.data
    {
      if predecessor != current {
        return Abort(NotSelf);
      }
      r := Rebalance(VoteChangeEvent(oldVote, newVote, balances));
    }
  }
}
