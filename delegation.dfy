/** The DAO's delegation table (sputnikdao2/src/delegation.rs): the
    staking contract registers accounts and reports every change of their
    delegated stake, and the DAO keeps each account's amount and their
    total. */
module Delegation {
  import opened Base

  /** The sum of all the amounts in a table. */
  ghost function MapSum(m: map<AccountId, u128>): nat
  {
    if m == map[] then 0
    else
      var a :| a in m;
      m[a] + MapSum(m - {a})
  }

  /** Any entry can be taken out of the sum first. */
  lemma {:induction false} MapSumRemove(m: map<AccountId, u128>, a: AccountId)
    requires a in m
    ensures MapSum(m) == m[a] + MapSum(m - {a})
    decreases |m|
  {
    var c :| c in m && MapSum(m) == m[c] + MapSum(m - {c});
    if c != a {
      var ma, mc := m - {a}, m - {c};
      assert |mc| < |m|;
      MapSumRemove(mc, a);
      assert mc - {a} == ma - {c};
      assert |ma| < |m|;
      MapSumRemove(ma, c);
    }
  }

  /** Setting one entry changes the sum by the difference. */
  lemma MapSumUpdate(m: map<AccountId, u128>, a: AccountId, x: u128)
    ensures MapSum(m[a := x]) + (if a in m then m[a] else 0) == MapSum(m) + x
  {
    var m2 := m[a := x];
    MapSumRemove(m2, a);
    assert m2 - {a} == m - {a};
    if a in m {
      MapSumRemove(m, a);
    } else {
      assert m - {a} == m;
    }
  }

  /** No single entry exceeds the sum. */
  lemma EntryAtMostSum(m: map<AccountId, u128>, a: AccountId)
    requires a in m
    ensures m[a] <= MapSum(m)
  {
    MapSumRemove(m, a);
  }

  /** The delegation state of the DAO `Contract`. */
  class Dao {
    /** The staking contract allowed to report stakes, if one is set. */
    var stakingId: Option<AccountId>
    /** Each registered account's delegated amount. */
    var delegations: map<AccountId, u128>
    var totalDelegationAmount: u128

    /** The total is the sum of the table. */
    ghost predicate Balanced()
      reads this
    {
      totalDelegationAmount == MapSum(delegations)
    }

    /** `get_user_weight`: the account's delegated amount, 0 when it is
        not registered. */
    function GetUserWeight(account: AccountId): (r: u128)
      reads this
      ensures account in delegations ==> r == delegations[account]
      ensures account !in delegations ==> r == 0
      ensures Balanced() ==> r <= totalDelegationAmount
    {
      if account in delegations then
        EntryAtMostSum(delegations, account);
        delegations[account]
      else 0
    }

    /** `register_delegation`: the staking contract, paying for 16 bytes
        of storage, sets the account's amount to 0, also when it already
        holds one; the total is not adjusted, so the table stays balanced
        exactly when that previous amount was 0. */
    method RegisterDelegation(predecessor: AccountId, account: AccountId, attached: nat, storageByteCost: nat)
      returns (r: Outcome<()>)
      modifies this
      ensures stakingId == old(stakingId) && totalDelegationAmount == old(totalDelegationAmount)
      ensures r == (if stakingId.None? then Abort(NoStaking)
                    else if predecessor != stakingId.value then Abort(InvalidCaller)
                    else if attached != 16 * storageByteCost then Abort(WrongDeposit)
                    else Done(()))
      ensures r.Done? ==> delegations == old(delegations)[account := 0]
      ensures r.Abort? ==> delegations == old(delegations)
      ensures r.Done? && old(Balanced()) ==> (Balanced() <==> old(GetUserWeight(account)) == 0)
    {
      if stakingId.None? {
        return Abort(NoStaking);
      }
      if predecessor != stakingId.value {
        return Abort(InvalidCaller);
      }
      if attached != 16 * storageByteCost {
        return Abort(WrongDeposit);
      }
      MapSumUpdate(delegations, account, 0);
      delegations := delegations[account := 0];
      r := Done(());
    }

    /** `delegate`: the staking contract adds `amount` to a registered
        account and to the total, and gets back the account's previous and
        new amounts and the new total. A sum past `u128` aborts. A balanced
        table stays balanced. */
    method Delegate(predecessor: AccountId, account: AccountId, amount: u128)
      returns (r: Outcome<(u128, u128, u128)>)
      modifies this
      ensures stakingId == old(stakingId)
      ensures r == (if stakingId.None? then Abort(NoStaking)
                    else if predecessor != stakingId.value then Abort(InvalidCaller)
                    else if account !in old(delegations) then Abort(NotRegistered)
                    else if old(delegations)[account] + amount > U128_MAX then Abort(Overflow)
                    else if old(totalDelegationAmount) + amount > U128_MAX then Abort(Overflow)
                    else Done((old(delegations)[account], old(delegations)[account] + amount,
                               old(totalDelegationAmount) + amount)))
      ensures r.Done? ==> delegations == old(delegations)[account := r.value.1] &&
                          totalDelegationAmount == r.value.2
      ensures r.Abort? ==> delegations == old(delegations) &&
                           totalDelegationAmount == old(totalDelegationAmount)
      ensures old(Balanced()) ==> Balanced()
    {
      if stakingId.None? {
        return Abort(NoStaking);
      }
      if predecessor != stakingId.value {
        return Abort(InvalidCaller);
      }
      if account !in delegations {
        return Abort(NotRegistered);
      }
      var prev := delegations[account];
      if prev + amount > U128_MAX || totalDelegationAmount + amount > U128_MAX {
        return Abort(Overflow);
      }
      var next: u128 := prev + amount;
      MapSumUpdate(delegations, account, next);
      delegations := delegations[account := next];
      totalDelegationAmount := totalDelegationAmount + amount;
      r := Done((prev, next, totalDelegationAmount));
    }

    /** `undelegate`: the staking contract takes `amount` from an account
        (0 when absent, which registers it) and from the total, and gets
        back the account's previous and new amounts and the new total.
        Taking more than the account holds aborts; in a balanced table the
        total can then never underflow, and the table stays balanced. */
    method Undelegate(predecessor: AccountId, account: AccountId, amount: u128)
      returns (r: Outcome<(u128, u128, u128)>)
      modifies this
      ensures stakingId == old(stakingId)
      ensures r == (if stakingId.None? then Abort(NoStaking)
                    else if predecessor != stakingId.value then Abort(InvalidCaller)
                    else if old(GetUserWeight(account)) < amount then Abort(Overflow)
                    else if old(totalDelegationAmount) < amount then Abort(Overflow)
                    else Done((old(GetUserWeight(account)), old(GetUserWeight(account)) - amount,
                               old(totalDelegationAmount) - amount)))
      ensures r.Done? ==> delegations == old(delegations)[account := r.value.1] &&
                          totalDelegationAmount == r.value.2
      ensures r.Abort? ==> delegations == old(delegations) &&
                           totalDelegationAmount == old(totalDelegationAmount)
      ensures old(Balanced()) && r == Abort(Overflow) ==> old(GetUserWeight(account)) < amount
      ensures old(Balanced()) ==> Balanced()
    {
      if stakingId.None? {
        return Abort(NoStaking);
      }
      if predecessor != stakingId.value {
        return Abort(InvalidCaller);
      }
      var prev := GetUserWeight(account);
      if prev < amount || totalDelegationAmount < amount {
        return Abort(Overflow);
      }
      var next: u128 := prev - amount;
      MapSumUpdate(delegations, account, next);
      delegations := delegations[account := next];
      totalDelegationAmount := totalDelegationAmount - amount;
      r := Done((prev, next, totalDelegationAmount));
    }
  }
}
