/** The standalone medianizer contract (sputnik-median/src/lib.rs): the DAO
    it serves, the current median and the ledger. Its `rebalance` is the
    same algorithm as the staking contract's, so both run `Engine.Step`. */
module Medianizer {
  import opened Base
  import opened Engine

  class MedianContract {
    /** The DAO that owns this medianizer. */
    var sputnik: AccountId
    /** The current median; -1 until a call settles one. */
    var median: i128
    var d: WeightsData

    ghost predicate Valid()
      reads this, d
    {
      d.Valid()
    }

    /** `Contract::new`: no votes, median -1. */
    constructor (id: AccountId)
      ensures Valid() && fresh(d)
      ensures sputnik == id && median == -1 && d.Snap() == Empty
    {
      sputnik := id;
      median := -1;
      d := new WeightsData();
    }

    /** `rebalance`: one `Step` on the ledger, judged against the stored
        median, which the result replaces. */
    method Rebalance(e: Event) returns (r: Outcome<()>)
      requires Valid()
      modifies this, d
      ensures Valid() && d == old(d) && sputnik == old(sputnik)
      ensures match Step(old(d.Snap()), old(median), e)
        case Abort(f) => r == Abort(f) && median == old(median) && d.Snap() == old(d.Snap())
        case Done(out) => r == Done(()) && median == out.median && d.Snap() == out.data
    {
      var m := d.Rebalance(median, e);
      match m
      case Abort(f) =>
        r := Abort(f);
      case Done(v) =>
        median := v;
        r := Done(());
    }
  }
}
