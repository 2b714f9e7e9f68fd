/** An offer to trade, as countries put it into the queue (Hermes/Trade/Entry). */
module TradeEntries {
  import opened Transforms

  datatype Maybe = Unset | Set(amount: int)

  class Entry {
    const country: string
    const offer: Good
    const offered: int
    const need: Good
    const needed: int
    const isSurplus: bool
    var success: bool
    var noMatch: bool
    var taken: Maybe
    var given: Maybe

    constructor (country: string, offer: Good, offered: int, need: Good, needed: int, isSurplus: bool)
      ensures this.country == country && this.offer == offer && this.offered == offered
      ensures this.need == need && this.needed == needed && this.isSurplus == isSurplus
      ensures Open()
    {
      this.country, this.offer, this.offered, this.need, this.needed := country, offer, offered, need, needed;
      this.isSurplus, success, noMatch, taken, given := isSurplus, false, false, Unset, Unset;
    }

    /** Nothing settled yet. */
    predicate Open()
      reads this
    {
      !success && !noMatch && taken.Unset? && given.Unset?
    }

    /** compareAndSet(false, true). */
    method SetSuccessToTrue() returns (changed: bool)
      modifies this`success
      ensures success && changed == !old(success)
    {
      changed := !success;
      success := true;
    }

    /** The first amount set stays. */
    method SetGiven(amount: int)
      modifies this`given
      ensures given == if old(given).Unset? then Set(amount) else old(given)
    {
      if given.Unset? {
        given := Set(amount);
      }
    }

    method SetTaken(amount: int)
      modifies this`taken
      ensures taken == if old(taken).Unset? then Set(amount) else old(taken)
    {
      if taken.Unset? {
        taken := Set(amount);
      }
    }

    function GetGiven(): int
      reads this
    {
      match given case Unset => -1 case Set(n) => n
    }

    function GetTaken(): int
      reads this
    {
      match taken case Unset => -1 case Set(n) => n
    }
  }
}
