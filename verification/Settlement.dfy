/** What a settled trade does to the two countries together. */
module Settlements {
  import opened Transforms
  import opened Needs
  import opened PlanLog
  import opened TradeEntries
  import opened TradeManagement

  /** The stock of a country once it has taken in the result of its entry. */
  ghost function Received(s: Stock, e: Entry): Stock
    reads e
  {
    Assigned(s, e.need, e.GetGiven(), e.offer, e.GetTaken())
  }

  /** What comes in is added, not subtracted, or it is nothing. */
  ghost predicate AddsUp(e: Entry)
    reads e
  {
    (e.need != Electronics && e.need != Housing) || e.GetGiven() == 0
  }

  /** Over both countries every resource keeps its total exactly when each side adds what it is given; the
      source subtracts electronics and housing instead. */
  lemma SettlementConserves(c: Entry, e: Entry, s: Stock, t: Stock)
    requires HaveTraded(c, e) && !Waste(c.need) && !Waste(e.need)
    ensures (forall g :: AmountOf(Received(s, c), g) + AmountOf(Received(t, e), g) == AmountOf(s, g) + AmountOf(t, g))
       <==> AddsUp(c) && AddsUp(e)
  {
    TermsWithinOffers(c, e);
    var s1, t1 := Received(s, c), Received(t, e);
    if AddsUp(c) && AddsUp(e) {
      forall g
        ensures AmountOf(s1, g) + AmountOf(t1, g) == AmountOf(s, g) + AmountOf(t, g)
      {
        ReceivedAmount(s, c, g);
        ReceivedAmount(t, e, g);
      }
    } else {
      var g := if !AddsUp(c) then c.need else e.need;
      ReceivedAmount(s, c, g);
      ReceivedAmount(t, e, g);
      assert AmountOf(s1, g) + AmountOf(t1, g) < AmountOf(s, g) + AmountOf(t, g);
    }
  }

  lemma ReceivedAmount(s: Stock, e: Entry, g: Good)
    requires !Waste(e.need) && !Waste(e.offer)
    ensures AmountOf(Received(s, e), g) == AmountOf(s, g)
              + (if g == e.need then (if g == Electronics || g == Housing then -e.GetGiven() else e.GetGiven()) else 0)
              - (if g == e.offer then e.GetTaken() else 0)
  {
  }

  /** A country that can cover its offer is not overdrawn by the settlement. */
  lemma SettlementAffordable(c: Entry, e: Entry, s: Stock, t: Stock)
    requires HaveTraded(c, e) && !Waste(c.need) && !Waste(e.need) && AddsUp(c) && AddsUp(e)
    requires NonNegative(s) && NonNegative(t) && AmountOf(s, c.offer) >= c.offered && AmountOf(t, e.offer) >= e.offered
    ensures NonNegative(Received(s, c)) && NonNegative(Received(t, e))
  {
    TermsWithinOffers(c, e);
    StaysNonNegative(s, c);
    StaysNonNegative(t, e);
  }

  lemma StaysNonNegative(s: Stock, e: Entry)
    requires NonNegative(s) && !Waste(e.need) && !Waste(e.offer) && AddsUp(e)
    requires e.GetGiven() >= 0 && 0 <= e.GetTaken() <= AmountOf(s, e.offer)
    ensures NonNegative(Received(s, e))
  {
    var t := Received(s, e);
    forall g
      ensures AmountOf(t, g) >= 0
    {
      ReceivedAmount(s, e, g);
      assert AmountOf(s, g) >= 0;
    }
    assert AmountOf(t, Population) >= 0 && AmountOf(t, Elements) >= 0 && AmountOf(t, Timber) >= 0
        && AmountOf(t, Alloys) >= 0;
    assert AmountOf(t, AlloysWaste) >= 0 && AmountOf(t, Electronics) >= 0 && AmountOf(t, Housing) >= 0;
    assert AmountOf(t, HousingWaste) >= 0;
  }
}
