/** What a plan says. */
module PlanLog {
  // Node by node: stocks, the actions between them, and the trades they take part in.

  import opened Transforms
  import opened Needs

  /** What the text of a node says was done. */
  datatype Action =
    | Initial
    | AlloyRun(n: int)
    | HousingRun(n: int)
    | ElectronicsRun(n: int)
    | TradeFailed(need: Good)
    | Traded(need: Good)
    | TradedSurplus(need: Good)
    | Optimal

  datatype Node = Node(status: Status, text: Action)

  /** What the hierarchy of needs asks for. */
  datatype Move = Ask(need: Good, amount: int) | Convert(step: Step, times: nat, text: Action) | Spare

  function Natural(n: int): nat {
    if n < 0 then 0 else n
  }

  /** People first, then houses, then electronics; for either of these elements, then alloys, then (for
      houses) timber. */
  function Decide(s: Stock): Move {
    if PopulationNeeded(s) then Ask(Population, PopulationDeficit(s))
    else if HousesNeeded(s) then
      if ElementDeficit(s) > 0 then Ask(Elements, ElementDeficit(s))
      else if AlloyDeficit(s) > 0 then Convert(MakeAlloy, Natural(AlloyDeficit(s)), AlloyRun(AlloyDeficit(s)))
      else if TimberDeficit(s) > 0 then Ask(Timber, TimberDeficit(s))
      else Convert(BuildHouse, Natural(HouseDeficit(s)), HousingRun(HouseDeficit(s)))
    else if ElectronicsNeeded(s) then
      if ElementDeficit(s) > 0 then Ask(Elements, ElementDeficit(s))
      else if AlloyDeficit(s) > 0 then Convert(MakeAlloy, Natural(AlloyDeficit(s)), AlloyRun(AlloyDeficit(s)))
      else Convert(MakeElectronics, Natural(ElectronicsDeficit(s) / 2), ElectronicsRun(ElectronicsDeficit(s)))
    else Spare
  }

  /** Whatever the needs are, a conversion that is decided on can be made to the end. */
  lemma DecidedFeasible(s: Stock)
    ensures Decide(s).Convert? ==> CanRun(Times(Decide(s).step, Decide(s).times), s)
  {
    if !PopulationNeeded(s) && ElementDeficit(s) == 0 {
      if AlloyDeficit(s) > 0 {
        AlloysAffordable(s);
      } else if HousesNeeded(s) && TimberDeficit(s) == 0 {
        HousesAffordable(s);
      } else if !HousesNeeded(s) && ElectronicsNeeded(s) {
        ElectronicsAffordable(s);
      }
    }
  }

  // ----- trades -----

  function AmountOf(s: Stock, g: Good): int {
    match g
    case Population => s.population
    case Elements => s.elements
    case Timber => s.timber
    case Alloys => s.alloys
    case AlloysWaste => s.waste
    case Electronics => s.electronics
    case Housing => s.housing
    case HousingWaste => s.housingWaste
  }

  function WithAmount(s: Stock, g: Good, n: int): Stock {
    match g
    case Population => s.(population := n)
    case Elements => s.(elements := n)
    case Timber => s.(timber := n)
    case Alloys => s.(alloys := n)
    case AlloysWaste => s.(waste := n)
    case Electronics => s.(electronics := n)
    case Housing => s.(housing := n)
    case HousingWaste => s.(housingWaste := n)
  }

  predicate Waste(g: Good) {
    g == AlloysWaste || g == HousingWaste
  }

  /** What a trade does to the stock: what was needed comes in (for electronics and housing the source
      subtracts it), what was offered goes out. Wastes are an error and stop it. */
  function Assigned(s: Stock, need: Good, given: int, offer: Good, taken: int): Stock {
    if Waste(need) then s
    else if Waste(offer) then Incoming(s, need, given)
    else Outgoing(Incoming(s, need, given), offer, taken)
  }

  function Incoming(s: Stock, need: Good, given: int): Stock {
    WithAmount(s, need, AmountOf(s, need) + (if need == Electronics || need == Housing then -given else given))
  }

  function Outgoing(s: Stock, offer: Good, taken: int): Stock {
    WithAmount(s, offer, AmountOf(s, offer) - taken)
  }

  // ----- what is offered and asked for -----

  /** How a trade put into the queue ends: nobody takes it, or the amounts are set. Where several entries are
      offered, `which` picks the one that is taken. */
  datatype Outcome = NoTrade | Settled(which: nat, given: int, taken: int)

  /** The goods the searches by amount look at, in their order. */
  const COUNTED: seq<Good> := [Population, Elements, Timber, Alloys, Electronics]

  function Surplus(s: Stock, g: Good): int {
    StatusOf(s).surplus[Position(g)]
  }

  /** The first good with the highest surplus above zero, wastes aside. */
  ghost predicate MostSpare(s: Stock, g: Good) {
    && !Waste(g) && Surplus(s, g) > 0
    && forall h :: !Waste(h) ==>
         Surplus(s, h) <= Surplus(s, g) && (Position(h) < Position(g) ==> Surplus(s, h) < Surplus(s, g))
  }

  ghost predicate NothingSpare(s: Stock) {
    forall g :: !Waste(g) ==> Surplus(s, g) <= 0
  }

  /** The first of the counted goods other than this one with the highest amount above zero. */
  ghost predicate MostHeld(s: Stock, need: Good, g: Good) {
    && g in COUNTED && g != need && AmountOf(s, g) > 0
    && forall h :: h in COUNTED && h != need ==>
         AmountOf(s, h) <= AmountOf(s, g) && (Position(h) < Position(g) ==> AmountOf(s, h) < AmountOf(s, g))
  }

  ghost predicate NothingHeld(s: Stock, need: Good) {
    forall g :: g in COUNTED && g != need ==> AmountOf(s, g) <= 0
  }

  /** The good offered for a need: what can best be spared, failing that what there is most of, failing that people. */
  ghost predicate OfferFor(s: Stock, need: Good, g: Good) {
    || MostSpare(s, g)
    || (NothingSpare(s) && (MostHeld(s, need, g) || (NothingHeld(s, need) && g == Population)))
  }

  lemma OneOffer(s: Stock, need: Good, g: Good, h: Good)
    requires OfferFor(s, need, g) && OfferFor(s, need, h)
    ensures g == h && !Waste(g)
  {
    hide StatusOf;
    PositionsDiffer(g, h);
  }

  lemma PositionsDiffer(g: Good, h: Good)
    ensures Position(g) == Position(h) ==> g == h
    ensures GOODS[Position(g)] == g
  {
  }

  /** The amount GetLowestResource compares with: the lowest, where a negative one gives way to whatever follows. */
  function Lowest(amounts: seq<int>): int {
    if amounts == [] then -1
    else
      var before, last := Lowest(amounts[..|amounts| - 1]), amounts[|amounts| - 1];
      if before < 0 || last < before then last else before
  }

  function CountedAmounts(s: Stock): seq<int> {
    [s.population, s.elements, s.timber, s.alloys, s.electronics]
  }

  /** The good asked for when nothing is needed: the first with that amount. */
  ghost predicate AskedFor(s: Stock, g: Good) {
    var low := Lowest(CountedAmounts(s));
    && g in COUNTED && AmountOf(s, g) == low
    && forall h :: h in COUNTED && Position(h) < Position(g) ==> AmountOf(s, h) != low
  }

  /** Without negative amounts it is the first of those there is least of. */
  lemma AskedForLeast(s: Stock, g: Good)
    requires NonNegative(s) && AskedFor(s, g)
    ensures forall h :: h in COUNTED ==>
      AmountOf(s, g) <= AmountOf(s, h) && (Position(h) < Position(g) ==> AmountOf(s, g) < AmountOf(s, h))
  {
    LowestIsLeast(CountedAmounts(s));
    forall h | h in COUNTED
      ensures AmountOf(s, h) in CountedAmounts(s)
    {
    }
  }

  lemma {:induction false} LowestIsLeast(amounts: seq<int>)
    requires forall x :: x in amounts ==> x >= 0
    ensures amounts != [] ==> Lowest(amounts) in amounts
    ensures forall x :: x in amounts ==> Lowest(amounts) <= x
  {
    if amounts != [] {
      var front := amounts[..|amounts| - 1];
      assert forall x :: x in front ==> x in amounts;
      LowestIsLeast(front);
      forall x | x in amounts
        ensures Lowest(amounts) <= x
      {
        assert x in front || x == amounts[|amounts| - 1];
      }
    }
  }

  /** The goods with something to spare among the first n, in order. */
  function Spared(s: Stock, n: nat): seq<Good>
    requires n <= 8
  {
    if n == 0 then []
    else
      var g := GOODS[n - 1];
      if !Waste(g) && Surplus(s, g) > 0 then Spared(s, n - 1) + [g] else Spared(s, n - 1)
  }

  /** These goods, each once, in the order of the lists. */
  lemma {:induction false} SparedAre(s: Stock, n: nat)
    requires n <= 8
    ensures forall g :: g in Spared(s, n) <==> Position(g) < n && !Waste(g) && Surplus(s, g) > 0
    ensures forall i, j :: 0 <= i < j < |Spared(s, n)| ==> Position(Spared(s, n)[i]) < Position(Spared(s, n)[j])
  {
    if n > 0 {
      hide Surplus;
      SparedAre(s, n - 1);
      var g, before := GOODS[n - 1], Spared(s, n - 1);
      PlaceOf(n - 1);
      forall h | Position(h) == n - 1
        ensures h == g
      {
        PositionsDiffer(g, h);
      }
      forall i | 0 <= i < |before|
        ensures Position(before[i]) < n - 1
      {
        assert before[i] in before;
      }
    }
  }

  lemma PlaceOf(i: nat)
    requires i < 8
    ensures Position(GOODS[i]) == i
  {
  }

  // ----- the log -----

  /** Nobody takes what is offered next. */
  predicate NoneTakes(market: seq<Outcome>) {
    market == [] || market[0].NoTrade?
  }

  /** One node after a stock, and the stock after it, given how the trades to come end. */
  ghost predicate Follows(s: Stock, node: Node, t: Stock, market: seq<Outcome>) {
    && node.status == StatusOf(t)
    && match Decide(s)
       case Convert(step, times, text) => node.text == text && t == Run(Times(step, times), s)
       case Ask(need, _) =>
         if NoneTakes(market) then node.text == TradeFailed(need) && t == s
         else node.text == Traded(need) && NeedTraded(s, t, need, market[0])
       case Spare =>
         if NoneTakes(market) || Spared(s, 8) == [] then node.text == Optimal && t == s
         else node.text.TradedSurplus? && SurplusTraded(s, t, node.text.need, market[0])
  }

  /** A trade for a need with the amounts of this outcome. */
  ghost predicate NeedTraded(s: Stock, t: Stock, need: Good, o: Outcome)
    requires o.Settled?
  {
    exists offer :: OfferFor(s, need, offer) && t == Assigned(s, need, o.given, offer, o.taken)
  }

  /** The one of the surplus entries that this outcome says was taken. */
  ghost predicate SurplusTraded(s: Stock, t: Stock, need: Good, o: Outcome)
    requires o.Settled? && Spared(s, 8) != []
  {
    AskedFor(s, need) && t == Assigned(s, need, o.given, Spared(s, 8)[o.which % |Spared(s, 8)|], o.taken)
  }

  ghost predicate IsTrade(a: Action) {
    a.Traded? || a.TradedSurplus?
  }

  /** The outcomes used up by the nodes to place k. */
  ghost function TradesUpTo(nodes: map<int, Node>, k: int): nat
    decreases Natural(k)
  {
    if k <= 0 then 0 else TradesUpTo(nodes, k - 1) + if k in nodes && IsTrade(nodes[k].text) then 1 else 0
  }

  function Rest(market: seq<Outcome>, n: nat): seq<Outcome> {
    if n <= |market| then market[n..] else []
  }

  /** The outcomes still to come after place k. */
  ghost function ToCome(nodes: map<int, Node>, market: seq<Outcome>, k: int): seq<Outcome> {
    Rest(market, TradesUpTo(nodes, k))
  }

  /** The numbers from zero to k. */
  function UpTo(k: int): (r: set<int>)
    ensures forall i :: i in r <==> 0 <= i <= k
    decreases if k < 0 then 0 else k + 1
  {
    if k < 0 then {} else UpTo(k - 1) + {k}
  }

  ghost predicate LogAt(nodes: map<int, Node>, stocks: map<int, Stock>, market: seq<Outcome>, i: int) {
    && i in nodes && i in stocks && i - 1 in stocks
    && Follows(stocks[i - 1], nodes[i], stocks[i], ToCome(nodes, market, i - 1))
  }

  /** A search has got to place k: the nodes up to there, and the stock at each, with each trade on the next of the
      outcomes. */
  ghost predicate Logged(nodes: map<int, Node>, stocks: map<int, Stock>, market: seq<Outcome>, k: int) {
    && k >= 0 && nodes.Keys == stocks.Keys == UpTo(k)
    && nodes[0] == Node(StatusOf(stocks[0]), Initial)
    && forall i :: 0 < i <= k ==> LogAt(nodes, stocks, market, i)
  }

  /** A search ends at a limit, with a trade that failed, or with nothing left to trade. */
  predicate Ended(node: Node) {
    node.text.TradeFailed? || node.text.Optimal?
  }

  lemma {:induction false} SameTrades(nodes: map<int, Node>, more: map<int, Node>, k: int)
    requires forall i :: 0 <= i <= k ==> i in nodes && i in more && more[i] == nodes[i]
    ensures TradesUpTo(more, k) == TradesUpTo(nodes, k)
    decreases Natural(k)
  {
    if k > 0 {
      SameTrades(nodes, more, k - 1);
    }
  }

  lemma OneMore(nodes: map<int, Node>, market: seq<Outcome>, k: int)
    requires k > 0 && k in nodes
    ensures ToCome(nodes, market, k) ==
            if IsTrade(nodes[k].text) then Rest(ToCome(nodes, market, k - 1), 1) else ToCome(nodes, market, k - 1)
  {
  }

  lemma LogExtends(nodes: map<int, Node>, stocks: map<int, Stock>, market: seq<Outcome>, k: int, node: Node, s: Stock)
    requires Logged(nodes, stocks, market, k) && Follows(stocks[k], node, s, ToCome(nodes, market, k))
    ensures Logged(nodes[k + 1 := node], stocks[k + 1 := s], market, k + 1)
    ensures ToCome(nodes[k + 1 := node], market, k + 1) ==
            if IsTrade(node.text) then Rest(ToCome(nodes, market, k), 1) else ToCome(nodes, market, k)
  {
    hide Follows, StatusOf, TradesUpTo;
    var more, states := nodes[k + 1 := node], stocks[k + 1 := s];
    forall i | 0 < i <= k + 1
      ensures LogAt(more, states, market, i)
    {
      SameTrades(nodes, more, i - 1);
      assert i <= k ==> LogAt(nodes, stocks, market, i);
    }
    SameTrades(nodes, more, k);
    OneMore(more, market, k + 1);
  }

  /** What a trade books: as much of the need as the outcome says was given (for electronics and housing it is
      subtracted), less what it says was taken of the good the entry offered, and nothing else. */
  ghost predicate Booked(s: Stock, t: Stock, need: Good, offer: Good, o: Outcome)
    requires o.Settled?
  {
    forall g :: AmountOf(t, g) == AmountOf(s, g)
      + (if g != need then 0 else if need == Electronics || need == Housing then -o.given else o.given)
      - (if g == offer then o.taken else 0)
  }

  lemma AssignedBooks(s: Stock, need: Good, offer: Good, o: Outcome)
    requires o.Settled? && !Waste(need) && !Waste(offer)
    ensures Booked(s, Assigned(s, need, o.given, offer, o.taken), need, offer, o)
  {
  }

  /** The trades of a plan are booked on the outcomes in turn: the one after n others on the outcome n, with the
      good the entry offered, whether it was for a need or of a surplus. */
  lemma TradeBooked(nodes: map<int, Node>, stocks: map<int, Stock>, market: seq<Outcome>, k: int, j: int)
    requires Logged(nodes, stocks, market, k) && 0 < j <= k && IsTrade(nodes[j].text)
    ensures var s, need, n := stocks[j - 1], nodes[j].text.need, TradesUpTo(nodes, j - 1);
      && n < |market| && market[n].Settled?
      && exists offer :: Booked(s, stocks[j], need, offer, market[n]) &&
           if nodes[j].text.Traded? then OfferFor(s, need, offer)
           else Spared(s, 8) != [] && offer == Spared(s, 8)[market[n].which % |Spared(s, 8)|]
  {
    hide StatusOf, Assigned, OfferFor, Booked, Surplus, Lowest, TradesUpTo, Spared;
    var s, need, n := stocks[j - 1], nodes[j].text.need, TradesUpTo(nodes, j - 1);
    assert LogAt(nodes, stocks, market, j);
    var o := market[n];
    if nodes[j].text.Traded? {
      var offer :| OfferFor(s, need, offer) && stocks[j] == Assigned(s, need, o.given, offer, o.taken);
      OneOffer(s, need, offer, offer);
      AssignedBooks(s, need, offer, o);
    } else {
      var offer := Spared(s, 8)[o.which % |Spared(s, 8)|];
      SparedAre(s, 8);
      assert offer in Spared(s, 8);
      AssignedBooks(s, need, offer, o);
    }
  }

  lemma FollowsOnce(s: Stock, a: Node, t: Stock, b: Node, u: Stock, market: seq<Outcome>)
    requires Follows(s, a, t, market) && Follows(s, b, u, market)
    ensures a == b && t == u
  {
    hide StatusOf, Assigned, OfferFor;
    if Decide(s).Ask? && !NoneTakes(market) {
      var need, o := Decide(s).need, market[0];
      var g :| OfferFor(s, need, g) && t == Assigned(s, need, o.given, g, o.taken);
      var h :| OfferFor(s, need, h) && u == Assigned(s, need, o.given, h, o.taken);
      OneOffer(s, need, g, h);
    } else if a.text.TradedSurplus? {
      PositionsDiffer(a.text.need, b.text.need);
    }
  }

  /** A plan is determined by the stock it starts from and by how its trades end. */
  lemma {:induction false} PlanDetermined(nodes: map<int, Node>, stocks: map<int, Stock>, others: map<int, Node>,
      otherStocks: map<int, Stock>, market: seq<Outcome>, k: int, n: int, j: int)
    requires Logged(nodes, stocks, market, k) && Logged(others, otherStocks, market, n) && stocks[0] == otherStocks[0]
    requires 0 <= j <= k && j <= n
    ensures forall i :: 0 <= i <= j ==> nodes[i] == others[i] && stocks[i] == otherStocks[i]
    decreases j
  {
    hide StatusOf, Follows, TradesUpTo;
    if j > 0 {
      assert LogAt(nodes, stocks, market, j) && LogAt(others, otherStocks, market, j);
      PlanDetermined(nodes, stocks, others, otherStocks, market, k, n, j - 1);
      SameTrades(nodes, others, j - 1);
      FollowsOnce(stocks[j - 1], nodes[j], stocks[j], others[j], otherStocks[j], ToCome(nodes, market, j - 1));
    }
  }

  /** Between trades a plan conserves: population, metal, wood and waste balances stay what they were, and
      no amount drops below zero. */
  lemma {:induction false} PlanConserves(nodes: map<int, Node>, stocks: map<int, Stock>, market: seq<Outcome>, k: int,
      i: int, j: int)
    requires Logged(nodes, stocks, market, k) && 0 <= i <= j <= k
    requires forall m :: i < m <= j ==> !IsTrade(nodes[m].text)
    ensures SameTotals(stocks[i], stocks[j]) && (NonNegative(stocks[i]) ==> NonNegative(stocks[j]))
    decreases j - i
  {
    hide Decide, StatusOf, Run, CanRun;
    if i < j {
      PlanConserves(nodes, stocks, market, k, i, j - 1);
      var s := stocks[j - 1];
      assert LogAt(nodes, stocks, market, j);
      DecidedFeasible(s);
      if Decide(s).Convert? {
        RunConserves(Times(Decide(s).step, Decide(s).times), s);
      }
    }
  }

  /** What each conversion in a plan achieves: after alloys no alloy is missing; after electronics everyone has
      one; after houses none is missing, and with sixteen people houses are not needed any more. */
  lemma PlanAchieves(nodes: map<int, Node>, stocks: map<int, Stock>, market: seq<Outcome>, k: int, j: int)
    requires Logged(nodes, stocks, market, k) && 0 < j <= k
    ensures var t := stocks[j];
            && nodes[j].status == StatusOf(t)
            && (nodes[j].text.AlloyRun? ==> AlloyDeficit(t) == 0)
            && (nodes[j].text.ElectronicsRun? ==> !ElectronicsNeeded(t))
            && (nodes[j].text.HousingRun? && stocks[j - 1].housing >= 0 ==>
                HouseDeficit(t) == 0 && (t.population >= 16 ==> !HousesNeeded(t)))
  {
    var s := stocks[j - 1];
    assert LogAt(nodes, stocks, market, j);
    match Decide(s) {
      case Convert(MakeAlloy, _, _) => AlloysAffordable(s);
      case Convert(BuildHouse, n, _) =>
        HousesAffordable(s);
        RunConserves(Times(BuildHouse, n), s);
      case Convert(MakeElectronics, _, _) => ElectronicsAffordable(s);
      case _ =>
    }
  }

  /** A plan that decides on building no house at all does nothing else any more. */
  lemma {:induction false} PlanStandsStill(nodes: map<int, Node>, stocks: map<int, Stock>, market: seq<Outcome>,
      k: int, i: int, j: int)
    requires Logged(nodes, stocks, market, k) && 0 <= i < j <= k
    requires Decide(stocks[i]) == Convert(BuildHouse, 0, HousingRun(0))
    ensures stocks[j] == stocks[i] && nodes[j].text == HousingRun(0)
    decreases j
  {
    hide Decide, StatusOf;
    if i < j - 1 {
      PlanStandsStill(nodes, stocks, market, k, i, j - 1);
    }
    assert LogAt(nodes, stocks, market, j);
  }

  /** When that is: houses count as needed, as many stand as rounding down asks for, and the rest is there. */
  lemma WhenPlanStandsStill(s: Stock)
    requires NonNegative(s)
    ensures Decide(s) == Convert(BuildHouse, 0, HousingRun(0)) <==>
      !PopulationNeeded(s) && s.housing == s.population / 4 && s.population % 4 >= s.population / 4
  {
  }
}
