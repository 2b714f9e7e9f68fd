/** A country: its resources, its status, and the search that plans its next moves (Hermes/Country). The status is
    worked out part by part as the source does, and proved to be the declarative account of `Needs`; the search is
    recursive and keeps its map of nodes as it goes. */
module Countries {
  import opened Transforms
  import opened Needs
  import opened PlanLog
  import opened TradeEntries

  /** The map and the counter a search carries along, and how often a transform has failed. The stock at each
      node is kept beside the map, and how the trades of the search end. */
  class Search {
    var nodes: map<int, Node>
    var count: int
    var failures: nat
    ghost var stocks: map<int, Stock>
    ghost const market: seq<Outcome>

    constructor (ghost market: seq<Outcome>)
      ensures nodes == map[] && count == 0 && failures == 0 && stocks == map[] && this.market == market
    {
      nodes, count, failures, stocks, this.market := map[], 0, 0, map[], market;
    }

    /** The error message after a transform that failed. */
    method Report(done: bool)
      modifies this`failures
      ensures failures == old(failures) + if done then 0 else 1
    {
      if !done {
        failures := failures + 1;
      }
    }

    /** The initial node. */
    method Begin(node: Node, ghost s: Stock)
      requires count == 0 && nodes == map[] && stocks == map[] && node == Node(StatusOf(s), Initial)
      modifies this`nodes, this`stocks
      ensures Logged(nodes, stocks, market, 0) && stocks[0] == s && ToCome(nodes, market, 0) == market
    {
      nodes := map[0 := node];
      stocks := map[0 := s];
    }

    /** map.put at the counter. */
    method Put(node: Node, ghost s: Stock)
      requires Logged(nodes, stocks, market, count - 1)
      requires Follows(stocks[count - 1], node, s, ToCome(nodes, market, count - 1))
      modifies this`nodes, this`stocks
      ensures nodes == old(nodes)[count := node] && stocks == old(stocks)[count := s]
      ensures Logged(nodes, stocks, market, count)
      ensures var left := old(ToCome(nodes, market, count - 1));
        ToCome(nodes, market, count) == if IsTrade(node.text) then Rest(left, 1) else left
    {
      LogExtends(nodes, stocks, market, count - 1, node, s);
      nodes := nodes[count := node];
      stocks := stocks[count := s];
    }
  }

  class Country {
    const name: string
    const depth: int
    const frontier: int
    const population: Resource
    const elements: Resource
    const timber: Resource
    const alloys: Resource
    const waste: Resource
    const electronics: Resource
    const housing: Resource
    const housingWaste: Resource

    constructor (name: string, depth: int, frontier: int, s: Stock)
      ensures this.name == name && this.depth == depth && this.frontier == frontier
      ensures Valid() && fresh(Repr()) && Amounts() == s
    {
      this.name, this.depth, this.frontier := name, depth, frontier;
      population := new Resource(Population, s.population);
      elements := new Resource(Elements, s.elements);
      timber := new Resource(Timber, s.timber);
      alloys := new Resource(Alloys, s.alloys);
      waste := new Resource(AlloysWaste, s.waste);
      electronics := new Resource(Electronics, s.electronics);
      housing := new Resource(Housing, s.housing);
      housingWaste := new Resource(HousingWaste, s.housingWaste);
    }

    ghost function Repr(): set<Resource> {
      {population, elements, timber, alloys, waste, electronics, housing, housingWaste}
    }

    /** Eight different objects, each with its name. */
    ghost predicate Valid() {
      && population.name == Population && elements.name == Elements && timber.name == Timber && alloys.name == Alloys
      && waste.name == AlloysWaste && electronics.name == Electronics && housing.name == Housing
      && housingWaste.name == HousingWaste
    }

    ghost function Amounts(): Stock
      reads Repr()
    {
      Stock(population.amount, elements.amount, timber.amount, alloys.amount, waste.amount,
            electronics.amount, housing.amount, housingWaste.amount)
    }

    /** The parts of CalculateStatus, one for each good: whether there is a need, the deficit, the surplus. */
    method PopulationPart() returns (need: bool, deficit: int, surplus: int)
      ensures need == PopulationNeeded(Amounts()) && deficit == PopulationDeficit(Amounts())
      ensures surplus == PopulationSurplus(Amounts())
    {
      need, deficit, surplus := false, 0, 0;
      if population.amount < 5 || population.amount < housing.amount {
        if population.amount < 5 {
          deficit := 5 - population.amount;
        } else {
          deficit := housing.amount - population.amount;
        }
        need := true;
      } else {
        surplus := population.amount - housing.amount;
      }
    }

    method HousingPart() returns (need: bool, deficit: int, surplus: int)
      ensures need == HousesNeeded(Amounts()) && deficit == HouseDeficit(Amounts())
      ensures surplus == HousingSurplus(Amounts())
    {
      need, deficit, surplus := false, 0, 0;
      if housing.amount < 1 {
        if population.amount > 1 {
          deficit := Quot(population.amount, 4);
          need := true;
        }
      } else if Quot(population.amount, housing.amount) > 4 {
        QuotAbove(population.amount, housing.amount, 4);
        deficit := Quot(population.amount, 4);
        deficit := deficit - housing.amount;
        need := true;
      } else {
        QuotAbove(population.amount, housing.amount, 4);
        if housing.amount > population.amount {
          surplus := housing.amount - population.amount;
        }
      }
    }

    method ElectronicsPart() returns (need: bool, deficit: int, surplus: int)
      ensures need == ElectronicsNeeded(Amounts()) && deficit == ElectronicsDeficit(Amounts())
      ensures surplus == ElectronicsSurplus(Amounts())
    {
      need, deficit, surplus := false, 0, 0;
      if population.amount < 1 {
        if electronics.amount > 0 {
          surplus := electronics.amount;
        }
      } else if Quot(electronics.amount, population.amount) < 1 {
        QuotAbove(electronics.amount, population.amount, 0);
        deficit := population.amount * 2;
        deficit := deficit - electronics.amount;
        need := true;
      } else {
        QuotAbove(electronics.amount, population.amount, 0);
        if population.amount * 2 < electronics.amount {
          surplus := electronics.amount - population.amount * 2;
        }
      }
    }

    /** Alloys: houses come first. */
    method AlloyPart(houses: bool, houseDeficit: int, wanted: bool, electronicsDeficit: int)
      returns (need: bool, deficit: int, surplus: int)
      requires houses == HousesNeeded(Amounts()) && houseDeficit == HouseDeficit(Amounts())
      requires wanted == ElectronicsNeeded(Amounts()) && electronicsDeficit == ElectronicsDeficit(Amounts())
      ensures need == (AlloyDeficit(Amounts()) > 0) && deficit == AlloyDeficit(Amounts())
      ensures surplus == AlloySurplus(Amounts())
    {
      need, deficit, surplus := false, 0, 0;
      if houses {
        if houseDeficit * 3 > alloys.amount {
          deficit := houseDeficit * 3;
          deficit := deficit - alloys.amount;
          need := true;
        }
      } else if wanted && deficit == 0 {
        if electronicsDeficit * 2 > alloys.amount {
          deficit := electronicsDeficit * 2;
          deficit := deficit - alloys.amount;
          need := true;
        }
      } else {
        surplus := Quot(alloys.amount, 2);
      }
    }

    method ElementPart(short: bool, alloyDeficit: int, houses: bool, houseDeficit: int, wanted: bool,
        electronicsDeficit: int)
      returns (need: bool, deficit: int, surplus: int)
      requires short == (AlloyDeficit(Amounts()) > 0) && alloyDeficit == AlloyDeficit(Amounts())
      requires houses == HousesNeeded(Amounts()) && houseDeficit == HouseDeficit(Amounts())
      requires wanted == ElectronicsNeeded(Amounts()) && electronicsDeficit == ElectronicsDeficit(Amounts())
      ensures need == (ElementDeficit(Amounts()) > 0) && deficit == ElementDeficit(Amounts())
      ensures surplus == ElementSurplus(Amounts())
    {
      need, deficit, surplus := false, 0, 0;
      if short {
        if alloyDeficit * 2 > elements.amount {
          deficit := alloyDeficit * 2 - elements.amount;
          need := true;
        }
      } else if houses && deficit == 0 {
        if houseDeficit > elements.amount {
          deficit := houseDeficit - elements.amount;
          need := true;
        }
      } else if wanted && deficit == 0 {
        if electronicsDeficit * 3 > elements.amount {
          deficit := electronicsDeficit * 3 - elements.amount;
          need := true;
        }
      } else {
        surplus := Quot(elements.amount, 2);
      }
    }

    method TimberPart(houses: bool, houseDeficit: int) returns (need: bool, deficit: int, surplus: int)
      requires houses == HousesNeeded(Amounts()) && houseDeficit == HouseDeficit(Amounts())
      ensures need == (TimberDeficit(Amounts()) > 0) && deficit == TimberDeficit(Amounts())
      ensures surplus == TimberSurplus(Amounts())
    {
      need, deficit, surplus := false, 0, 0;
      if houses {
        if houseDeficit * 5 > timber.amount {
          deficit := houseDeficit * 5 - timber.amount;
          need := true;
        } else {
          surplus := Quot(timber.amount, 2);
        }
      } else {
        surplus := Quot(timber.amount, 2);
      }
    }

    method WastePart(waste: int, good: int) returns (over: bool, under: int, surplus: int)
      ensures over == (waste - good > 1) && under == WasteUnder(waste, good) && surplus == WasteOver(waste, good)
    {
      over, under, surplus := false, 0, 0;
      if waste - good > 1 {
        over := true;
        surplus := waste - good;
      } else {
        under := good - waste;
      }
    }

    /** CalculateStatus. */
    method CalculateStatus() returns (status: Status)
      ensures status == StatusOf(Amounts())
    {
      hide HousesNeeded, HouseDeficit, ElectronicsNeeded, ElectronicsDeficit, AlloyDeficit, ElementDeficit,
           TimberDeficit, PopulationNeeded, PopulationDeficit, ElectronicsSurplus, HousingSurplus,
           PopulationSurplus, AlloySurplus, ElementSurplus, TimberSurplus;
      var n0, d0, s0 := PopulationPart();
      var n6, d6, s6 := HousingPart();
      var n5, d5, s5 := ElectronicsPart();
      var n3, d3, s3 := AlloyPart(n6, d6, n5, d5);
      var n1, d1, s1 := ElementPart(n3, d3, n6, d6, n5, d5);
      var n2, d2, s2 := TimberPart(n6, d6);
      var n7, d7, s7 := WastePart(housingWaste.amount, housing.amount);
      var n4, d4, s4 := WastePart(waste.amount, alloys.amount);
      return Status([n0, n1, n2, n3, n4, n5, n6, n7], [d0, d1, d2, d3, d4, d5, d6, d7],
          [s0, s1, s2, s3, s4, s5, s6, s7]);
    }

    /** Repeats a transform; a failure is reported and the loop goes on. */
    method Repeat(step: Step, n: int, search: Search)
      requires Valid() && CanRun(Times(step, Natural(n)), Amounts())
      modifies elements, timber, alloys, waste, electronics, housing, housingWaste, search`failures
      ensures Amounts() == Run(Times(step, Natural(n)), old(Amounts())) && search.failures == old(search.failures)
    {
      hide CanRun, Run, Times;
      var i := 0;
      ghost var m := Natural(n);
      RepeatEnds(step, Amounts());
      while i < n
        invariant 0 <= i <= m && search.failures == old(search.failures)
        invariant CanRun(Times(step, m - i), Amounts())
        invariant Run(Times(step, m - i), Amounts()) == Run(Times(step, m), old(Amounts()))
        decreases n - i
      {
        RepeatUnfolds(step, m - i, Amounts());
        var done;
        match step {
          case MakeAlloy => done := AlloyTransform(population, elements, alloys, waste);
          case MakeElectronics => done := ElectronicsTransform(population, elements, alloys, electronics, waste);
          case BuildHouse => done := HousingTransform(population, elements, timber, alloys, housing, housingWaste);
        }
        search.Report(done);
        i := i + 1;
      }
      RepeatEnds(step, Amounts());
    }

    /** What was needed comes in; wastes are an error. */
    method AssignNeed(need: Good, given: int) returns (valid: bool)
      requires Valid()
      modifies Repr()
      ensures valid == !Waste(need)
      ensures Amounts() == if Waste(need) then old(Amounts()) else Incoming(old(Amounts()), need, given)
    {
      match need {
        case Population => population.amount := population.amount + given;
        case Elements => elements.amount := elements.amount + given;
        case Timber => timber.amount := timber.amount + given;
        case Alloys => alloys.amount := alloys.amount + given;
        case Electronics => electronics.amount := electronics.amount - given;
        case Housing => housing.amount := housing.amount - given;
        case _ => return false;
      }
      return true;
    }

    /** What was offered goes out. */
    method AssignOffer(offer: Good, taken: int)
      requires Valid()
      modifies Repr()
      ensures Amounts() == if Waste(offer) then old(Amounts()) else Outgoing(old(Amounts()), offer, taken)
    {
      match offer {
        case Population => population.amount := population.amount - taken;
        case Elements => elements.amount := elements.amount - taken;
        case Timber => timber.amount := timber.amount - taken;
        case Alloys => alloys.amount := alloys.amount - taken;
        case Electronics => electronics.amount := electronics.amount - taken;
        case Housing => housing.amount := housing.amount - taken;
        case _ => return;
      }
    }

    /** AssignNewValues. */
    method AssignNewValues(entry: Entry)
      requires Valid()
      modifies Repr()
      ensures Amounts() == Assigned(old(Amounts()), entry.need, entry.GetGiven(), entry.offer, entry.GetTaken())
    {
      hide Incoming, Outgoing;
      var valid := AssignNeed(entry.need, entry.GetGiven());
      if valid {
        AssignOffer(entry.offer, entry.GetTaken());
      }
    }

    /** GetHighestSurplusPosition: the first place with the highest surplus above zero, wastes aside; -1 when
        there is none. */
    method GetHighestSurplusPosition(status: Status) returns (pos: int)
      requires |status.surplus| == 8
      ensures pos == -1 ==> forall k :: 0 <= k < 8 && k != 4 && k != 7 ==> status.surplus[k] <= 0
      ensures pos != -1 ==>
        && 0 <= pos < 8 && pos != 4 && pos != 7 && status.surplus[pos] > 0
        && (forall k :: 0 <= k < 8 && k != 4 && k != 7 ==> status.surplus[k] <= status.surplus[pos])
        && (forall k :: 0 <= k < pos && k != 4 ==> status.surplus[k] < status.surplus[pos])
    {
      pos := -1;
      var surplus, count := 0, 0;
      while count < 8
        invariant 0 <= count <= 8 && surplus >= 0
        invariant pos == -1 ==> surplus == 0
        invariant pos != -1 ==> 0 <= pos < count && pos != 4 && pos != 7 && status.surplus[pos] == surplus > 0
        invariant forall k :: 0 <= k < count && k != 4 && k != 7 ==> status.surplus[k] <= surplus
        invariant pos != -1 ==> forall k :: 0 <= k < pos && k != 4 ==> status.surplus[k] < surplus
      {
        if count == 4 || count == 7 {
          count := count + 1;
          continue;
        }
        if status.surplus[count] > surplus {
          surplus := status.surplus[count];
          pos := count;
        }
        count := count + 1;
      }
    }

    /** The resources the two searches by amount look at. */
    function Counted(): seq<Resource> {
      [population, elements, timber, alloys, electronics]
    }

    /** GetHighestResourcePosition: place of the first highest amount above zero among those not of this name;
        zero when there is none. */
    method GetHighestResourcePosition(name: Good) returns (pos: nat)
      requires Valid()
      ensures pos < 8 && (MostHeld(Amounts(), name, GOODS[pos]) || (pos == 0 && NothingHeld(Amounts(), name)))
    {
      pos := 0;
      var highest, i := 0, 0;
      ghost var best := 0;
      var list := Counted();
      while i < |list|
        invariant 0 <= i <= |list| && highest >= 0 && pos < 8 && 0 <= best < |list|
        invariant highest == 0 ==> pos == 0
        invariant highest > 0 ==>
          best < i && list[best].name != name && list[best].amount == highest && pos == Position(list[best].name)
        invariant forall k :: 0 <= k < i && list[k].name != name ==> list[k].amount <= highest
        invariant highest > 0 ==> forall k :: 0 <= k < best && list[k].name != name ==> list[k].amount < highest
      {
        if list[i].amount > highest && name != list[i].name {
          highest, best := list[i].amount, i;
          pos := Position(list[i].name);
        }
        i := i + 1;
      }
      PlacesCounted();
      if highest > 0 {
        HighestHeld(name, best);
      } else {
        NothingHighest(name);
      }
    }

    /** The resources looked at are the counted goods of the stock, in the order of the lists. */
    lemma PlacesCounted()
      requires Valid()
      ensures |Counted()| == |COUNTED| == 5
      ensures forall k :: 0 <= k < 5 ==>
        Counted()[k].name == COUNTED[k] && Counted()[k].amount == AmountOf(Amounts(), COUNTED[k])
      ensures forall j, k :: 0 <= j < k < 5 ==> Position(COUNTED[j]) < Position(COUNTED[k])
    {
    }

    lemma HighestHeld(name: Good, best: nat)
      requires Valid() && best < 5 && Counted()[best].name != name && Counted()[best].amount > 0
      requires forall k :: 0 <= k < 5 && Counted()[k].name != name ==> Counted()[k].amount <= Counted()[best].amount
      requires forall k :: 0 <= k < best && Counted()[k].name != name ==> Counted()[k].amount < Counted()[best].amount
      ensures MostHeld(Amounts(), name, GOODS[Position(Counted()[best].name)])
    {
      hide Counted, Amounts, AmountOf;
      PlacesCounted();
      var g := COUNTED[best];
      PositionsDiffer(g, g);
      forall h | h in COUNTED && h != name
        ensures AmountOf(Amounts(), h) <= AmountOf(Amounts(), g)
        ensures Position(h) < Position(g) ==> AmountOf(Amounts(), h) < AmountOf(Amounts(), g)
      {
        var k :| 0 <= k < 5 && COUNTED[k] == h;
        assert Counted()[k].name == h;
      }
    }

    lemma NothingHighest(name: Good)
      requires Valid() && forall k :: 0 <= k < 5 && Counted()[k].name != name ==> Counted()[k].amount <= 0
      ensures NothingHeld(Amounts(), name)
    {
      hide Counted, Amounts, AmountOf;
      PlacesCounted();
    }

    /** GetLowestResource: the first resource with the lowest amount, as far as there are no negative ones. */
    method GetLowestResource() returns (r: Resource)
      requires Valid()
      ensures AskedFor(Amounts(), r.name) && r in Counted()
    {
      var lowest, i := -1, 0;
      ghost var w := 0;
      var list := Counted();
      ghost var amounts := CountedAmounts(Amounts());
      PlacesCounted();
      assert forall k :: 0 <= k < 5 ==> amounts[k] == list[k].amount;
      while i < |list|
        invariant 0 <= i <= |list|
        invariant if i == 0 then lowest == -1 else 0 <= w < i && list[w].amount == lowest
        invariant lowest == Lowest(amounts[..i])
      {
        assert amounts[..i + 1][..i] == amounts[..i];
        if lowest < 0 {
          lowest, w := list[i].amount, i;
        } else if list[i].amount < lowest {
          lowest, w := list[i].amount, i;
        }
        i := i + 1;
      }
      assert amounts[..i] == amounts;
      i := 0;
      while list[i].amount != lowest
        invariant 0 <= i <= w < |list| && list[w].amount == lowest
        invariant forall k :: 0 <= k < i ==> list[k].amount != lowest
        decreases |list| - i
      {
        i := i + 1;
      }
      LowestFound(i);
      return list[i];
    }

    lemma LowestFound(i: nat)
      requires Valid() && i < 5 && Counted()[i].amount == Lowest(CountedAmounts(Amounts()))
      requires forall k :: 0 <= k < i ==> Counted()[k].amount != Counted()[i].amount
      ensures AskedFor(Amounts(), Counted()[i].name)
    {
      hide Counted, Amounts, AmountOf, Lowest;
      PlacesCounted();
      forall h | h in COUNTED && Position(h) < Position(COUNTED[i])
        ensures AmountOf(Amounts(), h) != Counted()[i].amount
      {
        var k :| 0 <= k < 5 && COUNTED[k] == h;
        assert k < i;
      }
    }

    /** The entry for a need: the largest surplus is offered, or else the largest resource, and no more of it
        than is needed. */
    method MakeOffer(need: Good, amount: int, state: Status) returns (entry: Entry)
      requires Valid() && state == StatusOf(Amounts())
      ensures fresh(entry) && entry.Open() && entry.country == name && !entry.isSurplus
      ensures entry.need == need && entry.needed == amount && OfferFor(Amounts(), need, entry.offer)
      ensures entry.offered <= amount && entry.offered <= Surplus(Amounts(), entry.offer)
      ensures entry.offered == amount || entry.offered == Surplus(Amounts(), entry.offer)
      ensures NonNegative(Amounts()) && amount >= 0 ==> 0 <= entry.offered <= AmountOf(Amounts(), entry.offer)
    {
      hide StatusOf;
      StatusLengths(Amounts());
      var s := GetHighestSurplusPosition(state);
      SurplusAtPlaces(Amounts(), s);
      if s < 0 {
        s := GetHighestResourcePosition(need);
      }
      PlaceOf(s);
      var offered;
      if amount > state.surplus[s] {
        offered := state.surplus[s];
      } else {
        offered := amount;
      }
      if NonNegative(Amounts()) {
        SurplusCovered(Amounts(), GOODS[s]);
      }
      entry := new Entry(name, GOODS[s], offered, need, amount, false);
    }

    /** The entries for everything that can be spared, asking for what there is least of. */
    method MakeSurplusOffers(state: Status) returns (trades: seq<Entry>, need: Good)
      requires Valid() && state == StatusOf(Amounts())
      ensures fresh(trades) && forall e :: e in trades ==>
          e.Open() && e.isSurplus && e.country == name && e.need == need
      ensures forall e :: e in trades ==>
        !Waste(e.offer) && e.needed == e.offered == state.surplus[Position(e.offer)] > 0
      ensures AskedFor(Amounts(), need) && |trades| == |Spared(Amounts(), 8)|
      ensures forall i :: 0 <= i < |trades| ==> trades[i].offer == Spared(Amounts(), 8)[i]
    {
      hide StatusOf, Lowest, Position;
      StatusLengths(Amounts());
      var lowest := GetLowestResource();
      trades, need := [], lowest.name;
      var c := 0;
      while c < 8
        invariant 0 <= c <= 8
        invariant fresh(trades) && forall e :: e in trades ==>
            e.Open() && e.isSurplus && e.country == name && e.need == need
        invariant forall e :: e in trades ==>
          !Waste(e.offer) && e.needed == e.offered == state.surplus[Position(e.offer)] > 0
        invariant |trades| == |Spared(Amounts(), c)|
        invariant forall i :: 0 <= i < |trades| ==> trades[i].offer == Spared(Amounts(), c)[i]
      {
        PlaceOf(c);
        WastePlaces(c);
        if c == 4 || c == 7 {
          c := c + 1;
          continue;
        }
        if state.surplus[c] > 0 {
          var e := new Entry(name, GOODS[c], state.surplus[c], need, state.surplus[c], true);
          trades := trades + [e];
        }
        c := c + 1;
      }
    }

    /** The log has got to node c, and its stock is that of the resources as they are. */
    ghost predicate AtNode(search: Search, c: int)
      reads Repr(), search
    {
      Valid() && Logged(search.nodes, search.stocks, search.market, c) && search.stocks[c] == Amounts()
    }

    /** The outcomes still to come. */
    ghost predicate Awaits(search: Search, c: int, market: seq<Outcome>)
      reads search
    {
      ToCome(search.nodes, search.market, c) == market
    }

    /** Another node fits into both limits. */
    predicate Within(n: int) {
      n <= depth && n <= frontier
    }

    /** What a search from node c gives: a log that goes on to `last`, as far as the limits allow or to a node that ends
        it, with what was there before, and no failed transform. */
    twostate predicate Searched(search: Search, c: int, last: int)
      reads Repr(), search
    {
      && AtNode(search, last) && c <= last && (last > c ==> Within(last))
      && (Within(last + 1) ==> Ended(search.nodes[last]))
      && search.failures == old(search.failures)
      && Kept(old(search.nodes), search.nodes, c) && Kept(old(search.stocks), search.stocks, c)
    }

    /** A new node, and the search from there. */
    method GoOn(search: Search, text: Action, market: seq<Outcome>, ghost s: Stock) returns (ghost last: int)
      requires Valid() && Logged(search.nodes, search.stocks, search.market, search.count - 1)
      requires s == search.stocks[search.count - 1] && Within(search.count)
      requires var left := ToCome(search.nodes, search.market, search.count - 1);
        && Follows(s, Node(StatusOf(Amounts()), text), Amounts(), left)
        && market == if IsTrade(text) then Rest(left, 1) else left
      modifies Repr(), search
      ensures Searched(search, old(search.count) - 1, last)
      decreases depth - search.count, 2
    {
      hide Logged, Follows, StatusOf, ToCome;
      var state := CalculateStatus();
      ghost var c, nodes, stocks := search.count, search.nodes, search.stocks;
      search.Put(Node(state, text), Amounts());
      ghost var nodes1, stocks1 := search.nodes, search.stocks;
      last := GenerateNode(search, state, market);
      KeptBoth(nodes, nodes1, search.nodes, c);
      KeptBoth(stocks, stocks1, search.stocks, c);
    }

    /** A conversion, its node, and the search from there. */
    method ConvertAndGoOn(search: Search, step: Step, n: int, text: Action, market: seq<Outcome>)
        returns (ghost last: int)
      requires AtNode(search, search.count - 1) && Decide(Amounts()) == Convert(step, Natural(n), text)
          && Within(search.count) && Awaits(search, search.count - 1, market)
      modifies Repr(), search
      ensures Searched(search, old(search.count) - 1, last)
      decreases depth - search.count, 3
    {
      hide Logged, StatusOf, Decide, ToCome;
      ghost var s := Amounts();
      DecidedFeasible(s);
      DecidedText(s);
      Repeat(step, n, search);
      last := GoOn(search, text, market, s);
    }

    /** The trade for a need, its node, and, if it came to anything, the search from there. */
    method TradeAndGoOn(search: Search, state: Status, need: Good, amount: int, market: seq<Outcome>)
        returns (ghost last: int)
      requires AtNode(search, search.count - 1) && Decide(Amounts()) == Ask(need, amount) && Within(search.count)
      requires state == StatusOf(Amounts()) && Awaits(search, search.count - 1, market)
      modifies Repr(), search
      ensures Searched(search, old(search.count) - 1, last)
      decreases depth - search.count, 3
    {
      hide Logged, StatusOf, Decide, ToCome, Assigned, OfferFor, Spared, SurplusTraded, Surplus;
      ghost var s := Amounts();
      var trade := MakeOffer(need, amount, state);
      if market == [] || market[0].NoTrade? {
        search.Put(Node(state, TradeFailed(need)), s);
        return search.count;
      }
      trade.SetGiven(market[0].given);
      trade.SetTaken(market[0].taken);
      AssignNewValues(trade);
      assert NeedTraded(s, Amounts(), need, market[0]);
      last := GoOn(search, Traded(need), market[1..], s);
    }

    /** The trades of what can be spared, and, if one came to anything, its node and the search from there. */
    method TradeSurplusAndGoOn(search: Search, state: Status, trades: seq<Entry>, need: Good, market: seq<Outcome>)
      returns (ghost last: int)
      requires AtNode(search, search.count - 1) && Decide(Amounts()) == Spare && Within(search.count)
      requires state == StatusOf(Amounts()) && Awaits(search, search.count - 1, market) && AskedFor(Amounts(), need)
      requires trades != [] && forall e :: e in trades ==> e.Open() && e.need == need
      requires |trades| == |Spared(Amounts(), 8)|
      requires forall i :: 0 <= i < |trades| ==> trades[i].offer == Spared(Amounts(), 8)[i]
      modifies Repr(), search, trades
      ensures Searched(search, old(search.count) - 1, last)
      decreases depth - search.count, 3
    {
      hide Logged, StatusOf, Decide, ToCome, Assigned, AskedFor, Spared, NeedTraded;
      ghost var s := Amounts();
      if market == [] || market[0].NoTrade? {
        search.Put(Node(state, Optimal), s);
        return search.count;
      }
      var passed := trades[market[0].which % |trades|];
      passed.SetGiven(market[0].given);
      passed.SetTaken(market[0].taken);
      AssignNewValues(passed);
      assert SurplusTraded(s, Amounts(), need, market[0]);
      last := GoOn(search, TradedSurplus(need), market[1..], s);
    }

    /** GenerateNode. */
    method GenerateNode(search: Search, state: Status, market: seq<Outcome>) returns (ghost last: int)
      requires AtNode(search, search.count) && state == StatusOf(Amounts()) && Awaits(search, search.count, market)
      modifies Repr(), search
      ensures Searched(search, old(search.count), last)
      decreases depth - search.count, 1
    {
      hide Logged, StatusOf, ToCome;
      StatusDecides(Amounts());
      last := search.count;
      search.count := search.count + 1;
      if frontier < search.count || depth < search.count {
        return;
      }
      var found, need, amount := false, Population, 0;
      if state.needs[0] {
        found, need, amount := true, Population, state.deficits[0];
      } else if state.needs[6] && !found {
        if state.needs[1] {
          found, need, amount := true, Elements, state.deficits[1];
        } else if state.needs[3] && !found {
          last := ConvertAndGoOn(search, MakeAlloy, state.deficits[3], AlloyRun(state.deficits[3]), market);
          return;
        } else if state.needs[2] && !found {
          found, need, amount := true, Timber, state.deficits[2];
        } else {
          last := ConvertAndGoOn(search, BuildHouse, state.deficits[6], HousingRun(state.deficits[6]), market);
          return;
        }
      } else if state.needs[5] && !found {
        if state.needs[1] && !found {
          found, need, amount := true, Elements, state.deficits[1];
        } else if state.needs[3] && !found {
          last := ConvertAndGoOn(search, MakeAlloy, state.deficits[3], AlloyRun(state.deficits[3]), market);
          return;
        } else {
          last := ConvertAndGoOn(search, MakeElectronics, Quot(state.deficits[5], 2),
              ElectronicsRun(state.deficits[5]), market);
          return;
        }
      }
      if found {
        last := TradeAndGoOn(search, state, need, amount, market);
        return;
      }
      last := SpareAndGoOn(search, state, market);
    }

    /** With nothing needed, what can be spared is offered. */
    method SpareAndGoOn(search: Search, state: Status, market: seq<Outcome>) returns (ghost last: int)
      requires AtNode(search, search.count - 1) && Decide(Amounts()) == Spare && Within(search.count)
      requires state == StatusOf(Amounts()) && Awaits(search, search.count - 1, market)
      modifies Repr(), search
      ensures Searched(search, old(search.count) - 1, last)
      decreases depth - search.count, 4
    {
      hide Logged, StatusOf, Decide, ToCome, Spared, NothingSpare, MostSpare, AskedFor;
      StatusLengths(Amounts());
      var highest := GetHighestSurplusPosition(state);
      SurplusAtPlaces(Amounts(), highest);
      SomethingSpared(Amounts());
      if highest > -1 {
        var trades, need := MakeSurplusOffers(state);
        if |trades| > 0 {
          last := TradeSurplusAndGoOn(search, state, trades, need, market);
          return;
        }
      }
      search.Put(Node(state, Optimal), Amounts());
      last := search.count;
    }

    /** One schedule of run(): the initial node, and the search from it. */
    method Plan(market: seq<Outcome>) returns (search: Search, ghost last: int)
      requires Valid() && depth >= 1 && frontier >= 1
      modifies Repr()
      ensures fresh(search) && AtNode(search, last) && search.stocks[0] == old(Amounts()) && search.market == market
      ensures last < depth && last < frontier ==> Ended(search.nodes[last])
      ensures 0 <= last <= depth && last <= frontier && search.failures == 0
    {
      hide StatusOf;
      search := new Search(market);
      var initial := CalculateStatus();
      search.Begin(Node(initial, Initial), Amounts());
      last := GenerateNode(search, initial, market);
    }
  }

  /** What the lists of a status say of the move decided on. */
  lemma StatusDecides(s: Stock)
    ensures var t := StatusOf(s);
            && |t.needs| == |t.deficits| == |t.surplus| == 8
            && Decide(s) ==
               if t.needs[0] then Ask(Population, t.deficits[0])
               else if t.needs[6] then
                 if t.needs[1] then Ask(Elements, t.deficits[1])
                 else if t.needs[3] then Convert(MakeAlloy, Natural(t.deficits[3]), AlloyRun(t.deficits[3]))
                 else if t.needs[2] then Ask(Timber, t.deficits[2])
                 else Convert(BuildHouse, Natural(t.deficits[6]), HousingRun(t.deficits[6]))
               else if t.needs[5] then
                 if t.needs[1] then Ask(Elements, t.deficits[1])
                 else if t.needs[3] then Convert(MakeAlloy, Natural(t.deficits[3]), AlloyRun(t.deficits[3]))
                 else Convert(MakeElectronics, Natural(Quot(t.deficits[5], 2)), ElectronicsRun(t.deficits[5]))
               else Spare
  {
    hide HousesNeeded, HouseDeficit, AlloyDeficit, ElementDeficit, TimberDeficit, PopulationNeeded, PopulationDeficit,
      ElectronicsSurplus, HousingSurplus, PopulationSurplus, AlloySurplus, ElementSurplus, TimberSurplus;
  }

  lemma KeptBoth<T(!new)>(a: map<int, T>, b: map<int, T>, c: map<int, T>, n: int)
    requires b.Keys >= {n} && b == a[n := b[n]] && Kept(b, c, n)
    ensures Kept(a, c, n - 1)
  {
    forall i | i in a && i <= n - 1
      ensures i in c && c[i] == a[i]
    {
      assert i in b && b[i] == a[i];
    }
  }

  ghost predicate Kept<T(!new)>(m: map<int, T>, n: map<int, T>, c: int) {
    forall i :: i in m && i <= c ==> i in n && n[i] == m[i]
  }

  /** What GetHighestSurplusPosition finds, in terms of the goods. */
  lemma SurplusAtPlaces(s: Stock, pos: int)
    requires |StatusOf(s).surplus| == 8
    requires pos == -1 ==> forall k :: 0 <= k < 8 && k != 4 && k != 7 ==> StatusOf(s).surplus[k] <= 0
    requires pos != -1 ==>
      && 0 <= pos < 8 && pos != 4 && pos != 7 && StatusOf(s).surplus[pos] > 0
      && (forall k :: 0 <= k < 8 && k != 4 && k != 7 ==> StatusOf(s).surplus[k] <= StatusOf(s).surplus[pos])
      && (forall k :: 0 <= k < pos && k != 4 ==> StatusOf(s).surplus[k] < StatusOf(s).surplus[pos])
    ensures if pos == -1 then NothingSpare(s) else MostSpare(s, GOODS[pos])
  {
    hide StatusOf;
    forall g
      ensures Position(g) == 4 || Position(g) == 7 <==> Waste(g)
    {
    }
    if pos != -1 {
      PlaceOf(pos);
    }
  }

  lemma DecidedText(s: Stock)
    ensures Decide(s).Convert? ==> !IsTrade(Decide(s).text)
  {
  }

  lemma SomethingSpared(s: Stock)
    ensures Spared(s, 8) == [] <==> NothingSpare(s)
    ensures forall g :: MostSpare(s, g) ==> Spared(s, 8) != []
  {
    hide Surplus;
    SparedAre(s, 8);
    if Spared(s, 8) != [] {
      assert Spared(s, 8)[0] in Spared(s, 8);
    }
  }

  lemma WastePlaces(c: nat)
    requires c < 8
    ensures Waste(GOODS[c]) <==> c == 4 || c == 7
  {
  }

  lemma StatusLengths(s: Stock)
    ensures |StatusOf(s).needs| == |StatusOf(s).deficits| == |StatusOf(s).surplus| == 8
  {
  }

  /** A surplus is never more than there is. */
  lemma SurplusCovered(s: Stock, g: Good)
    requires NonNegative(s)
    ensures 0 <= StatusOf(s).surplus[Position(g)] <= AmountOf(s, g)
  {
  }

  lemma RepeatUnfolds(step: Step, n: nat, s: Stock)
    requires n > 0 && CanRun(Times(step, n), s)
    ensures CanDo(step, s) && CanRun(Times(step, n - 1), Do(step, s))
    ensures Run(Times(step, n), s) == Run(Times(step, n - 1), Do(step, s))
  {
    assert Times(step, n)[0] == step && Times(step, n)[1..] == Times(step, n - 1);
  }

  lemma RepeatEnds(step: Step, s: Stock)
    ensures Run(Times(step, 0), s) == s
  {
  }
}
