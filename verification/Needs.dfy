/** How a country works out what it needs and what it can spare. */
module Needs {
  import opened Transforms

  /** Integer division of the source language: towards zero. */
  function Quot(a: int, b: int): int
    requires b > 0
  {
    if a >= 0 then a / b else -(-a / b)
  }

  /** A quotient is above a bound exactly when the dividend reaches the next multiple. */
  lemma QuotAbove(a: int, b: int, k: nat)
    requires b > 0
    ensures Quot(a, b) > k <==> a >= (k + 1) * b
  {
    if a >= 0 {
      var q := a / b;
      DivisionParts(a, b);
      if q > k {
        Multiply(k + 1, q, b);
      } else {
        Multiply(q + 1, k + 1, b);
      }
    } else {
      DivisionParts(-a, b);
      Multiply(0, k + 1, b);
    }
  }

  lemma DivisionParts(a: nat, b: int)
    requires b > 0
    ensures a / b >= 0 && a / b * b <= a < (a / b + 1) * b
  {
    assert a == a / b * b + a % b;
    assert (a / b + 1) * b == a / b * b + b;
  }

  lemma Multiply(x: int, y: int, b: int)
    requires x <= y && b > 0
    ensures x * b <= y * b
  {
    assert (y - x) * b >= 0;
    assert (y - x) * b == y * b - x * b;
  }

  /** The three lists of a Status, in the order of the goods. */
  datatype Status = Status(needs: seq<bool>, deficits: seq<int>, surplus: seq<int>)

  function Position(g: Good): (i: nat)
    ensures i < 8
  {
    match g
    case Population => 0
    case Elements => 1
    case Timber => 2
    case Alloys => 3
    case AlloysWaste => 4
    case Electronics => 5
    case Housing => 6
    case HousingWaste => 7
  }

  const GOODS: seq<Good> := [Population, Elements, Timber, Alloys, AlloysWaste, Electronics, Housing, HousingWaste]

  // ----- what is needed, good by good -----

  predicate PopulationNeeded(s: Stock) {
    s.population < 5 || s.population < s.housing
  }

  /** Fewer than one house for five people. */
  predicate HousesNeeded(s: Stock) {
    if s.housing < 1 then s.population > 1 else s.population >= 5 * s.housing
  }

  /** One house for four people is the goal, rounded down. */
  function HouseDeficit(s: Stock): int {
    if !HousesNeeded(s) then 0 else s.population / 4 - (if s.housing < 1 then 0 else s.housing)
  }

  /** Not everyone has one. */
  predicate ElectronicsNeeded(s: Stock) {
    1 <= s.population && s.electronics < s.population
  }

  /** Two for each is the goal. */
  function ElectronicsDeficit(s: Stock): int {
    if ElectronicsNeeded(s) then 2 * s.population - s.electronics else 0
  }

  function Short(required: int, stock: int): int {
    if required > stock then required - stock else 0
  }

  /** Three alloys for each house that is missing; failing that, two for each electronic. */
  function AlloyDeficit(s: Stock): int {
    if HousesNeeded(s) then Short(3 * HouseDeficit(s), s.alloys)
    else if ElectronicsNeeded(s) then Short(2 * ElectronicsDeficit(s), s.alloys)
    else 0
  }

  function ElementDeficit(s: Stock): int {
    if AlloyDeficit(s) > 0 then Short(2 * AlloyDeficit(s), s.elements)
    else if HousesNeeded(s) then Short(HouseDeficit(s), s.elements)
    else if ElectronicsNeeded(s) then Short(3 * ElectronicsDeficit(s), s.elements)
    else 0
  }

  function TimberDeficit(s: Stock): int {
    if HousesNeeded(s) then Short(5 * HouseDeficit(s), s.timber) else 0
  }

  function PopulationDeficit(s: Stock): int {
    if s.population < 5 then 5 - s.population else Short(s.housing, s.population)
  }

  // ----- what can be spared -----

  function ElectronicsSurplus(s: Stock): int {
    if s.population < 1 then Short(s.electronics, 0)
    else if ElectronicsNeeded(s) then 0
    else Short(s.electronics, 2 * s.population)
  }

  function WasteOver(waste: int, good: int): int {
    if waste - good > 1 then waste - good else 0
  }

  function WasteUnder(waste: int, good: int): int {
    if waste - good > 1 then 0 else good - waste
  }

  function PopulationSurplus(s: Stock): int {
    if PopulationNeeded(s) then 0 else s.population - s.housing
  }

  function ElementSurplus(s: Stock): int {
    if AlloyDeficit(s) > 0 || HousesNeeded(s) || ElectronicsNeeded(s) then 0 else Quot(s.elements, 2)
  }

  function TimberSurplus(s: Stock): int {
    if TimberDeficit(s) > 0 then 0 else Quot(s.timber, 2)
  }

  function AlloySurplus(s: Stock): int {
    if HousesNeeded(s) || ElectronicsNeeded(s) then 0 else Quot(s.alloys, 2)
  }

  function HousingSurplus(s: Stock): int {
    if s.housing < 1 || HousesNeeded(s) then 0 else Short(s.housing, s.population)
  }

  function StatusOf(s: Stock): Status {
    Status(
      [PopulationNeeded(s), ElementDeficit(s) > 0, TimberDeficit(s) > 0, AlloyDeficit(s) > 0,
       s.waste - s.alloys > 1, ElectronicsNeeded(s), HousesNeeded(s), s.housingWaste - s.housing > 1],
      [PopulationDeficit(s), ElementDeficit(s), TimberDeficit(s), AlloyDeficit(s),
       WasteUnder(s.waste, s.alloys), ElectronicsDeficit(s), HouseDeficit(s), WasteUnder(s.housingWaste, s.housing)],
      [PopulationSurplus(s), ElementSurplus(s), TimberSurplus(s), AlloySurplus(s),
       WasteOver(s.waste, s.alloys), ElectronicsSurplus(s), HousingSurplus(s), WasteOver(s.housingWaste, s.housing)])
  }

  // ----- what the deficits promise -----

  /** Making the missing alloys: when elements are not short, the stock pays for every one of them, and then
      none is missing and elements are still not short of anything for alloys. */
  lemma AlloysAffordable(s: Stock)
    requires !PopulationNeeded(s) && ElementDeficit(s) == 0 && AlloyDeficit(s) > 0
    ensures CanRun(Times(MakeAlloy, AlloyDeficit(s)), s)
    ensures AlloyDeficit(Run(Times(MakeAlloy, AlloyDeficit(s)), s)) == 0
  {
    var n := AlloyDeficit(s);
    RepeatAlloy(n, s);
  }

  lemma {:induction false} RepeatAlloy(n: nat, s: Stock)
    requires s.population >= 1 && s.elements >= 2 * n
    ensures CanRun(Times(MakeAlloy, n), s)
    ensures Run(Times(MakeAlloy, n), s)
        == s.(elements := s.elements - 2 * n, alloys := s.alloys + n, waste := s.waste + n)
  {
    if n > 0 {
      RepeatAlloy(n - 1, Do(MakeAlloy, s));
    }
  }

  lemma {:induction false} RepeatElectronics(n: nat, s: Stock)
    requires s.population >= 1 && s.elements >= 3 * n && s.alloys >= 2 * n
    ensures CanRun(Times(MakeElectronics, n), s)
    ensures Run(Times(MakeElectronics, n), s)
         == s.(elements := s.elements - 3 * n, alloys := s.alloys - 2 * n, electronics := s.electronics + 2 * n,
           waste := s.waste + n)
  {
    if n > 0 {
      RepeatElectronics(n - 1, Do(MakeElectronics, s));
    }
  }

  lemma {:induction false} RepeatHouse(n: nat, s: Stock)
    requires s.population >= 5 && s.elements >= n && s.timber >= 5 * n && s.alloys >= 3 * n
    ensures CanRun(Times(BuildHouse, n), s)
    ensures Run(Times(BuildHouse, n), s)
         == s.(elements := s.elements - n, timber := s.timber - 5 * n, alloys := s.alloys - 3 * n,
               housing := s.housing + n, housingWaste := s.housingWaste + n)
  {
    if n > 0 {
      RepeatHouse(n - 1, Do(BuildHouse, s));
    }
  }

  /** Building the missing houses: when nothing else is short the stock pays for all of them, and then none
      is missing. Houses still count as needed exactly when rounding down leaves five people or more to a
      house, which cannot be once there are sixteen people. */
  lemma HousesAffordable(s: Stock)
    requires !PopulationNeeded(s) && HousesNeeded(s)
    requires ElementDeficit(s) == 0 && AlloyDeficit(s) == 0 && TimberDeficit(s) == 0
    ensures HouseDeficit(s) >= 0 && CanRun(Times(BuildHouse, HouseDeficit(s)), s)
    ensures var t := Run(Times(BuildHouse, HouseDeficit(s)), s);
            s.housing >= 0 ==>
              && HouseDeficit(t) == 0
              && (HousesNeeded(t) <==> s.population % 4 >= s.population / 4)
              && (s.population >= 16 ==> !HousesNeeded(t))
  {
    var n := HouseDeficit(s);
    RepeatHouse(n, s);
  }

  /** Making the missing electronics, two at a time: the stock pays for all of them, and then everyone has
      one. */
  lemma ElectronicsAffordable(s: Stock)
    requires !PopulationNeeded(s) && !HousesNeeded(s) && ElectronicsNeeded(s)
    requires ElementDeficit(s) == 0 && AlloyDeficit(s) == 0
    ensures CanRun(Times(MakeElectronics, ElectronicsDeficit(s) / 2), s)
    ensures var t := Run(Times(MakeElectronics, ElectronicsDeficit(s) / 2), s);
      !ElectronicsNeeded(t) && 2 * t.population - 1 <= t.electronics <= 2 * t.population
  {
    RepeatElectronics(ElectronicsDeficit(s) / 2, s);
  }

  // ----- and that they ask for no more -----

  /** The stock pays for a transform that many times. */
  predicate Pays(step: Step, n: nat, s: Stock) {
    match step
    case MakeAlloy => s.population >= 1 && s.elements >= 2 * n
    case MakeElectronics => s.population >= 1 && s.elements >= 3 * n && s.alloys >= 2 * n
    case BuildHouse => s.population >= 5 && s.elements >= n && s.timber >= 5 * n && s.alloys >= 3 * n
  }

  lemma {:induction false} RunExact(step: Step, n: nat, s: Stock)
    requires n > 0
    ensures CanRun(Times(step, n), s) <==> Pays(step, n, s)
  {
    assert Times(step, n)[0] == step && Times(step, n)[1..] == Times(step, n - 1);
    if n > 1 {
      RunExact(step, n - 1, Do(step, s));
    } else {
      assert Times(step, 0) == [];
    }
  }

  /** The deficits of timber, elements and alloys are the least additions with which the missing houses can be built,
      each if nothing else is short. */
  lemma HouseDemandTight(s: Stock, x: nat)
    requires !PopulationNeeded(s) && HouseDeficit(s) > 0
    ensures var n := HouseDeficit(s);
      && (s.elements >= n && s.alloys >= 3 * n ==>
            (CanRun(Times(BuildHouse, n), s.(timber := s.timber + x)) <==> x >= TimberDeficit(s)))
      && (s.alloys >= 3 * n && s.timber >= 5 * n ==>
            (CanRun(Times(BuildHouse, n), s.(elements := s.elements + x)) <==> x >= ElementDeficit(s)))
      && (s.elements >= n && s.timber >= 5 * n ==>
            (CanRun(Times(BuildHouse, n), s.(alloys := s.alloys + x)) <==> x >= AlloyDeficit(s)))
  {
    hide CanRun;
    var n := HouseDeficit(s);
    RunExact(BuildHouse, n, s.(timber := s.timber + x));
    RunExact(BuildHouse, n, s.(elements := s.elements + x));
    RunExact(BuildHouse, n, s.(alloys := s.alloys + x));
  }

  /** The deficit of elements is the least addition with which the missing alloys can be made. */
  lemma AlloyDemandTight(s: Stock, x: nat)
    requires !PopulationNeeded(s) && AlloyDeficit(s) > 0
    ensures CanRun(Times(MakeAlloy, AlloyDeficit(s)), s.(elements := s.elements + x)) <==> x >= ElementDeficit(s)
  {
    hide CanRun;
    RunExact(MakeAlloy, AlloyDeficit(s), s.(elements := s.elements + x));
  }

  /** For electronics the deficits are counted for as many transforms as electronics are missing, although each makes
      two and half as many are made. */
  lemma ElectronicsDemandTight(s: Stock, x: nat)
    requires !PopulationNeeded(s) && !HousesNeeded(s) && ElectronicsNeeded(s)
    ensures var n := ElectronicsDeficit(s);
      && (s.elements >= 3 * n ==>
            (CanRun(Times(MakeElectronics, n), s.(alloys := s.alloys + x)) <==> x >= AlloyDeficit(s)))
      && (s.alloys >= 2 * n ==>
            (CanRun(Times(MakeElectronics, n), s.(elements := s.elements + x)) <==> x >= ElementDeficit(s)))
  {
    hide CanRun;
    var n := ElectronicsDeficit(s);
    RunExact(MakeElectronics, n, s.(elements := s.elements + x));
    RunExact(MakeElectronics, n, s.(alloys := s.alloys + x));
  }

  /** Of people the deficit is the least addition that will do, unless there are fewer than five and more houses than
      five; then more are needed after it. */
  lemma PeopleDemandTight(s: Stock, x: nat)
    requires PopulationNeeded(s)
    ensures x < PopulationDeficit(s) ==> PopulationNeeded(s.(population := s.population + x))
    ensures x >= PopulationDeficit(s) && !(s.population < 5 < s.housing) ==>
      !PopulationNeeded(s.(population := s.population + x))
    ensures s.population < 5 < s.housing ==>
      PopulationNeeded(s.(population := s.population + PopulationDeficit(s)))
  {
  }

  /** What is left of a good when all that can be spared of it is given away: of people as many as there are houses, of
      houses as many as people, of electronics two for each, of materials half, rounded up. */
  lemma SurplusLeaves(s: Stock)
    requires NonNegative(s)
    ensures var surplus := StatusOf(s).surplus;
      && (surplus[0] > 0 ==> s.population - surplus[0] == s.housing)
      && (surplus[6] > 0 ==> s.housing - surplus[6] == s.population)
      && (surplus[5] > 0 ==> s.electronics - surplus[5] == 2 * s.population)
      && (surplus[1] > 0 ==> s.elements - surplus[1] == (s.elements + 1) / 2)
      && (surplus[2] > 0 ==> s.timber - surplus[2] == (s.timber + 1) / 2)
      && (surplus[3] > 0 ==> s.alloys - surplus[3] == (s.alloys + 1) / 2)
  {
  }

  /** Of each of the goods that are traded there is something to spare exactly when there is more than that, and it is
      not wanted for what the country lacks. */
  lemma SurplusWhen(s: Stock)
    requires NonNegative(s)
    ensures var surplus, idle := StatusOf(s).surplus, !HousesNeeded(s) && !ElectronicsNeeded(s);
      && (surplus[0] > 0 <==> s.population >= 5 && s.population > s.housing)
      && (surplus[6] > 0 <==> s.housing > s.population)
      && (surplus[5] > 0 <==> s.electronics > 2 * s.population)
      && (surplus[1] > 0 <==> idle && s.elements >= 2)
      && (surplus[2] > 0 <==> s.timber >= 2 && (HousesNeeded(s) ==> s.timber >= 5 * HouseDeficit(s)))
      && (surplus[3] > 0 <==> idle && s.alloys >= 2)
  {
  }
}
