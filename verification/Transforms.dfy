/** A country's resources and the three conversions it can make. */
module Transforms {

  /** The eight resources, in the order of the status lists. */
  datatype Good = Population | Elements | Timber | Alloys | AlloysWaste | Electronics | Housing | HousingWaste

  class Resource {
    const name: Good
    var amount: int

    constructor (name: Good, amount: int)
      ensures this.name == name && this.amount == amount
    {
      this.name, this.amount := name, amount;
    }
  }

  /** All amounts of one country. */
  datatype Stock = Stock(population: int, elements: int, timber: int, alloys: int, waste: int,
                         electronics: int, housing: int, housingWaste: int)

  datatype Step = MakeAlloy | MakeElectronics | BuildHouse

  predicate CanDo(step: Step, s: Stock) {
    match step
    case MakeAlloy => s.population >= 1 && s.elements >= 2
    case MakeElectronics => s.population >= 1 && s.elements >= 3 && s.alloys >= 2
    case BuildHouse => s.population >= 5 && s.elements >= 1 && s.timber >= 5 && s.alloys >= 3
  }

  function Do(step: Step, s: Stock): Stock {
    match step
    case MakeAlloy => s.(elements := s.elements - 2, alloys := s.alloys + 1, waste := s.waste + 1)
    case MakeElectronics =>
      s.(elements := s.elements - 3, alloys := s.alloys - 2, electronics := s.electronics + 2, waste := s.waste + 1)
    case BuildHouse =>
      s.(elements := s.elements - 1, timber := s.timber - 5, alloys := s.alloys - 3,
         housing := s.housing + 1, housingWaste := s.housingWaste + 1)
  }

  /** No two of the resources are one object. */
  ghost predicate Apart(a: Resource?, b: Resource?, c: Resource?, d: Resource? := null, e: Resource? := null) {
    && (a != null ==> a != b && a != c && a != d && a != e)
    && (b != null ==> b != c && b != d && b != e)
    && (c != null ==> c != d && c != e)
    && (d != null ==> d != e)
  }

  /** AlloyTransform.Transform. */
  method AlloyTransform(population: Resource?, elements: Resource?, alloys: Resource?, waste: Resource?)
    returns (done: bool)
    requires Apart(elements, alloys, waste)
    modifies elements, alloys, waste
    ensures done <==>
      && population != null && elements != null && alloys != null && waste != null
      && old(population.amount) >= 1 && old(elements.amount) >= 2
    ensures done ==> elements.amount == old(elements.amount) - 2 && alloys.amount == old(alloys.amount) + 1
    ensures done ==> waste.amount == old(waste.amount) + 1
    ensures !done ==> forall r: Resource? :: r in {elements, alloys, waste} && r != null ==> r.amount == old(r.amount)
  {
    if population == null || elements == null || alloys == null || waste == null {
      return false;
    }
    if population.amount < 1 {
      return false;
    }
    if elements.amount < 2 {
      return false;
    }
    elements.amount := elements.amount - 2;
    alloys.amount := alloys.amount + 1;
    waste.amount := waste.amount + 1;
    return true;
  }

  /** ElectronicsTransform.Transform. */
  method ElectronicsTransform(population: Resource?, elements: Resource?, alloys: Resource?, electronics: Resource?,
      waste: Resource?)
    returns (done: bool)
    requires Apart(elements, alloys, electronics, waste)
    modifies elements, alloys, electronics, waste
    ensures done <==>
      && population != null && elements != null && alloys != null && electronics != null && waste != null
      && old(population.amount) >= 1 && old(elements.amount) >= 3 && old(alloys.amount) >= 2
    ensures done ==> elements.amount == old(elements.amount) - 3 && alloys.amount == old(alloys.amount) - 2
    ensures done ==> electronics.amount == old(electronics.amount) + 2 && waste.amount == old(waste.amount) + 1
    ensures !done ==> forall r: Resource? :: r in {elements, alloys, electronics, waste} && r != null ==>
        r.amount == old(r.amount)
  {
    if population == null || elements == null || alloys == null || electronics == null || waste == null {
      return false;
    }
    if population.amount < 1 {
      return false;
    }
    if elements.amount < 3 {
      return false;
    }
    if alloys.amount < 2 {
      return false;
    }
    elements.amount := elements.amount - 3;
    alloys.amount := alloys.amount - 2;
    electronics.amount := electronics.amount + 2;
    waste.amount := waste.amount + 1;
    return true;
  }

  /** HousingTransform.Transform. */
  method HousingTransform(population: Resource?, elements: Resource?, timber: Resource?, alloys: Resource?,
      housing: Resource?, housingWaste: Resource?)
    returns (done: bool)
    requires Apart(elements, timber, alloys, housing, housingWaste)
    modifies elements, timber, alloys, housing, housingWaste
    ensures done <==>
      && population != null && elements != null && timber != null && alloys != null && housing != null
        && housingWaste != null
      && old(population.amount) >= 5 && old(elements.amount) >= 1 && old(timber.amount) >= 5 && old(alloys.amount) >= 3
    ensures done ==> elements.amount == old(elements.amount) - 1 && timber.amount == old(timber.amount) - 5
    ensures done ==> alloys.amount == old(alloys.amount) - 3 && housing.amount == old(housing.amount) + 1
    ensures done ==> housingWaste.amount == old(housingWaste.amount) + 1
    ensures !done ==> forall r: Resource? :: r in {elements, timber, alloys, housing, housingWaste} && r != null ==>
        r.amount == old(r.amount)
  {
    if population == null || elements == null || timber == null || alloys == null || housing == null
        || housingWaste == null {
      return false;
    }
    if population.amount < 5 {
      return false;
    }
    if elements.amount < 1 {
      return false;
    }
    if timber.amount < 5 {
      return false;
    }
    if alloys.amount < 3 {
      return false;
    }
    elements.amount := elements.amount - 1;
    timber.amount := timber.amount - 5;
    alloys.amount := alloys.amount - 3;
    housing.amount := housing.amount + 1;
    housingWaste.amount := housingWaste.amount + 1;
    return true;
  }

  // ----- runs -----

  /** Every step of the run can be done when its turn comes. */
  predicate CanRun(run: seq<Step>, s: Stock) {
    run != [] ==> CanDo(run[0], s) && CanRun(run[1..], Do(run[0], s))
  }

  function Run(run: seq<Step>, s: Stock): Stock {
    if run == [] then s else Run(run[1..], Do(run[0], s))
  }

  predicate NonNegative(s: Stock) {
    && s.population >= 0 && s.elements >= 0 && s.timber >= 0 && s.alloys >= 0 && s.waste >= 0
    && s.electronics >= 0 && s.housing >= 0 && s.housingWaste >= 0
  }

  /** What is in the resources, counted in metallic elements. */
  function Worth(s: Stock): int {
    2 * s.elements + 4 * s.alloys + 7 * s.electronics + 14 * s.housing
  }

  function Wood(s: Stock): int {
    s.timber + 5 * s.housing
  }

  function UnspoiltHousing(s: Stock): int {
    s.housing - s.housingWaste
  }

  /** Metal waste accounts for every alloy ever made, used up or not. */
  function WasteBalance(s: Stock): int {
    2 * s.waste - 2 * s.alloys - 3 * s.electronics - 6 * s.housing
  }

  predicate SameTotals(s: Stock, t: Stock) {
    && t.population == s.population && Worth(t) == Worth(s) && Wood(t) == Wood(s)
    && UnspoiltHousing(t) == UnspoiltHousing(s) && WasteBalance(t) == WasteBalance(s)
  }

  function Count(run: seq<Step>, step: Step): nat {
    if run == [] then 0 else (if run[0] == step then 1 else 0) + Count(run[1..], step)
  }

  /** Any run of conversions keeps every amount non-negative and keeps population, metal, wood and both waste
      balances. */
  lemma {:induction false} RunConserves(run: seq<Step>, s: Stock)
    requires CanRun(run, s)
    ensures NonNegative(s) ==> NonNegative(Run(run, s))
    ensures SameTotals(s, Run(run, s))
  {
    if run != [] {
      RunConserves(run[1..], Do(run[0], s));
    }
  }

  /** The amounts after a run depend only on how often each conversion was made. */
  lemma {:induction false} RunCounts(run: seq<Step>, s: Stock)
    ensures var a, e, h := Count(run, MakeAlloy), Count(run, MakeElectronics), Count(run, BuildHouse);
            Run(run, s) == Stock(s.population, s.elements - 2 * a - 3 * e - h, s.timber - 5 * h,
                                 s.alloys + a - 2 * e - 3 * h, s.waste + a + e, s.electronics + 2 * e,
                                 s.housing + h, s.housingWaste + h)
  {
    if run != [] {
      RunCounts(run[1..], Do(run[0], s));
    }
  }

  function Times(step: Step, n: nat): (run: seq<Step>)
    ensures |run| == n && forall i :: 0 <= i < n ==> run[i] == step
  {
    if n == 0 then [] else [step] + Times(step, n - 1)
  }

  /** The totals that no run changes tell a run apart: two stocks with the same totals, electronics an even
      amount apart, are one run of (possibly negative) conversions apart. */
  lemma TotalsDetermine(s: Stock, t: Stock)
    requires SameTotals(s, t) && (t.electronics - s.electronics) % 2 == 0
    ensures var h, e := t.housing - s.housing, (t.electronics - s.electronics) / 2;
            var a := t.waste - s.waste - e;
            t == Stock(s.population, s.elements - 2 * a - 3 * e - h, s.timber - 5 * h, s.alloys + a - 2 * e - 3 * h,
                       s.waste + a + e, s.electronics + 2 * e, s.housing + h, s.housingWaste + h)
  {
    var h, e := t.housing - s.housing, (t.electronics - s.electronics) / 2;
    var a := t.waste - s.waste - e;
    assert t.electronics == s.electronics + 2 * e;
    assert 2 * (t.alloys - s.alloys) == 2 * (a - 2 * e - 3 * h);
  }
}
