/** The four tradeable resources and the global economic constants
    (resource.py and the per-capita tables of city.py). Gold is a currency,
    not a resource. */
module Resources {

  datatype Resource = Food | Goods | Luxuries | Cannons

  /** The enumeration order of `ResourceName`; every loop over resources and
      every tie in a stable sort follows it. */
  const AllResources: seq<Resource> := [Food, Goods, Luxuries, Cannons]

  lemma AllResourcesComplete(r: Resource)
    ensures r in AllResources
  {
  }

  /** A closed mapping from resource to value, replacing attribute access by
      resource name. */
  datatype PerResource<T> = PerResource(food: T, goods: T, luxuries: T, cannons: T) {

    function Get(r: Resource): T {
      match r
      case Food => food
      case Goods => goods
      case Luxuries => luxuries
      case Cannons => cannons
    }

    function Set(r: Resource, v: T): (p: PerResource<T>)
      ensures p.Get(r) == v
      ensures forall q :: q != r ==> p.Get(q) == Get(q)
    {
      match r
      case Food => this.(food := v)
      case Goods => this.(goods := v)
      case Luxuries => this.(luxuries := v)
      case Cannons => this.(cannons := v)
    }
  }

  /** A table that holds `v` for every resource. */
  function Uniform<T>(v: T): (p: PerResource<T>)
    ensures forall r :: p.Get(r) == v
  {
    PerResource(v, v, v, v)
  }

  /** Total tons over all resources (`Ship.total_cargo_in_tons`). */
  function Tons(c: PerResource<int>): int {
    c.food + c.goods + c.luxuries + c.cannons
  }

  /** Changing one entry changes the total by exactly the difference. */
  lemma TonsAfterSet(c: PerResource<int>, r: Resource, v: int)
    ensures Tons(c.Set(r, v)) == Tons(c) - c.Get(r) + v
  {
  }

  /** No entry is negative. */
  predicate NonNegative(c: PerResource<int>) {
    c.food >= 0 && c.goods >= 0 && c.luxuries >= 0 && c.cannons >= 0
  }

  /** A resource never holds more than the total when nothing is negative. */
  lemma PartBelowTons(c: PerResource<int>, r: Resource)
    requires NonNegative(c)
    ensures 0 <= c.Get(r) <= Tons(c)
  {
    assert c.Get(Food) >= 0 && c.Get(Goods) >= 0 && c.Get(Luxuries) >= 0 && c.Get(Cannons) >= 0;
  }

  /** BASE_RESOURCE_PRICE_IN_GOLD */
  function BasePrice(r: Resource): real {
    match r
    case Food => 3.0
    case Goods => 5.0
    case Luxuries => 10.0
    case Cannons => 1.0
  }

  /** RESOURCE_PRICE_LIMITS */
  const PriceFloor: real := 0.000001
  const PriceCeiling: real := 200.0

  /** CONSUMPTION_TONS_PER_CAPITA_PER_DAY */
  function Consumption(r: Resource): real {
    match r
    case Food => 0.0063
    case Goods => 0.0025
    case Luxuries => 0.001
    case Cannons => 0.0001
  }

  /** INITIAL_PRODUCTION_TONS_PER_CAPITA_PER_DAY */
  function ProductionRate(r: Resource): real {
    match r
    case Food => 0.003
    case Goods => 0.001
    case Luxuries => 0.0
    case Cannons => 0.0
  }

  /** Every resource is consumed faster per capita than it is produced. */
  lemma ConsumptionExceedsProduction(r: Resource)
    ensures 0.0 <= ProductionRate(r) < Consumption(r)
  {
  }
}
