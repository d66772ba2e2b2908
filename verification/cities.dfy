/** The city economic model (`City` in city.py): supply, demand and the
    clamped pricing law, the capacity and population chain with its
    per-step cache, and the per-iteration step. */
module Cities {

  import opened Wrappers
  import opened Numerics
  import opened Resources

  datatype Point = Point(x: real, y: real)

  /** The per-step cache `_cache`: values captured by `freeze`. */
  datatype Frozen = Frozen(baseCapacity: real, capacity: real, population: real)

  /** A city, and also an immutable snapshot of one: `information` maps a
      city name to the snapshot taken when it was bought, kept in insertion
      order and keyed by each snapshot's own name. */
  datatype City = City(
    name: string,
    location: Point,
    basePopulation: real,
    gold: real,
    stock: PerResource<real>,
    recency: int,
    information: seq<City>,
    cache: Option<Frozen>
  )

  const InitialCapacity: real := 100.0
  const GrowthRatePerDay: real := 0.5
  const DaysPerIteration: real := 1.0
  const ExcessSupplyFraction: real := 0.8

  /** `1 + Σ self[x] * CAPACITY_SCALES[x]` over gold, food, goods, luxuries
      and cannons. */
  function CapacityFactor(gold: real, stock: PerResource<real>): real {
    1.0 + gold * 0.15 + stock.food * 0.6 + stock.goods * 0.07
      + stock.luxuries * 0.15 + stock.cannons * 0.03
  }

  /** `INITIAL_CAPACITY / (1 + 10 ** (-food / 1000))`: rises with food
      towards, but never reaching, the initial capacity. */
  function LiveBaseCapacity(m: Maths, stock: PerResource<real>): (r: real)
    ensures 0.0 < r < InitialCapacity
  {
    var p := m.pow10(-stock.food / 1000.0);
    assert 1.0 + p > 1.0;
    InitialCapacity / (1.0 + p)
  }

  function LiveCapacity(m: Maths, gold: real, stock: PerResource<real>): real {
    LiveBaseCapacity(m, stock) * CapacityFactor(gold, stock)
  }

  /** The logistic formula anchored at the base population:
      `capacity / (1 + (capacity / base_population - 1) * e^-0.5)`. */
  function Logistic(m: Maths, capacity: real, basePopulation: real): real {
    Quot(m, capacity, 1.0 + (Quot(m, capacity, basePopulation) - 1.0) * m.decay)
  }

  function BaseCapacity(m: Maths, c: City): real {
    match c.cache
    case Some(f) => f.baseCapacity
    case None => LiveBaseCapacity(m, c.stock)
  }

  function Capacity(m: Maths, c: City): real {
    match c.cache
    case Some(f) => f.capacity
    case None => LiveCapacity(m, c.gold, c.stock)
  }

  function Population(m: Maths, c: City): real {
    match c.cache
    case Some(f) => f.population
    case None => Logistic(m, Capacity(m, c), c.basePopulation)
  }

  /** `freeze`: captures the three derived values; nothing a query returns
      changes by freezing. */
  function Freeze(m: Maths, c: City): (f: City)
    ensures f.cache.Some?
    ensures f == c.(cache := f.cache)
    ensures BaseCapacity(m, f) == BaseCapacity(m, c)
    ensures Capacity(m, f) == Capacity(m, c)
    ensures Population(m, f) == Population(m, c)
  {
    c.(cache := Some(Frozen(BaseCapacity(m, c), Capacity(m, c), Population(m, c))))
  }

  /** `unfreeze`: drops the cache, so the derived values follow the
      city's current stock and base population again. */
  function Unfreeze(m: Maths, c: City): City {
    c.(cache := None)
  }

  /** Unfreezing undoes freezing: a live city frozen and unfrozen is the
      city it was, and a frozen city that trades while frozen reports,
      once unfrozen, the values of its new stock, gold and base
      population, whatever the capture held. */
  lemma UnfreezeUndoesFreeze(m: Maths, c: City, stock: PerResource<real>, gold: real, basePopulation: real)
    ensures c.cache.None? ==> Unfreeze(m, Freeze(m, c)) == c
    ensures var u := Unfreeze(m, Freeze(m, c).(stock := stock, gold := gold, basePopulation := basePopulation));
      var live := c.(cache := None, stock := stock, gold := gold, basePopulation := basePopulation);
      && u == live
      && BaseCapacity(m, u) == LiveBaseCapacity(m, stock)
      && Capacity(m, u) == LiveCapacity(m, gold, stock)
      && Population(m, u) == Logistic(m, LiveCapacity(m, gold, stock), basePopulation)
  {
  }

  /** While frozen, the derived values ignore any change to stock, gold or
      base population: they are those of the moment of freezing. */
  lemma FrozenValuesIgnoreState(m: Maths, c: City, stock: PerResource<real>, gold: real, basePopulation: real)
    ensures var f := Freeze(m, c).(stock := stock, gold := gold, basePopulation := basePopulation);
      BaseCapacity(m, f) == BaseCapacity(m, c)
      && Capacity(m, f) == Capacity(m, c)
      && Population(m, f) == Population(m, c)
  {
  }

  /** Freezing twice keeps the first capture. */
  lemma FreezeIdempotent(m: Maths, c: City)
    ensures Freeze(m, Freeze(m, c)) == Freeze(m, c)
  {
  }

  function Demand(m: Maths, c: City, r: Resource): real {
    Population(m, c) * Consumption(r)
  }

  function Supply(c: City, r: Resource): real {
    c.stock.Get(r)
  }

  function Production(m: Maths, c: City, r: Resource): real {
    Population(m, c) * ProductionRate(r)
  }

  /** The sellable part of a surplus: never negative, zero exactly when
      there is no surplus, and a strict fraction of the surplus otherwise. */
  function ExcessSupply(m: Maths, c: City, r: Resource): (e: real)
    ensures e >= 0.0
    ensures e == 0.0 <==> Supply(c, r) <= Demand(m, c, r)
    ensures Supply(c, r) > Demand(m, c, r) ==> e < Supply(c, r) - Demand(m, c, r)
  {
    Max(0.0, ExcessSupplyFraction * (Supply(c, r) - Demand(m, c, r)))
  }

  /** The pricing law on a demand and a supply: floor when there is no
      demand, ceiling when there is demand but no supply, otherwise the
      elastic price clipped to the limits. */
  function PriceLaw(m: Maths, r: Resource, demand: real, supply: real): (p: real)
    ensures PriceFloor <= p <= PriceCeiling
    ensures demand <= 0.0 ==> p == PriceFloor
    ensures demand > 0.0 && supply <= 0.0 ==> p == PriceCeiling
  {
    if demand <= 0.0 then PriceFloor
    else if supply <= 0.0 then PriceCeiling
    else Clip(BasePrice(r) * m.sqrt(demand / supply), PriceFloor, PriceCeiling)
  }

  /** `City.price`: always within the limits, hence strictly positive,
      which keeps every division by a price in the ship's trading safe. */
  function Price(m: Maths, c: City, r: Resource): (p: real)
    ensures 0.0 < PriceFloor <= p <= PriceCeiling
    ensures Demand(m, c, r) <= 0.0 ==> p == PriceFloor
    ensures Demand(m, c, r) > 0.0 && Supply(c, r) <= 0.0 ==> p == PriceCeiling
  {
    PriceLaw(m, r, Demand(m, c, r), Supply(c, r))
  }

  /** With a monotone square root the price is monotone in the
      demand-to-supply ratio; the floor and ceiling cases sit below and
      above every elastic price. */
  lemma PriceLawMonotone(m: Maths, r: Resource, d1: real, s1: real, d2: real, s2: real)
    requires forall x, y :: 0.0 < x <= y ==> m.sqrt(x) <= m.sqrt(y)
    requires d1 > 0.0 && s1 > 0.0 && d2 > 0.0 && s2 > 0.0
    requires d1 / s1 <= d2 / s2
    ensures PriceLaw(m, r, d1, s1) <= PriceLaw(m, r, d2, s2)
  {
    var q1, q2 := d1 / s1, d2 / s2;
    assert q1 > 0.0;
    assert m.sqrt(q1) <= m.sqrt(q2);
    MulMonotone(m.sqrt(q1), m.sqrt(q2), BasePrice(r));
    ClipMonotone(BasePrice(r) * m.sqrt(q1), BasePrice(r) * m.sqrt(q2), PriceFloor, PriceCeiling);
  }

  /** Capacity is at least the base capacity, which is positive and below
      the initial capacity, as long as gold and stocks are not negative. */
  lemma CapacityAtLeastBase(m: Maths, c: City)
    requires c.cache.None?
    requires c.gold >= 0.0 && forall r :: c.stock.Get(r) >= 0.0
    ensures 0.0 < BaseCapacity(m, c) < InitialCapacity
    ensures BaseCapacity(m, c) <= Capacity(m, c)
  {
    var b := BaseCapacity(m, c);
    var k := CapacityFactor(c.gold, c.stock);
    assert c.stock.Get(Food) >= 0.0 && c.stock.Get(Goods) >= 0.0;
    assert c.stock.Get(Luxuries) >= 0.0 && c.stock.Get(Cannons) >= 0.0;
    assert k >= 1.0;
    MulMonotone(1.0, k, b);
  }

  /** With a monotone `10 ** x`, more food never lowers the base capacity. */
  lemma BaseCapacityGrowsWithFood(m: Maths, s1: PerResource<real>, s2: PerResource<real>)
    requires forall x, y :: x <= y ==> m.pow10(x) <= m.pow10(y)
    requires s1.food <= s2.food
    ensures LiveBaseCapacity(m, s1) <= LiveBaseCapacity(m, s2)
  {
    var p1, p2 := m.pow10(-s1.food / 1000.0), m.pow10(-s2.food / 1000.0);
    assert -s2.food / 1000.0 <= -s1.food / 1000.0;
    assert p2 <= p1;
    DivAntitone(InitialCapacity, 1.0 + p2, 1.0 + p1);
  }

  lemma DivAntitone(a: real, x: real, y: real)
    requires a > 0.0 && 0.0 < x <= y
    ensures a / y <= a / x
  {
    assert a / x - a / y == a * (y - x) / (x * y);
    MulMonotone(0.0, y - x, a);
    assert x * y > 0.0;
  }

  /** The logistic population lies between the base population and the
      capacity, and equals the capacity exactly when the base population
      does. (It exceeds the capacity when the base population does.) */
  lemma LogisticBetween(capacity: real, basePopulation: real, decay: real)
    requires capacity > 0.0 && basePopulation > 0.0 && 0.0 < decay < 1.0
    ensures var den := 1.0 + (capacity / basePopulation - 1.0) * decay;
      den > 1.0 - decay
      && var p := capacity / den;
      && p > 0.0
      && (basePopulation <= capacity ==> basePopulation <= p <= capacity)
      && (capacity <= basePopulation ==> capacity <= p <= basePopulation)
      && (p < capacity <==> basePopulation < capacity)
      && (p == capacity <==> basePopulation == capacity)
  {
    var C, B, d := capacity, basePopulation, decay;
    var q := C / B;
    var den := 1.0 + (q - 1.0) * d;
    assert q * B == C;
    Sign(q, B);
    Sign(q, d);
    assert den > 1.0 - d;
    var p := C / den;
    assert p * den == C;
    Sign(p, den);
    // the sign of q - 1 is the sign of C - B
    assert (q - 1.0) * B == C - B;
    Sign(q - 1.0, B);
    // the sign of p - C is the sign of 1 - den, i.e. of 1 - q
    assert (p - C) * den == C * (1.0 - den);
    assert 1.0 - den == (1.0 - q) * d;
    Sign(1.0 - q, d);
    Sign(1.0 - den, C);
    Sign(p - C, den);
    // the sign of p - B is the sign of C - B
    assert (p - B) * den == (C - B) * (1.0 - d) by {
      assert B * den == B * (1.0 - d) + (B * q) * d;
    }
    Sign(C - B, 1.0 - d);
    Sign(p - B, den);
  }

  /** Multiplying by a positive factor keeps the sign. */
  lemma Sign(a: real, k: real)
    requires k > 0.0
    ensures a * k > 0.0 <==> a > 0.0
    ensures a * k < 0.0 <==> a < 0.0
    ensures a * k == 0.0 <==> a == 0.0
  {
    if a > 0.0 {
      assert a * k > 0.0;
    } else if a < 0.0 {
      assert a * k < 0.0;
    }
  }

  /** For a live city with positive base population and capacity, the
      population is positive and sits between the two. */
  lemma PopulationBetween(m: Maths, c: City)
    requires m.Valid() && c.cache.None?
    requires c.basePopulation > 0.0 && Capacity(m, c) > 0.0
    ensures var p, C, B := Population(m, c), Capacity(m, c), c.basePopulation;
      p > 0.0
      && (B <= C ==> B <= p <= C)
      && (C <= B ==> C <= p <= B)
      && (p < C <==> B < C)
      && (p == C <==> B == C)
      && p * (1.0 - m.decay) < C
  {
    var C, B := Capacity(m, c), c.basePopulation;
    LogisticBetween(C, B, m.decay);
    assert Quot(m, C, B) == C / B;
    var den := 1.0 + (C / B - 1.0) * m.decay;
    assert den > 0.0;
    assert Quot(m, C, den) == C / den;
    var p := Population(m, c);
    assert p == Logistic(m, C, B) == Quot(m, C, 1.0 + (Quot(m, C, B) - 1.0) * m.decay);
    assert p == C / den;
    assert p * den == C;
    assert p * den - p * (1.0 - m.decay) == (den - (1.0 - m.decay)) * p;
    Sign(den - (1.0 - m.decay), p);
  }

  /** `City.step`: consume and produce with the population frozen at step
      entry, grow the base population, drop the cache and age the city's
      own information by one iteration. Gold, name, location and
      information are untouched. */
  function Step(m: Maths, c: City): (c': City)
    ensures c'.name == c.name && c'.location == c.location
    ensures c'.gold == c.gold && c'.information == c.information
    ensures c'.recency == c.recency + 1
    ensures c'.cache.None?
    ensures forall r :: c'.stock.Get(r) - c.stock.Get(r) == Population(m, c) * (ProductionRate(r) - Consumption(r))
    ensures c'.basePopulation == c.basePopulation * Growth(m, Population(m, c), Capacity(m, c))
  {
    var f := Freeze(m, c);
    var stock := PerResource(
      Supply(f, Food) + (Production(m, f, Food) - Demand(m, f, Food)),
      Supply(f, Goods) + (Production(m, f, Goods) - Demand(m, f, Goods)),
      Supply(f, Luxuries) + (Production(m, f, Luxuries) - Demand(m, f, Luxuries)),
      Supply(f, Cannons) + (Production(m, f, Cannons) - Demand(m, f, Cannons)));
    var grown := f.(stock := stock, basePopulation := f.basePopulation * Growth(m, Population(m, f), Capacity(m, f)));
    Unfreeze(m, grown).(recency := c.recency + 1)
  }

  /** The factor `(1 + GROWTH_RATE_PER_DAY * (1 - population / capacity)) * DAYS_PER_ITERATION`
      applied to the base population each step. */
  function Growth(m: Maths, population: real, capacity: real): real {
    (1.0 + GrowthRatePerDay * (1.0 - Quot(m, population, capacity))) * DaysPerIteration
  }

  /** Every per-capita production rate is below its consumption rate, so a
      step of a populated city strictly lowers every stock. */
  lemma StepDrainsStocks(m: Maths, c: City, r: Resource)
    requires Population(m, c) > 0.0
    ensures Step(m, c).stock.Get(r) < c.stock.Get(r)
  {
    ConsumptionExceedsProduction(r);
    var net := ProductionRate(r) - Consumption(r);
    assert net < 0.0;
    assert Population(m, c) * net < 0.0;
  }

  /** The base population moves towards the capacity: it grows exactly
      when it is below capacity, shrinks exactly when above, is unchanged
      exactly when equal, and stays positive. */
  lemma GrowthTowardCapacity(m: Maths, c: City)
    requires m.Valid() && c.cache.None?
    requires c.basePopulation > 0.0 && Capacity(m, c) > 0.0
    ensures Step(m, c).basePopulation > 0.0
    ensures Step(m, c).basePopulation > c.basePopulation <==> c.basePopulation < Capacity(m, c)
    ensures Step(m, c).basePopulation == c.basePopulation <==> c.basePopulation == Capacity(m, c)
    ensures Step(m, c).basePopulation < c.basePopulation <==> c.basePopulation > Capacity(m, c)
  {
    var B, C, p := c.basePopulation, Capacity(m, c), Population(m, c);
    PopulationBetween(m, c);
    GrowthFactorSign(m, B, C, p, Step(m, c).basePopulation);
  }

  /** The arithmetic of the growth factor `1 + 0.5 (1 - p / C)`. */
  lemma GrowthFactorSign(m: Maths, B: real, C: real, p: real, B': real)
    requires m.Valid()
    requires B > 0.0 && C > 0.0 && p > 0.0
    requires p * (1.0 - m.decay) < C
    requires (p < C <==> B < C) && (p == C <==> B == C)
    requires B' == B * Growth(m, p, C)
    ensures B' > 0.0
    ensures B' > B <==> B < C
    ensures B' == B <==> B == C
    ensures B' < B <==> B > C
  {
    var d := m.decay;
    var ratio := p / C;
    var growth := Growth(m, p, C);
    assert growth == 1.0 + 0.5 * (1.0 - ratio);
    // p (1 - d) < C with d < 0.61 bounds the ratio below 1 / 0.39 < 3
    assert ratio * C == p;
    assert (1.0 - ratio * (1.0 - d)) * C == C - p * (1.0 - d);
    Sign(1.0 - ratio * (1.0 - d), C);
    assert ratio < 3.0 by {
      if ratio >= 3.0 {
        MulMonotone(3.0, ratio, 1.0 - d);
      }
    }
    Sign(growth, B);
    // the sign of B' - B is that of 1 - ratio, which is that of C - p
    assert B * growth - B == (growth - 1.0) * B;
    Sign(growth - 1.0, B);
    assert (1.0 - ratio) * C == C - p;
    Sign(1.0 - ratio, C);
  }

  /** A live city with positive base population and no negative stock or
      gold prices any resource it has none of at the ceiling. */
  lemma EmptyStorePricesAtCeiling(m: Maths, c: City, r: Resource)
    requires m.Valid() && c.cache.None?
    requires c.basePopulation > 0.0 && c.gold >= 0.0
    requires forall q :: c.stock.Get(q) >= 0.0
    requires c.stock.Get(r) == 0.0
    ensures Price(m, c, r) == PriceCeiling
  {
    CapacityAtLeastBase(m, c);
    PopulationBetween(m, c);
    assert Demand(m, c, r) > 0.0;
  }
}
