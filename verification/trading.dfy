/** The trading rules of a ship (ship.py): selling by margin or by agenda,
    buying by the owner's demand or by agenda with look-ahead, loading at
    departure and the settlement on return home. Each rule takes the ship's
    hold and the city it trades with and returns both, changed. */
module Trading {

  import opened Wrappers
  import opened Numerics
  import opened Resources
  import opened Ranking
  import opened Cities
  import CityInfo

  /** The ship's side of a trade: whole tons per resource, the tons sold at
      the current port (`_sold_cargo`), and the gold on board. */
  datatype Hold = Hold(cargo: PerResource<int>, sold: PerResource<int>, gold: real)

  /** `clear_cargo`: nothing on board. */
  const EmptyHold: Hold := Hold(Uniform(0), Uniform(0), 0.0)

  /** A hold trading with one city. */
  datatype Deal = Deal(hold: Hold, city: City)

  /** What a ship reads of a city's market: the price, the excess supply
      and the demand of each resource. */
  datatype Market = Market(
    price: (City, Resource) -> real,
    excess: (City, Resource) -> real,
    demand: (City, Resource) -> real
  ) {
    /** Prices are positive and excess supplies non-negative. */
    ghost predicate Sound() {
      && (forall c, r :: price(c, r) > 0.0)
      && (forall c, r :: excess(c, r) >= 0.0)
    }
  }

  /** The market as the city model computes it (`City.price`,
      `City.excess_supply`, `City.demand`). */
  function CityMarket(m: Maths): (k: Market)
    ensures k.Sound()
    ensures forall c, r :: k.price(c, r) == Price(m, c, r) && k.excess(c, r) == ExcessSupply(m, c, r)
    ensures forall c, r :: k.demand(c, r) == Demand(m, c, r)
  {
    Market((c, r) => Price(m, c, r), (c, r) => ExcessSupply(m, c, r), (c, r) => Demand(m, c, r))
  }

  /** Cargo is non-negative and fits the hold, and gold is not negative. */
  predicate Stowed(h: Hold, maxHold: int) {
    NonNegative(h.cargo) && Tons(h.cargo) <= maxHold && h.gold >= 0.0
  }

  /** Tons of every resource and gold, summed over ship and city, are
      what they were. */
  predicate Conserves(d: Deal, e: Deal) {
    TonsConserved(d, e) && e.hold.gold + e.city.gold == d.hold.gold + d.city.gold
  }

  /** Tons of every resource, summed over ship and city, are what they were. */
  predicate TonsConserved(d: Deal, e: Deal) {
    forall r :: e.hold.cargo.Get(r) as real + e.city.stock.Get(r) == d.hold.cargo.Get(r) as real + d.city.stock.Get(r)
  }

  /** Only the city's stock and gold differ. */
  predicate OnlyMarketChanged(c: City, c': City) {
    c' == c.(stock := c'.stock, gold := c'.gold)
  }

  // ---------------------------------------------------------------------
  // Resource orders

  /** The four resources from the highest key to the lowest, ties in
      enumeration order (`sorted(..., reverse=True)` over a dict built in
      enumeration order). */
  function OrderByDesc(key: Resource -> real): (order: seq<Resource>)
    ensures |order| == |AllResources|
    ensures forall r :: r in order
    ensures forall i, j :: 0 <= i < j < |order| ==> key(order[i]) >= key(order[j])
  {
    var sorted := SortDesc(KeyedBy(key, AllResources));
    SortedKeepsResources(key, AllResources, sorted);
    SortedKeysDescend(key, AllResources, sorted);
    assert forall r :: r in AllResources by {
      forall r ensures r in AllResources { AllResourcesComplete(r); }
    }
    Items(sorted)
  }

  /** The resources paired with their keys, in the given order. */
  function KeyedBy(key: Resource -> real, rs: seq<Resource>): (s: seq<Ranked<Resource>>)
    ensures |s| == |rs|
    ensures forall i :: 0 <= i < |rs| ==> s[i] == Ranked(rs[i], Finite(key(rs[i])))
  {
    if |rs| == 0 then [] else [Ranked(rs[0], Finite(key(rs[0])))] + KeyedBy(key, rs[1..])
  }

  /** Sorting resources by key keeps every resource. */
  lemma SortedKeepsResources(key: Resource -> real, rs: seq<Resource>, sorted: seq<Ranked<Resource>>)
    requires sorted == SortDesc(KeyedBy(key, rs))
    ensures forall r :: r in rs ==> r in Items(sorted)
  {
    var keyed := KeyedBy(key, rs);
    SortedMembers(keyed);
    forall r | r in rs ensures r in Items(sorted) {
      var i :| 0 <= i < |rs| && rs[i] == r;
      assert keyed[i] in sorted;
      var j :| 0 <= j < |sorted| && sorted[j] == keyed[i];
      assert Items(sorted)[j] == r;
    }
  }

  /** Sorting resources by key puts the keys in descending order. */
  lemma SortedKeysDescend(key: Resource -> real, rs: seq<Resource>, sorted: seq<Ranked<Resource>>)
    requires sorted == SortDesc(KeyedBy(key, rs))
    ensures forall i, j :: 0 <= i < j < |sorted| ==> key(sorted[i].item) >= key(sorted[j].item)
  {
    var keyed := KeyedBy(key, rs);
    SortedMembers(keyed);
    forall i, j | 0 <= i < j < |sorted| ensures key(sorted[i].item) >= key(sorted[j].item) {
      assert sorted[i] in keyed && sorted[j] in keyed;
    }
  }

  /** `get_resource_names_ordered_by_margin`: price here minus the price
      the owner's snapshot shows, highest first. */
  function MarginOrder(k: Market, dest: City, owner: City): (order: seq<Resource>)
    ensures |order| == |AllResources| && forall r :: r in order
    ensures forall i, j :: 0 <= i < j < |order| ==>
      k.price(dest, order[i]) - k.price(owner, order[i]) >= k.price(dest, order[j]) - k.price(owner, order[j])
  {
    OrderByDesc(r => k.price(dest, r) - k.price(owner, r))
  }

  /** The resources by the home city's excess supply, highest first. */
  function ExcessOrder(k: Market, home: City): (order: seq<Resource>)
    ensures |order| == |AllResources| && forall r :: r in order
    ensures forall i, j :: 0 <= i < j < |order| ==> k.excess(home, order[i]) >= k.excess(home, order[j])
  {
    OrderByDesc(r => k.excess(home, r))
  }

  // ---------------------------------------------------------------------
  // Selling

  /** Tons a city holding `gold` takes out of `offered` at `price`:
      floor(min(offered * price, gold) / price). */
  function SaleTons(offered: int, price: real, gold: real): (n: int)
    requires price > 0.0
    ensures offered >= 0 && gold >= 0.0 ==> 0 <= n <= offered && n as real * price <= gold
    ensures offered >= 0 && gold >= offered as real * price ==> n == offered
  {
    var earnings := Min(offered as real * price, gold);
    EarningsQuotient(offered, price, gold);
    Trunc(earnings / price)
  }

  lemma EarningsQuotient(offered: int, price: real, gold: real)
    requires price > 0.0
    ensures offered >= 0 && gold >= 0.0 ==>
      var n := Trunc(Min(offered as real * price, gold) / price);
      0 <= n <= offered && n as real * price <= gold
    ensures offered >= 0 && gold >= offered as real * price ==>
      Trunc(Min(offered as real * price, gold) / price) == offered
  {
    var earnings := Min(offered as real * price, gold);
    if offered >= 0 && gold >= 0.0 {
      TruncQuotient(earnings, price);
      QuotientAtMost(earnings, offered as real, price);
    }
    if offered >= 0 && gold >= offered as real * price {
      assert earnings == offered as real * price;
      assert earnings / price == offered as real;
    }
  }

  /** Moves `n` tons of `r` from the ship to the city for `n * price` gold. */
  function Transfer(d: Deal, r: Resource, n: int, price: real): (e: Deal)
    ensures Conserves(d, e) && OnlyMarketChanged(d.city, e.city)
    ensures e.hold.cargo.Get(r) == d.hold.cargo.Get(r) - n && e.hold.sold == d.hold.sold
    ensures e.hold.gold == d.hold.gold + n as real * price && e.city.gold == d.city.gold - n as real * price
    ensures forall q :: q != r ==> e.hold.cargo.Get(q) == d.hold.cargo.Get(q) && e.city.stock.Get(q) == d.city.stock.Get(q)
  {
    Deal(
      d.hold.(cargo := d.hold.cargo.Set(r, d.hold.cargo.Get(r) - n), gold := d.hold.gold + n as real * price),
      d.city.(stock := d.city.stock.Set(r, d.city.stock.Get(r) + n as real), gold := d.city.gold - n as real * price))
  }

  /** Sells every resource in `order` as far as the city's gold allows
      (the loop of `_sell_cargo_at_destination`). Tons and gold are
      conserved between ship and city. */
  function SellInOrder(k: Market, d: Deal, order: seq<Resource>): (e: Deal)
    requires k.Sound()
    ensures Conserves(d, e) && OnlyMarketChanged(d.city, e.city) && e.hold.sold == d.hold.sold
    decreases |order|
  {
    if |order| == 0 then d
    else
      var r := order[0];
      var price := k.price(d.city, r);
      var n := SaleTons(d.hold.cargo.Get(r), price, d.city.gold);
      var next := Transfer(d, r, n, price);
      var e := SellInOrder(k, next, order[1..]);
      assert Conserves(next, e) && Conserves(d, next);
      e
  }

  /** From a solvent city and a non-negative hold, selling in order never
      makes the city's gold or any cargo negative: the ship only loses
      cargo and gains gold. */
  lemma {:induction false} SellInOrderBounded(k: Market, d: Deal, order: seq<Resource>)
    requires k.Sound()
    requires d.city.gold >= 0.0 && NonNegative(d.hold.cargo)
    ensures var e := SellInOrder(k, d, order);
      && e.city.gold >= 0.0 && NonNegative(e.hold.cargo) && e.hold.gold >= d.hold.gold
      && forall r :: e.hold.cargo.Get(r) <= d.hold.cargo.Get(r)
    decreases |order|
  {
    if |order| > 0 {
      var r := order[0];
      var price := k.price(d.city, r);
      var n := SaleTons(d.hold.cargo.Get(r), price, d.city.gold);
      var next := Transfer(d, r, n, price);
      assert d.hold.cargo.Get(r) >= 0;
      assert 0 <= n <= d.hold.cargo.Get(r) && n as real * price <= d.city.gold;
      assert next.city.gold >= 0.0 && next.hold.gold >= d.hold.gold;
      assert NonNegative(next.hold.cargo);
      SellInOrderBounded(k, next, order[1..]);
      var e := SellInOrder(k, next, order[1..]);
      assert SellInOrder(k, d, order) == e;
      assert forall q :: e.hold.cargo.Get(q) <= next.hold.cargo.Get(q) <= d.hold.cargo.Get(q);
    }
  }

  /** `_sell_cargo_at_destination`: sells in margin order; tons and gold
      move between ship and city and are conserved. */
  function SellCargoAtDestination(k: Market, d: Deal, owner: City): (e: Deal)
    requires k.Sound()
    ensures Conserves(d, e) && OnlyMarketChanged(d.city, e.city) && e.hold.sold == d.hold.sold
  {
    SellInOrder(k, d, MarginOrder(k, d.city, owner))
  }

  /** Selling at the destination from a solvent city and a non-negative
      hold: no cargo goes negative, no more is sold than carried, and the
      city never pays more gold than it has. */
  lemma SellCargoBounded(k: Market, d: Deal, owner: City)
    requires k.Sound()
    requires d.city.gold >= 0.0 && NonNegative(d.hold.cargo)
    ensures var e := SellCargoAtDestination(k, d, owner);
      && e.city.gold >= 0.0 && NonNegative(e.hold.cargo) && e.hold.gold >= d.hold.gold
      && forall r :: e.hold.cargo.Get(r) <= d.hold.cargo.Get(r)
  {
    SellInOrderBounded(k, d, MarginOrder(k, d.city, owner));
  }

  /** An agenda sell order: everything carried, or up to a number of tons. */
  datatype SellTarget = SellAll | SellUpTo(tons: real)

  /** One agenda sell order (the loop body of `_sell_per_agenda`). */
  function SellOrder(k: Market, d: Deal, r: Resource, t: SellTarget): (e: Deal)
    ensures Conserves(d, e) && OnlyMarketChanged(d.city, e.city)
    ensures forall q :: q != r ==> e.hold.cargo.Get(q) == d.hold.cargo.Get(q) && e.hold.sold.Get(q) == d.hold.sold.Get(q)
    ensures d.hold.cargo.Get(r) <= 0 ==> e == d
    ensures d.hold.cargo.Get(r) > 0 ==> e.hold.sold.Get(r) == d.hold.cargo.Get(r) - e.hold.cargo.Get(r)
    ensures d.city.gold >= 0.0 && (t.SellUpTo? ==> t.tons >= 0.0) ==>
      && 0 <= d.hold.cargo.Get(r) - e.hold.cargo.Get(r)
      && (d.hold.cargo.Get(r) > 0 ==> e.hold.cargo.Get(r) >= 0)
      && (t.SellUpTo? ==> (d.hold.cargo.Get(r) - e.hold.cargo.Get(r)) as real <= t.tons)
      && e.city.gold >= 0.0 && e.hold.gold >= d.hold.gold
  {
    var available := d.hold.cargo.Get(r);
    if available <= 0 then d
    else
      var toSell := match t
        case SellAll => available
        case SellUpTo(x) => Trunc(Min(available as real, x));
      var price := k.price(d.city, r);
      var n := if price > 0.0 then SaleTons(toSell, price, d.city.gold) else 0;
      var e := Transfer(d, r, n, price);
      e.(hold := e.hold.(sold := e.hold.sold.Set(r, n)))
  }

  /** No resource is named twice (the orders come from a dict). */
  predicate DistinctResources<T>(orders: seq<(Resource, T)>) {
    forall i, j :: 0 <= i < j < |orders| ==> orders[i].0 != orders[j].0
  }

  /** `_sell_per_agenda`: the orders in turn. Tons and gold are conserved
      and resources without an order are left alone. */
  function SellPerAgenda(k: Market, d: Deal, orders: seq<(Resource, SellTarget)>): (e: Deal)
    ensures Conserves(d, e) && OnlyMarketChanged(d.city, e.city)
    ensures forall r :: (forall i :: 0 <= i < |orders| ==> orders[i].0 != r) ==>
      e.hold.cargo.Get(r) == d.hold.cargo.Get(r) && e.hold.sold.Get(r) == d.hold.sold.Get(r)
    decreases |orders|
  {
    if |orders| == 0 then d
    else
      var next := SellOrder(k, d, orders[0].0, orders[0].1);
      var e := SellPerAgenda(k, next, orders[1..]);
      assert forall i :: 1 <= i < |orders| ==> orders[i] == orders[1..][i - 1];
      assert Conserves(next, e) && Conserves(d, next);
      e
  }

  /** With each resource ordered at most once, `sold` records exactly the
      tons that left the hold for every resource that was traded. */
  lemma {:induction false} SellPerAgendaRecordsSold(k: Market, d: Deal, orders: seq<(Resource, SellTarget)>)
    requires DistinctResources(orders)
    ensures var e := SellPerAgenda(k, d, orders);
      forall r :: e.hold.cargo.Get(r) == d.hold.cargo.Get(r) || e.hold.sold.Get(r) == d.hold.cargo.Get(r) - e.hold.cargo.Get(r)
    decreases |orders|
  {
    if |orders| > 0 {
      var q := orders[0].0;
      var next := SellOrder(k, d, q, orders[0].1);
      var e := SellPerAgenda(k, next, orders[1..]);
      assert SellPerAgenda(k, d, orders) == e;
      assert forall i :: 0 <= i < |orders[1..]| ==> orders[1..][i] == orders[i + 1];
      SellPerAgendaRecordsSold(k, next, orders[1..]);
      forall r ensures e.hold.cargo.Get(r) == d.hold.cargo.Get(r) || e.hold.sold.Get(r) == d.hold.cargo.Get(r) - e.hold.cargo.Get(r) {
        if r == q {
          assert forall i :: 0 <= i < |orders[1..]| ==> orders[1..][i].0 != r;
        }
      }
    }
  }

  /** From a solvent city and a non-negative hold with non-negative
      targets, nothing goes negative and the ship only gains gold and
      loses cargo. */
  lemma {:induction false} SellPerAgendaBounded(k: Market, d: Deal, orders: seq<(Resource, SellTarget)>)
    requires d.city.gold >= 0.0 && NonNegative(d.hold.cargo) && SellTargetsValid(orders)
    ensures var e := SellPerAgenda(k, d, orders);
      && e.city.gold >= 0.0 && NonNegative(e.hold.cargo) && e.hold.gold >= d.hold.gold
      && (forall r :: e.hold.cargo.Get(r) <= d.hold.cargo.Get(r))
    decreases |orders|
  {
    if |orders| > 0 {
      var q := orders[0].0;
      var next := SellOrder(k, d, q, orders[0].1);
      assert next.city.gold >= 0.0 && next.hold.gold >= d.hold.gold;
      assert NonNegative(next.hold.cargo);
      assert forall r :: next.hold.cargo.Get(r) <= d.hold.cargo.Get(r);
      var e := SellPerAgenda(k, next, orders[1..]);
      assert SellPerAgenda(k, d, orders) == e;
      assert SellTargetsValid(orders[1..]) by {
        assert forall i :: 0 <= i < |orders[1..]| ==> orders[1..][i] == orders[i + 1];
      }
      SellPerAgendaBounded(k, next, orders[1..]);
    }
  }

  /** With each resource ordered at most once, a bounded order never sells
      more than its target. */
  lemma {:induction false} SellPerAgendaWithinTargets(k: Market, d: Deal, orders: seq<(Resource, SellTarget)>)
    requires d.city.gold >= 0.0 && SellTargetsValid(orders) && DistinctResources(orders)
    ensures var e := SellPerAgenda(k, d, orders);
      forall i :: 0 <= i < |orders| && orders[i].1.SellUpTo? ==>
        (d.hold.cargo.Get(orders[i].0) - e.hold.cargo.Get(orders[i].0)) as real <= orders[i].1.tons
    decreases |orders|
  {
    if |orders| > 0 {
      var q := orders[0].0;
      var next := SellOrder(k, d, q, orders[0].1);
      assert next.city.gold >= 0.0;
      var e := SellPerAgenda(k, next, orders[1..]);
      assert SellPerAgenda(k, d, orders) == e;
      assert forall i :: 0 <= i < |orders[1..]| ==> orders[1..][i] == orders[i + 1];
      SellPerAgendaWithinTargets(k, next, orders[1..]);
      forall i | 0 <= i < |orders| && orders[i].1.SellUpTo?
        ensures (d.hold.cargo.Get(orders[i].0) - e.hold.cargo.Get(orders[i].0)) as real <= orders[i].1.tons
      {
        if i == 0 {
          assert (d.hold.cargo.Get(q) - next.hold.cargo.Get(q)) as real <= orders[0].1.tons;
          assert forall j :: 0 <= j < |orders[1..]| ==> orders[1..][j].0 != q;
          assert e.hold.cargo.Get(q) == next.hold.cargo.Get(q);
        } else {
          assert orders[i] == orders[1..][i - 1];
          assert orders[i].0 != q;
        }
      }
    }
  }

  /** Every bounded sell target is non-negative. */
  predicate SellTargetsValid(orders: seq<(Resource, SellTarget)>) {
    forall i :: 0 <= i < |orders| ==> orders[i].1.SellUpTo? ==> orders[i].1.tons >= 0.0
  }

  // ---------------------------------------------------------------------
  // Buying by agenda

  /** An agenda buy order: as much as fits, or up to a number of tons on board. */
  datatype BuyTarget = BuyAll | BuyUpTo(tons: real)

  /** This port's price for `r` is no higher than at any of the later
      stops other than this port itself. Those cities do not trade while
      the ship is here, so their prices stay fixed; a later stop at this
      same port compares the port with itself and never blocks. */
  predicate CheapestHere(k: Market, dest: City, others: seq<City>, r: Resource) {
    forall i :: 0 <= i < |others| ==> k.price(dest, r) <= k.price(others[i], r)
  }

  /** Tons still wanted under a bounded order: max(0, int(target) - on board). */
  function Need(target: real, onBoard: int): (n: int)
    ensures n >= 0 && n >= Trunc(target) - onBoard
  {
    if Trunc(target) - onBoard > 0 then Trunc(target) - onBoard else 0
  }

  /** An agenda buy order that goes on to be priced: unbounded, or
      something is still needed. */
  predicate Wants(d: Deal, r: Resource, t: BuyTarget) {
    t.BuyAll? || Need(t.tons, d.hold.cargo.Get(r)) > 0
  }

  /** One agenda buy order with room in the hold (the loop body of
      `_buy_per_agenda` after the capacity check): the tons `OrderTons`
      allows move from the city's stock into the hold, the ship pays for
      them, and the city's gold is untouched. */
  function BuyOrder(k: Market, others: seq<City>,
                    maxHold: int, d: Deal, r: Resource, t: BuyTarget): (e: Deal)
    ensures e.city == d.city.(stock := e.city.stock) && e.hold.sold == d.hold.sold
    ensures forall q :: q != r ==> e.hold.cargo.Get(q) == d.hold.cargo.Get(q) && e.city.stock.Get(q) == d.city.stock.Get(q)
    ensures var n := OrderTons(k, others, maxHold, d, r, t);
      && e.hold.cargo.Get(r) == d.hold.cargo.Get(r) + n
      && e.city.stock.Get(r) == d.city.stock.Get(r) - n as real
      && e.hold.gold == d.hold.gold - n as real * k.price(d.city, r)
    ensures Stowed(d.hold, maxHold) ==> Stowed(e.hold, maxHold)
  {
    var n := OrderTons(k, others, maxHold, d, r, t);
    if n > 0 then
      Take(d, r, n, k.price(d.city, r))
    else d
  }

  /** The whole tons one agenda buy order takes (zero when it buys
      nothing): only when the order still wants something and this port is
      the cheapest of the remaining stops, and then no more than the order
      still needs, the city's excess supply, the room in the hold and the
      gold on board allow. */
  function OrderTons(k: Market, others: seq<City>,
                     maxHold: int, d: Deal, r: Resource, t: BuyTarget): (n: int)
    ensures n >= 0
    ensures n > 0 ==>
      && k.price(d.city, r) > 0.0
      && Wants(d, r, t) && CheapestHere(k, d.city, others, r)
      && n <= maxHold - Tons(d.hold.cargo)
      && n as real <= k.excess(d.city, r)
      && (t.BuyUpTo? ==> n <= Need(t.tons, d.hold.cargo.Get(r)))
      && n as real * k.price(d.city, r) <= d.hold.gold
  {
    var price := k.price(d.city, r);
    var room := maxHold - Tons(d.hold.cargo);
    if !Wants(d, r, t) || !CheapestHere(k, d.city, others, r) || room <= 0 then 0
    else
      var wanted := if t.BuyUpTo? then Need(t.tons, d.hold.cargo.Get(r)) as real else room as real;
      var available := Trunc(Min(Min(wanted, k.excess(d.city, r)), room as real));
      var n := CapByGold(available, d.hold.gold, price);
      if n <= 0 then 0 else n
  }

  /** `min(available, int(gold / price))`, with nothing affordable at a
      price that is not positive. */
  function CapByGold(available: int, gold: real, price: real): (n: int)
    ensures n <= available
    ensures n > 0 ==> price > 0.0 && n as real * price <= gold
  {
    var affordable := if price > 0.0 then (gold / price).Floor else 0;
    var n := if available <= affordable then available else affordable;
    if n <= 0 then n
    else
      assert n as real <= gold / price;
      MulMonotone(n as real, gold / price, price);
      n
  }

  /** Moves `n` tons of `r` from the city's stock into the hold for
      `n * price` of the ship's gold; the city's gold is not credited. */
  function Take(d: Deal, r: Resource, n: int, price: real): (e: Deal)
    ensures e.hold.cargo.Get(r) == d.hold.cargo.Get(r) + n
    ensures forall q :: q != r ==> e.hold.cargo.Get(q) == d.hold.cargo.Get(q)
    ensures Tons(e.hold.cargo) == Tons(d.hold.cargo) + n
    ensures e.hold.gold == d.hold.gold - n as real * price && e.hold.sold == d.hold.sold
    ensures e.city == d.city.(stock := e.city.stock)
    ensures e.city.stock.Get(r) == d.city.stock.Get(r) - n as real
    ensures forall q :: q != r ==> e.city.stock.Get(q) == d.city.stock.Get(q)
  {
    TonsAfterSet(d.hold.cargo, r, d.hold.cargo.Get(r) + n);
    Deal(
      d.hold.(cargo := d.hold.cargo.Set(r, d.hold.cargo.Get(r) + n), gold := d.hold.gold - n as real * price),
      d.city.(stock := d.city.stock.Set(r, d.city.stock.Get(r) - n as real)))
  }

  /** The hold is full: the capacity check of `_buy_per_agenda` breaks. */
  predicate HoldFull(d: Deal, maxHold: int) {
    maxHold - Tons(d.hold.cargo) <= 0
  }

  /** `_buy_per_agenda`: the orders in turn, stopping at the first order
      that would be priced here while the hold is full. Tons are conserved
      between ship and city, the ship only gains cargo and spends gold,
      and the city's gold is untouched. */
  function BuyPerAgenda(k: Market, others: seq<City>,
                        maxHold: int, d: Deal, orders: seq<(Resource, BuyTarget)>): (e: Deal)
    ensures e.city == d.city.(stock := e.city.stock) && e.hold.sold == d.hold.sold
    ensures TonsConserved(d, e)
    ensures forall r :: e.hold.cargo.Get(r) >= d.hold.cargo.Get(r)
    ensures e.hold.gold <= d.hold.gold
    decreases |orders|
  {
    if |orders| == 0 then d
    else
      var r := orders[0].0;
      var t := orders[0].1;
      if Wants(d, r, t) && CheapestHere(k, d.city, others, r) && HoldFull(d, maxHold) then d
      else
        var next := BuyOrder(k, others, maxHold, d, r, t);
        var e := BuyPerAgenda(k, others, maxHold, next, orders[1..]);
        assert TonsConserved(next, e) && TonsConserved(d, next);
        e
  }

  /** Agenda buying keeps the cargo within the hold and the ship's gold
      non-negative. */
  lemma {:induction false} BuyPerAgendaStowed(k: Market, others: seq<City>,
                                            maxHold: int, d: Deal, orders: seq<(Resource, BuyTarget)>)
    requires Stowed(d.hold, maxHold)
    ensures Stowed(BuyPerAgenda(k, others, maxHold, d, orders).hold, maxHold)
    decreases |orders|
  {
    if |orders| > 0 {
      var r := orders[0].0;
      var t := orders[0].1;
      if !(Wants(d, r, t) && CheapestHere(k, d.city, others, r) && HoldFull(d, maxHold)) {
        var next := BuyOrder(k, others, maxHold, d, r, t);
        assert Stowed(next.hold, maxHold);
        BuyPerAgendaStowed(k, others, maxHold, next, orders[1..]);
      }
    }
  }

  /** A full hold makes agenda buying a no-op, whatever the orders, gold
      or prices. */
  lemma {:induction false} FullHoldBuysNothing(k: Market, others: seq<City>,
                                             maxHold: int, d: Deal, orders: seq<(Resource, BuyTarget)>)
    requires HoldFull(d, maxHold)
    ensures BuyPerAgenda(k, others, maxHold, d, orders) == d
  {
    if |orders| > 0 {
      var r := orders[0].0;
      var t := orders[0].1;
      if !(Wants(d, r, t) && CheapestHere(k, d.city, others, r)) {
        assert BuyOrder(k, others, maxHold, d, r, t) == d;
        FullHoldBuysNothing(k, others, maxHold, d, orders[1..]);
      }
    }
  }

  // ---------------------------------------------------------------------
  // Buying by the owner's demand

  /** One entry of `cargo_to_buy`: a resource and the whole tons wanted. */
  datatype Want = Want(resource: Resource, tons: int)

  /** The resources the owner demands, in enumeration order, ranked by the
      truncated demand. */
  function Demanded(k: Market, owner: City, rs: seq<Resource>): (r: seq<Ranked<Resource>>)
    ensures forall x :: x in r ==>
      x.item in rs && k.demand(owner, x.item) > 0.0 && x.rank == Finite(Trunc(k.demand(owner, x.item)) as real)
    ensures forall q :: q in rs && k.demand(owner, q) > 0.0 ==> Ranked(q, Finite(Trunc(k.demand(owner, q)) as real)) in r
  {
    if |rs| == 0 then []
    else
      var q := rs[0];
      var rest := Demanded(k, owner, rs[1..]);
      assert forall x :: x in rs ==> x == q || x in rs[1..];
      if k.demand(owner, q) > 0.0 then [Ranked(q, Finite(Trunc(k.demand(owner, q)) as real))] + rest else rest
  }

  /** `cargo_to_buy`: every resource the owner's snapshot demands, with the
      demand truncated to whole tons, largest first. */
  function CargoToBuy(k: Market, owner: City): (wants: seq<Want>)
    ensures forall i :: 0 <= i < |wants| ==>
      k.demand(owner, wants[i].resource) > 0.0 && wants[i].tons == Trunc(k.demand(owner, wants[i].resource))
    ensures forall q :: k.demand(owner, q) > 0.0 ==> exists i :: 0 <= i < |wants| && wants[i].resource == q
    ensures forall i, j :: 0 <= i < j < |wants| ==> wants[i].tons >= wants[j].tons
  {
    var sorted := SortDesc(Demanded(k, owner, AllResources));
    DemandedSortedMembers(k, owner, AllResources, sorted);
    DemandedSortedDescend(k, owner, AllResources, sorted);
    assert forall q :: q in AllResources by {
      forall q ensures q in AllResources { AllResourcesComplete(q); }
    }
    WantsOf(k, owner, sorted)
  }

  /** The ranked resources as wants of their truncated demand. */
  function WantsOf(k: Market, owner: City, sorted: seq<Ranked<Resource>>): (wants: seq<Want>)
    ensures |wants| == |sorted|
    ensures forall i :: 0 <= i < |sorted| ==> wants[i] == Want(sorted[i].item, Trunc(k.demand(owner, sorted[i].item)))
  {
    if |sorted| == 0 then [] else [Want(sorted[0].item, Trunc(k.demand(owner, sorted[0].item)))] + WantsOf(k, owner, sorted[1..])
  }

  /** Sorting the demanded resources keeps exactly those with positive
      demand. */
  lemma DemandedSortedMembers(k: Market, owner: City, rs: seq<Resource>, sorted: seq<Ranked<Resource>>)
    requires sorted == SortDesc(Demanded(k, owner, rs))
    ensures forall i :: 0 <= i < |sorted| ==>
      k.demand(owner, sorted[i].item) > 0.0 && sorted[i].rank == Finite(Trunc(k.demand(owner, sorted[i].item)) as real)
    ensures forall q :: q in rs && k.demand(owner, q) > 0.0 ==> exists i :: 0 <= i < |sorted| && sorted[i].item == q
  {
    var demanded := Demanded(k, owner, rs);
    SortedMembers(demanded);
    forall i | 0 <= i < |sorted|
      ensures k.demand(owner, sorted[i].item) > 0.0 && sorted[i].rank == Finite(Trunc(k.demand(owner, sorted[i].item)) as real)
    {
      assert sorted[i] in demanded;
    }
    forall q | q in rs && k.demand(owner, q) > 0.0 ensures exists i :: 0 <= i < |sorted| && sorted[i].item == q {
      var x := Ranked(q, Finite(Trunc(k.demand(owner, q)) as real));
      assert x in sorted;
      var i :| 0 <= i < |sorted| && sorted[i] == x;
    }
  }

  /** The sorted demanded resources come largest truncated demand first. */
  lemma DemandedSortedDescend(k: Market, owner: City, rs: seq<Resource>, sorted: seq<Ranked<Resource>>)
    requires sorted == SortDesc(Demanded(k, owner, rs))
    ensures forall i, j :: 0 <= i < j < |sorted| ==>
      Trunc(k.demand(owner, sorted[i].item)) >= Trunc(k.demand(owner, sorted[j].item))
  {
    var demanded := Demanded(k, owner, rs);
    SortedMembers(demanded);
    forall i, j | 0 <= i < j < |sorted|
      ensures Trunc(k.demand(owner, sorted[i].item)) >= Trunc(k.demand(owner, sorted[j].item))
    {
      assert sorted[i] in demanded && sorted[j] in demanded;
    }
  }

  /** The prices of one city, read all at once. */
  function PricesAt(k: Market, c: City): PerResource<real> {
    PerResource(k.price(c, Food), k.price(c, Goods), k.price(c, Luxuries), k.price(c, Cannons))
  }

  /** The excess supplies of one city, read all at once. */
  function ExcessesAt(k: Market, c: City): PerResource<real> {
    PerResource(k.excess(c, Food), k.excess(c, Goods), k.excess(c, Luxuries), k.excess(c, Cannons))
  }

  /** The hold's gold plus its cargo valued at the given prices. */
  function Worth(h: Hold, prices: PerResource<real>): real {
    h.gold + h.cargo.food as real * prices.food + h.cargo.goods as real * prices.goods
      + h.cargo.luxuries as real * prices.luxuries + h.cargo.cannons as real * prices.cannons
  }

  /** The loop of `_buy_cargo_at_destination`. The destination does not
      change while the ship buys, so its prices and excess supplies are
      read once. Every ton bought is paid at the port's price, so the
      hold's worth at those prices is what it was. */
  function BuyWants(h: Hold, prices: PerResource<real>, excesses: PerResource<real>, maxHold: int, wants: seq<Want>): (h': Hold)
    requires forall r :: prices.Get(r) > 0.0 && excesses.Get(r) >= 0.0
    requires forall i :: 0 <= i < |wants| ==> wants[i].tons >= 0
    ensures h'.sold == h.sold && h'.gold <= h.gold
    ensures Worth(h', prices) == Worth(h, prices)
    ensures forall r :: h'.cargo.Get(r) >= h.cargo.Get(r)
    ensures maxHold - Tons(h.cargo) <= 0 || h.gold <= 0.0 ==> h' == h
    decreases |wants|
  {
    if |wants| == 0 then h
    else
      var room := maxHold - Tons(h.cargo);
      if room <= 0 || h.gold <= 0.0 then h
      else
        var r := wants[0].resource;
        var price := prices.Get(r);
        var n := WantTons(room, h.gold, wants[0].tons, excesses.Get(r), price);
        var next := Bought(h, r, n, price);
        WorthAfterBuy(h, prices, r, n);
        BuyWants(next, prices, excesses, maxHold, wants[1..])
  }

  /** Default buying keeps the cargo within the hold and the gold
      non-negative. */
  lemma {:induction false} BuyWantsStowed(h: Hold, prices: PerResource<real>, excesses: PerResource<real>, maxHold: int, wants: seq<Want>)
    requires forall r :: prices.Get(r) > 0.0 && excesses.Get(r) >= 0.0
    requires forall i :: 0 <= i < |wants| ==> wants[i].tons >= 0
    requires Stowed(h, maxHold)
    ensures Stowed(BuyWants(h, prices, excesses, maxHold, wants), maxHold)
    decreases |wants|
  {
    if |wants| > 0 {
      var room := maxHold - Tons(h.cargo);
      if room > 0 && h.gold > 0.0 {
        var r := wants[0].resource;
        var price := prices.Get(r);
        var n := WantTons(room, h.gold, wants[0].tons, excesses.Get(r), price);
        BoughtStowed(h, r, n, price, maxHold);
        BuyWantsStowed(Bought(h, r, n, price), prices, excesses, maxHold, wants[1..]);
      }
    }
  }

  /** A purchase that fits the room and the gold keeps the hold stowed. */
  lemma BoughtStowed(h: Hold, r: Resource, n: int, price: real, maxHold: int)
    requires Stowed(h, maxHold) && 0 <= n <= maxHold - Tons(h.cargo) && n as real * price <= h.gold
    ensures Stowed(Bought(h, r, n, price), maxHold)
  {
  }

  /** Buying at the listed price leaves the worth at those prices alone. */
  lemma WorthAfterBuy(h: Hold, prices: PerResource<real>, r: Resource, n: int)
    ensures Worth(Bought(h, r, n, prices.Get(r)), prices) == Worth(h, prices)
  {
    var h' := Bought(h, r, n, prices.Get(r));
    match r
    case Food => assert (h.cargo.food + n) as real * prices.food == h.cargo.food as real * prices.food + n as real * prices.food;
    case Goods => assert (h.cargo.goods + n) as real * prices.goods == h.cargo.goods as real * prices.goods + n as real * prices.goods;
    case Luxuries => assert (h.cargo.luxuries + n) as real * prices.luxuries == h.cargo.luxuries as real * prices.luxuries + n as real * prices.luxuries;
    case Cannons => assert (h.cargo.cannons + n) as real * prices.cannons == h.cargo.cannons as real * prices.cannons + n as real * prices.cannons;
  }

  /** Whole tons bought for one want: int(min(room, min(gold, min(tons,
      excess) * price) / price)). Never more than the room or the gold
      allows. */
  function WantTons(room: int, gold: real, tons: int, excess: real, price: real): (n: int)
    requires room > 0 && gold > 0.0 && tons >= 0 && excess >= 0.0 && price > 0.0
    ensures 0 <= n <= room && n as real * price <= gold
    ensures n as real <= tons as real && n as real <= excess
  {
    var wanted := Min(tons as real, excess);
    var maxCost := wanted * price;
    var spend := Min(gold, maxCost);
    MulMonotone(0.0, wanted, price);
    var q := spend / price;
    QuotientAtLeast(spend, 0.0, price);
    QuotientAtMost(spend, wanted, price);
    assert q * price == spend;
    var n := Trunc(Min(room as real, q));
    assert 0 <= n && n as real <= q;
    MulMonotone(n as real, q, price);
    n
  }

  /** The hold after buying `n` tons of `r` at `price`. */
  function Bought(h: Hold, r: Resource, n: int, price: real): (h': Hold)
    ensures h'.cargo.Get(r) == h.cargo.Get(r) + n
    ensures forall q :: q != r ==> h'.cargo.Get(q) == h.cargo.Get(q)
    ensures Tons(h'.cargo) == Tons(h.cargo) + n
    ensures h'.gold == h.gold - n as real * price && h'.sold == h.sold
  {
    TonsAfterSet(h.cargo, r, h.cargo.Get(r) + n);
    h.(cargo := h.cargo.Set(r, h.cargo.Get(r) + n), gold := h.gold - n as real * price)
  }

  /** `_buy_cargo_at_destination`: buys what the owner's snapshot demands.
      Cargo stays within the hold and gold non-negative; the destination's
      stock and gold are not touched (the city is not an argument of the
      result); a full hold buys nothing. */
  function BuyCargoAtDestination(k: Market, h: Hold, dest: City, owner: City, maxHold: int): (h': Hold)
    requires k.Sound()
    ensures h'.sold == h.sold && h'.gold <= h.gold
    ensures Worth(h', PricesAt(k, dest)) == Worth(h, PricesAt(k, dest))
    ensures forall r :: h'.cargo.Get(r) >= h.cargo.Get(r)
    ensures maxHold - Tons(h.cargo) <= 0 || h.gold <= 0.0 ==> h' == h
  {
    var wants := CargoToBuy(k, owner);
    assert forall i :: 0 <= i < |wants| ==> wants[i].tons >= 0;
    BuyWants(h, PricesAt(k, dest), ExcessesAt(k, dest), maxHold, wants)
  }

  /** Default buying keeps a stowed hold stowed. */
  lemma BuyCargoStowed(k: Market, h: Hold, dest: City, owner: City, maxHold: int)
    requires k.Sound() && Stowed(h, maxHold)
    ensures Stowed(BuyCargoAtDestination(k, h, dest, owner, maxHold), maxHold)
  {
    var wants := CargoToBuy(k, owner);
    assert forall i :: 0 <= i < |wants| ==> wants[i].tons >= 0;
    BuyWantsStowed(h, PricesAt(k, dest), ExcessesAt(k, dest), maxHold, wants);
  }

  // ---------------------------------------------------------------------
  // Loading at departure and settling at home

  /** No resource appears twice. */
  predicate Distinct(order: seq<Resource>) {
    forall i, j :: 0 <= i < j < |order| ==> order[i] != order[j]
  }

  /** The loading loop of `_load_cargo_to_sell`, in the order and with the
      excesses computed once from the home city before loading. It stops
      at the first resource with no room left or no excess. Only the
      hold's cargo and the city's stock change, and only for resources in
      the order. */
  function LoadInOrder(k: Market, home0: City, maxHold: int, d: Deal, order: seq<Resource>): (e: Deal)
    ensures OnlyMarketChanged(d.city, e.city) && e.city.gold == d.city.gold
    ensures e.hold.sold == d.hold.sold && e.hold.gold == d.hold.gold
    ensures forall r :: r !in order ==> e.hold.cargo.Get(r) == d.hold.cargo.Get(r) && e.city.stock.Get(r) == d.city.stock.Get(r)
    decreases |order|
  {
    if |order| == 0 then d
    else
      var r := order[0];
      var room := maxHold - Tons(d.hold.cargo);
      var excess := k.excess(home0, r);
      if room <= 0 || excess <= 0.0 then d
      else
        var next := Deal(
          d.hold.(cargo := d.hold.cargo.Set(r, Trunc(Min(excess, room as real)))),
          d.city.(stock := d.city.stock.Set(r, d.city.stock.Get(r) - Trunc(Min(excess, room as real)) as real)));
        LoadInOrder(k, home0, maxHold, next, order[1..])
  }

  /** Over an order without repeats, each resource is either left alone or
      its cargo is overwritten by whole tons, at most the home's excess
      supply, which leave the city's stock exactly. */
  lemma {:induction false} LoadInOrderTakes(k: Market, home0: City, maxHold: int, d: Deal, order: seq<Resource>)
    requires Distinct(order)
    ensures var e := LoadInOrder(k, home0, maxHold, d, order);
      forall r ::
        || (e.hold.cargo.Get(r) == d.hold.cargo.Get(r) && e.city.stock.Get(r) == d.city.stock.Get(r))
        || (&& e.city.stock.Get(r) == d.city.stock.Get(r) - e.hold.cargo.Get(r) as real
            && 0 <= e.hold.cargo.Get(r) && e.hold.cargo.Get(r) as real <= k.excess(home0, r))
    decreases |order|
  {
    if |order| > 0 {
      var r := order[0];
      var room := maxHold - Tons(d.hold.cargo);
      var excess := k.excess(home0, r);
      if room > 0 && excess > 0.0 {
        var n := Trunc(Min(excess, room as real));
        var next := Deal(
          d.hold.(cargo := d.hold.cargo.Set(r, n)),
          d.city.(stock := d.city.stock.Set(r, d.city.stock.Get(r) - n as real)));
        assert LoadInOrder(k, home0, maxHold, d, order) == LoadInOrder(k, home0, maxHold, next, order[1..]);
        assert r !in order[1..] by {
          forall i | 0 <= i < |order[1..]| ensures order[1..][i] != r {
            assert order[1..][i] == order[i + 1];
          }
        }
        assert Distinct(order[1..]) by {
          forall i, j | 0 <= i < j < |order[1..]| ensures order[1..][i] != order[1..][j] {
            assert order[1..][i] == order[i + 1] && order[1..][j] == order[j + 1];
          }
        }
        LoadInOrderTakes(k, home0, maxHold, next, order[1..]);
      }
    }
  }

  /** Loading keeps a non-negative cargo within the hold: each overwrite
      fits the room that was left. */
  lemma {:induction false} LoadInOrderFits(k: Market, home0: City, maxHold: int, d: Deal, order: seq<Resource>)
    requires NonNegative(d.hold.cargo) && Tons(d.hold.cargo) <= maxHold
    ensures var e := LoadInOrder(k, home0, maxHold, d, order);
      NonNegative(e.hold.cargo) && Tons(e.hold.cargo) <= maxHold
    decreases |order|
  {
    if |order| > 0 {
      var r := order[0];
      var room := maxHold - Tons(d.hold.cargo);
      var excess := k.excess(home0, r);
      if room > 0 && excess > 0.0 {
        var n := Trunc(Min(excess, room as real));
        var next := Deal(
          d.hold.(cargo := d.hold.cargo.Set(r, n)),
          d.city.(stock := d.city.stock.Set(r, d.city.stock.Get(r) - n as real)));
        assert LoadInOrder(k, home0, maxHold, d, order) == LoadInOrder(k, home0, maxHold, next, order[1..]);
        assert 0 <= n <= room;
        TonsAfterSet(d.hold.cargo, r, n);
        PartBelowTons(d.hold.cargo, r);
        assert Tons(next.hold.cargo) <= maxHold;
        assert NonNegative(next.hold.cargo);
        LoadInOrderFits(k, home0, maxHold, next, order[1..]);
      }
    }
  }

  /** `_load_cargo_to_sell` with `u` = `random.random()`: loads from the
      home city in order of its excess supply, then overwrites the ship's
      gold with int(0.3 * u * home gold), which the home pays. */
  function LoadCargoToSell(k: Market, h: Hold, home: City, maxHold: int, u: real): (e: Deal)
    requires 0.0 <= u < 1.0
    ensures OnlyMarketChanged(home, e.city) && e.hold.sold == h.sold
    ensures e.hold.gold + e.city.gold == home.gold
    ensures home.gold >= 0.0 ==> 0.0 <= e.hold.gold <= 0.3 * home.gold && e.city.gold >= 0.0
  {
    var loaded := LoadInOrder(k, home, maxHold, Deal(h, home), ExcessOrder(k, home));
    var g := GoldShare(u, loaded.city.gold);
    Deal(loaded.hold.(gold := g), loaded.city.(gold := loaded.city.gold - g))
  }

  /** The resources of the home city in order of excess supply are all
      different. */
  lemma ExcessOrderDistinct(k: Market, home: City)
    ensures Distinct(ExcessOrder(k, home))
  {
    var order := ExcessOrder(k, home);
    CompleteOrderDistinct(order);
  }

  /** Four entries naming all four resources name each exactly once. */
  lemma CompleteOrderDistinct(order: seq<Resource>)
    requires |order| == |AllResources| && forall r :: r in order
    ensures Distinct(order)
  {
    assert Food in order && Goods in order && Luxuries in order && Cannons in order;
    var f :| 0 <= f < 4 && order[f] == Food;
    var g :| 0 <= g < 4 && order[g] == Goods;
    var l :| 0 <= l < 4 && order[l] == Luxuries;
    var c :| 0 <= c < 4 && order[c] == Cannons;
    forall i, j | 0 <= i < j < |order| ensures order[i] != order[j] {
      assert i == f || i == g || i == l || i == c;
      assert j == f || j == g || j == l || j == c;
    }
  }

  /** Loading at departure: each resource is left alone or its cargo is
      overwritten by whole tons, at most the home's excess supply, taken
      from the home's stock; a non-negative hold within its size stays so,
      and with a solvent home the ship's gold is non-negative. */
  lemma LoadCargoStowed(k: Market, h: Hold, home: City, maxHold: int, u: real)
    requires 0.0 <= u < 1.0
    ensures var e := LoadCargoToSell(k, h, home, maxHold, u);
      forall r ::
        || (e.hold.cargo.Get(r) == h.cargo.Get(r) && e.city.stock.Get(r) == home.stock.Get(r))
        || (&& e.city.stock.Get(r) == home.stock.Get(r) - e.hold.cargo.Get(r) as real
            && 0 <= e.hold.cargo.Get(r) && e.hold.cargo.Get(r) as real <= k.excess(home, r))
    ensures NonNegative(h.cargo) && Tons(h.cargo) <= maxHold && home.gold >= 0.0 ==>
      Stowed(LoadCargoToSell(k, h, home, maxHold, u).hold, maxHold)
  {
    var order := ExcessOrder(k, home);
    ExcessOrderDistinct(k, home);
    LoadInOrderTakes(k, home, maxHold, Deal(h, home), order);
    if NonNegative(h.cargo) && Tons(h.cargo) <= maxHold {
      LoadInOrderFits(k, home, maxHold, Deal(h, home), order);
    }
  }

  /** The gold a departing ship takes: int(0.3 * u * gold), a whole
      amount no more than 30% of a non-negative treasury. */
  function GoldShare(u: real, gold: real): (g: real)
    requires 0.0 <= u < 1.0
    ensures g == g.Floor as real
    ensures gold >= 0.0 ==> 0.0 <= g <= 0.3 * gold
  {
    var x := 0.3 * u * gold;
    assert gold >= 0.0 ==> 0.0 <= x <= 0.3 * gold by {
      if gold >= 0.0 {
        MulMonotone(u, 1.0, 0.3 * gold);
        MulMonotone(0.0, u, 0.3 * gold);
      }
    }
    Trunc(x) as real
  }

  /** Adds the cargo to a city's stock. */
  function Unload(stock: PerResource<real>, cargo: PerResource<int>): PerResource<real> {
    PerResource(stock.food + cargo.food as real, stock.goods + cargo.goods as real,
                stock.luxuries + cargo.luxuries as real, stock.cannons + cargo.cannons as real)
  }

  /** The owner's city once the ship's gold and cargo are handed over:
      the emptied ship and its owner together hold every ton and every
      coin that ship and owner held before, and only the owner's market
      changed. */
  function PayIn(h: Hold, home: City): (c: City)
    ensures Conserves(Deal(h, home), Deal(EmptyHold, c))
    ensures OnlyMarketChanged(home, c)
  {
    home.(gold := home.gold + h.gold, stock := Unload(home.stock, h.cargo))
  }

  /** `_arrive_home`: the owner takes all cargo and gold, the ship is
      emptied, and the owner buys the ship's destination snapshot with its
      fee refunded. Tons and gold are conserved between ship and owner;
      the owner's information is what the purchase leaves. */
  function ArriveHome(h: Hold, home: City, destInfo: City): (e: Deal)
    ensures e.hold == EmptyHold
    ensures Conserves(Deal(h, home), e)
    ensures e.city == home.(stock := e.city.stock, gold := e.city.gold, information := e.city.information)
    ensures e.city.information == CityInfo.BuyCityInfo(PayIn(h, home), destInfo).buyer.information
  {
    var paidIn := PayIn(h, home);
    var sale := CityInfo.BuyCityInfo(paidIn, destInfo);
    var owner := sale.buyer.(gold := sale.buyer.gold + sale.fee);
    assert owner.gold == home.gold + h.gold;
    assert owner.stock == paidIn.stock;
    Deal(EmptyHold, owner)
  }

  // ---------------------------------------------------------------------
  // Single orders and the arrival home, as the test suite exercises them

  /** One bounded sell order for a resource on board: the tons recorded as
      sold are at most the target, leave the hold and arrive in the port's
      stock, and the ship gains no less gold than it had. */
  lemma SingleSellOrder(k: Market, d: Deal, r: Resource, tons: real)
    requires d.city.gold >= 0.0 && tons >= 0.0 && d.hold.cargo.Get(r) > 0
    ensures var e := SellPerAgenda(k, d, [(r, SellUpTo(tons))]);
      var sold := e.hold.sold.Get(r);
      && 0 <= sold && sold as real <= tons
      && e.hold.cargo.Get(r) == d.hold.cargo.Get(r) - sold
      && e.city.stock.Get(r) == d.city.stock.Get(r) + sold as real
      && e.hold.gold >= d.hold.gold
  {
    var e := SellOrder(k, d, r, SellUpTo(tons));
    assert SellPerAgenda(k, d, [(r, SellUpTo(tons))]) == SellPerAgenda(k, e, []);
  }

  /** One bounded buy order at a port no dearer than any later stop, with
      the need covered by the port's excess supply, the room in the hold
      and the gold on board: exactly the need is bought at this port's
      price. */
  lemma SingleBuyOrder(k: Market, others: seq<City>, maxHold: int, d: Deal, r: Resource, tons: real)
    requires k.Sound() && CheapestHere(k, d.city, others, r)
    requires var n := Need(tons, d.hold.cargo.Get(r));
      && n > 0 && n <= maxHold - Tons(d.hold.cargo)
      && n as real <= k.excess(d.city, r)
      && n as real * k.price(d.city, r) <= d.hold.gold
    ensures var e := BuyPerAgenda(k, others, maxHold, d, [(r, BuyUpTo(tons))]);
      var n := Need(tons, d.hold.cargo.Get(r));
      && e.hold.cargo.Get(r) == d.hold.cargo.Get(r) + n
      && e.hold.gold == d.hold.gold - n as real * k.price(d.city, r)
  {
    var n := Need(tons, d.hold.cargo.Get(r));
    var price := k.price(d.city, r);
    QuotientAtLeast(d.hold.gold, n as real, price);
    assert (d.hold.gold / price).Floor >= n;
    assert OrderTons(k, others, maxHold, d, r, BuyUpTo(tons)) == n;
    var e := BuyOrder(k, others, maxHold, d, r, BuyUpTo(tons));
    assert BuyPerAgenda(k, others, maxHold, d, [(r, BuyUpTo(tons))]) == BuyPerAgenda(k, others, maxHold, e, []);
  }

  /** An owner that does not know the destination and can afford one fee
      once the ship's gold is paid in learns the destination's snapshot on
      the ship's return. */
  lemma ArriveHomeLearnsDestination(h: Hold, home: City, destInfo: City)
    requires CityInfo.Keyed(destInfo.information)
    requires CityInfo.Lookup(home.information, destInfo.name).None?
    requires home.gold + h.gold >= CityInfo.InformationPrice
    ensures CityInfo.Lookup(ArriveHome(h, home, destInfo).city.information, destInfo.name) == Some(CityInfo.SelfEntry(destInfo))
  {
    CityInfo.SourceLearnedFirst(PayIn(h, home), destInfo);
  }
}
