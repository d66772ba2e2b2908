# Pirate Cities: the city economy and the trading ship, in Dafny

This project models the deterministic core of the Pirate Cities trading
simulation. A *city* holds gold and stocks of four resources (food, goods,
luxuries, cannons). Its population follows a logistic law towards a capacity
computed from its stocks. Prices follow demand over supply. Each city keeps
snapshots of the other cities, which it buys at a fixed fee. A *ship* follows
a route of ports that ends at its owner's home city. It may also follow an
agenda of sell and buy orders per port. Each iteration the ship travels,
handles an arrival and departs. At a port it sells cargo, buys cargo and sells
the owner's information to the port. At home it hands everything to its owner.

The model is functional:

- a city is an immutable `City` value;
- the ship's cities live in a `World` map keyed by city name;
- every operation returns the new ship and the new world.

The float arithmetic becomes exact real arithmetic. The transcendental
functions come in as a `Maths` parameter:

- `x ** 0.5` and `10 ** x`;
- the constant `exp(-0.5)`, known only to lie in (0.6, 0.61);
- numpy's result for a division by zero, left unspecified.

The random draws are parameters too:

- `u` stands for `random.random()` in [0, 1);
- `rate` stands for the port's handling rate in [10, 50].

Where the Python would raise, the model returns `None`. This covers
`route[-1]` on an empty route, a stop index past the route, and an `in` test
on a missing agenda.

Files, in dependency order:

- `numerics.dfy`: `Option`, `Maths`, and Python's `int()`, `math.ceil`, `min`, `max` and `np.clip` over reals.
- `resources.dfy`: the resources, per-resource tables and the constants of the economy.
- `ranking.dfy`: `sorted(..., reverse=True)` as a stable insertion sort over ranks that may be infinite.
- `cities.dfy`: capacity, population, freezing, demand, supply, excess supply, price and the city's step.
- `cityinfo.dfy`: `buy_city_info`, the market in city snapshots.
- `shipspecs.dfy`: ship speeds, ship types and `ShipSpec.from_type`.
- `trading.dfy`: the ship's trading rules (selling, buying, loading, settling at home).
- `ships.dfy`: the ship itself (itinerary, travel, arrival, departure, step) and the invariant that the step keeps.

## Model

| member | source | states |
|---|---|---|
| Numerics.Trunc | src/pirate_cities/ship.py:377-379 | `int()` on a float rounds toward zero: it stays within one whole unit of the argument, on the side of zero |
| Numerics.Ceil | src/pirate_cities/ship.py:431 | `math.ceil` is the least integer not below its argument |
| Numerics.Clip | src/pirate_cities/city.py:236-239 | `np.clip` lands in [lo, hi], leaves a value inside the bounds alone and maps a value outside to the nearer bound |
| Resources.Set | src/pirate_cities/city.py:246-248 | writing one resource of a city or a hold leaves the other resources as they were |
| Resources.TonsAfterSet | src/pirate_cities/ship.py:360-362 | after one resource's tons are changed, the total tons change by the same amount |
| Resources.ConsumptionExceedsProduction | src/pirate_cities/city.py:45-65 | for every resource, the per-capita production is non-negative and strictly below the per-capita consumption |
| Ranking.Insert | src/pirate_cities/city.py:303-307 | inserting one element adds exactly that element: the result is the input plus it, as a multiset |
| Ranking.InsertDescending | src/pirate_cities/city.py:303-307 | inserting into a sequence that is in descending order keeps it in descending order |
| Ranking.SortDesc | src/pirate_cities/city.py:303-307 | `sorted(reverse=True)` returns a permutation of its input, highest rank first |
| Ranking.SortedMembers | src/pirate_cities/ship.py:357 | sorting keeps exactly the elements it was given |
| Ranking.SortDescStable | src/pirate_cities/city.py:303-307 | the sort is stable: the elements of any one rank come out in their original order |
| Ranking.TopRankFirst | src/pirate_cities/city.py:303-307 | in a descending ranking that holds an infinite rank, the first entry is infinite and is the first of the infinite entries |
| Cities.LiveBaseCapacity | src/pirate_cities/city.py:175-180 | the food-driven base capacity lies strictly between 0 and INITIAL_CAPACITY = 100 |
| Cities.BaseCapacityGrowsWithFood | src/pirate_cities/city.py:179 | more food never lowers the base capacity |
| Cities.CapacityAtLeastBase | src/pirate_cities/city.py:182-189 | a city with non-negative gold and stocks has a capacity at least its base capacity, which lies in (0, 100) |
| Cities.Freeze | src/pirate_cities/city.py:200-206 | freezing caches base capacity, capacity and population, changes nothing else, and leaves the three values the city reports unchanged |
| Cities.UnfreezeUndoesFreeze | src/pirate_cities/city.py:200-210 | unfreezing undoes freezing: a live city frozen and unfrozen is the city it was, and a city that trades while frozen reports, once unfrozen, the base capacity, capacity and population of its new stock, gold and base population, whatever the capture held |
| Cities.FreezeIdempotent | src/pirate_cities/city.py:200-206 | freezing a frozen city changes nothing |
| Cities.FrozenValuesIgnoreState | src/pirate_cities/city.py:177-198 | while frozen, base capacity, capacity and population do not follow changes to stocks, gold or base population |
| Cities.LogisticBetween | src/pirate_cities/city.py:194-198 | the logistic population is positive, lies between the base population and the capacity, and equals the capacity exactly when the base population does |
| Cities.PopulationBetween | src/pirate_cities/city.py:191-198 | for a live city, the population lies between the base population and the capacity; it lies strictly below the capacity exactly when the base population does |
| Cities.ExcessSupply | src/pirate_cities/city.py:220-225 | the excess supply is never negative; it is zero exactly when supply does not exceed demand; otherwise it is below the surplus |
| Cities.PriceLaw | src/pirate_cities/city.py:231-240 | a price stays within [1e-6, 200]; no demand gives the floor, and demand with no supply gives the ceiling |
| Cities.Price | src/pirate_cities/city.py:231-240 | every price a city quotes is positive and within the price limits, with the floor and ceiling cases of the price law |
| Cities.PriceLawMonotone | src/pirate_cities/city.py:236-240 | given a monotone square root, a higher demand-to-supply ratio never gives a lower price |
| Cities.EmptyStorePricesAtCeiling | src/pirate_cities/city.py:231-235 | a live city with people and no stock of a resource quotes that resource at the ceiling price of 200 |
| Cities.Step | src/pirate_cities/city.py:250-280 | a step changes each stock by population times (production minus consumption), with the population frozen at step entry; it scales the base population by the growth factor, drops the cache, ages the city by one iteration, and keeps name, location, gold and information |
| Cities.StepDrainsStocks | src/pirate_cities/city.py:254-257 | a populated city ends every step with less of every resource than it started with |
| Cities.GrowthTowardCapacity | src/pirate_cities/city.py:276-277 | the base population stays positive and moves toward the capacity: it grows exactly when below it, holds exactly when at it, and shrinks exactly when above it |
| Cities.GrowthFactorSign | src/pirate_cities/city.py:277 | the growth factor is positive, and is above, at or below one exactly when the base population is below, at or above the capacity |
| CityInfo.Lookup | src/pirate_cities/city.py:296-298 | looking up a name gives an entry of that name when there is one, and `None` only when no entry carries it |
| CityInfo.LookupKeyed | src/pirate_cities/city.py:170 | in a dict keyed by name, looking up an entry's name finds that entry |
| CityInfo.Store | src/pirate_cities/city.py:313 | storing a snapshot makes its name look up to it and leaves every other name as it was |
| CityInfo.StoreFirstKeeps | src/pirate_cities/city.py:310-315 | storing the first k offers leaves alone any name that none of them carries |
| CityInfo.StoreFirstFinds | src/pirate_cities/city.py:310-315 | after storing the first k offers, each of their names looks up to one of the offered snapshots |
| CityInfo.Without | src/pirate_cities/city.py:291 | removing a name removes exactly that name's entry and keeps the others |
| CityInfo.Candidates | src/pirate_cities/city.py:291 | `{source.name: source} \| source.information` puts the source's name first, with the right-hand snapshot winning for that name; every other name keeps the source's snapshot; no name is repeated |
| CityInfo.Offers | src/pirate_cities/city.py:293-300 | the offers are exactly the candidates that are unknown to the buyer or strictly more recent than its copy, each ranked by its priority |
| CityInfo.RankedAreOffers | src/pirate_cities/city.py:302-307 | sorting the offers keeps exactly the offers |
| CityInfo.RankedOffersAreNewer | src/pirate_cities/city.py:293-307 | an offer is on sale exactly when it is a candidate newer than the buyer's copy, carrying its priority |
| CityInfo.RankedOffersOrder | src/pirate_cities/city.py:302-307 | unknown names are sold before known ones, and among known ones the most outdated comes first |
| CityInfo.Affordable | src/pirate_cities/city.py:310-312 | a buyer never buys more facts than are offered, and a buyer with less than 100 gold buys none |
| CityInfo.AffordableClosedForm | src/pirate_cities/city.py:310-315 | a solvent buyer buys min(offers, floor(gold / 100)) facts |
| CityInfo.AffordableWithinGold | src/pirate_cities/city.py:310-315 | a solvent buyer never pays more than the gold it has |
| CityInfo.Acquire | src/pirate_cities/city.py:309-317 | the fee is 100 per fact bought; it comes off the buyer's gold, and only the buyer's gold and information change |
| CityInfo.AcquireStores | src/pirate_cities/city.py:310-315 | the buyer's information is its old information with the first affordable offers stored in rank order |
| CityInfo.BuyCityInfo | src/pirate_cities/city.py:282-317 | the returned fee is 100 per fact bought and is deducted from the buyer's gold; nothing but gold and information changes; a solvent buyer pays a non-negative fee and stays solvent; a buyer below 100 gold buys nothing and is unchanged |
| CityInfo.BuyCityInfoStores | src/pirate_cities/city.py:309-317 | the information after a purchase is the result of storing the affordable prefix of the ranked offers |
| CityInfo.AcquiredPrefix | src/pirate_cities/city.py:310-315 | names outside the bought prefix keep their old entries; each name in the bought prefix looks up to its candidate snapshot |
| CityInfo.SourceLearnedFirst | src/pirate_cities/city.py:290-316 | a buyer that does not know the source and holds at least one fee ends up with the source's own snapshot stored under the source's name, since that entry comes first among the candidates, ranks as unknown and stays first under the stable sort |
| CityInfo.NothingNewerNoOffers | src/pirate_cities/city.py:295-300 | when no candidate is newer than the buyer's copy, nothing is offered |
| CityInfo.CaughtUpNewer | src/pirate_cities/city.py:310-315 | when the buyer can afford every offer, each newer candidate ends up stored under its name |
| CityInfo.CaughtUpStale | src/pirate_cities/city.py:298 | a candidate that is not newer never replaces the buyer's entry for its name |
| CityInfo.CaughtUpCandidate | src/pirate_cities/city.py:293-315 | after a purchase the buyer could fully afford, no candidate of that source is newer than the buyer's copy |
| CityInfo.CaughtUpBuysNothing | src/pirate_cities/city.py:282-317 | buying again from the same source, right after a fully affordable purchase, costs nothing |
| ShipSpecs.FromType | src/pirate_cities/ship.py:171-224 | every ship type's spec has its own type, a speed of 1 to 5 km per iteration, a hold of 20 to 140 tons and 8 to 48 cannons |
| Trading.CityMarket | src/pirate_cities/city.py:212-240 | the market the city model quotes to ships has positive prices and non-negative excess supplies |
| Trading.OrderByDesc | src/pirate_cities/ship.py:357 | a resource order by a key holds all four resources once each, highest key first |
| Trading.SortedKeepsResources | src/pirate_cities/ship.py:357 | sorting resources by a key loses none of them |
| Trading.SortedKeysDescend | src/pirate_cities/ship.py:357 | sorting resources by a key puts the keys in descending order |
| Trading.MarginOrder | src/pirate_cities/ship.py:349-357 | the margin order holds every resource, by destination price minus owner price, highest first |
| Trading.ExcessOrder | src/pirate_cities/ship.py:366-372 | the loading order holds every resource, by the home's excess supply, highest first |
| Trading.SaleTons | src/pirate_cities/ship.py:513-517 | a city never takes more tons than are offered, or more than its gold pays for; a city that can pay for all of them takes all |
| Trading.EarningsQuotient | src/pirate_cities/ship.py:513-517 | int(min(offered × price, gold) / price) lies between 0 and the offered tons, costs at most the gold, and equals the offered tons when the gold covers them |
| Trading.Transfer | src/pirate_cities/ship.py:519-522 | a sale moves n tons to the city and n × price gold to the ship; tons and gold are conserved and nothing else changes |
| Trading.SellInOrder | src/pirate_cities/ship.py:509-522 | selling through an order conserves tons and gold between ship and city, and changes only the city's stock and gold |
| Trading.SellInOrderBounded | src/pirate_cities/ship.py:509-522 | from a solvent city and a non-negative hold, selling never drives the city's gold or any cargo negative; the ship only gains gold and loses cargo |
| Trading.SellCargoAtDestination | src/pirate_cities/ship.py:507-522 | default selling conserves tons and gold between ship and port, and changes only the port's stock and gold |
| Trading.SellCargoBounded | src/pirate_cities/ship.py:507-522 | default selling never sells more than is carried, and the port never pays more gold than it has |
| Trading.SellOrder | src/pirate_cities/ship.py:447-461 | one agenda sell order conserves tons and gold and touches only its resource; with nothing on board it changes nothing; otherwise it records as sold exactly the tons that left the hold |
| Trading.SellPerAgenda | src/pirate_cities/ship.py:444-461 | agenda selling conserves tons and gold and leaves alone every resource no order names |
| Trading.SellPerAgendaRecordsSold | src/pirate_cities/ship.py:457-461 | with each resource ordered at most once, the sold record of each traded resource equals the tons that left the hold |
| Trading.SellPerAgendaBounded | src/pirate_cities/ship.py:451-460 | with non-negative targets, agenda selling never drives the port's gold or any cargo negative, and the ship only gains gold |
| Trading.SellPerAgendaWithinTargets | src/pirate_cities/ship.py:451 | a bounded sell order never sells more than its target |
| Trading.SingleSellOrder | tests/test_ship_itinerary.py:30-54 | a single bounded sell order for a resource on board sells at most its target; the tons recorded as sold leave the hold and arrive in the port's stock; the ship ends with at least its gold |
| Trading.Need | src/pirate_cities/ship.py:471 | the tons still needed are never negative and cover int(target) minus what is on board |
| Trading.OrderTons | src/pirate_cities/ship.py:470-488 | an agenda buy order takes tons only when something is still needed and this port's price is no higher than at any remaining stop; it then takes no more than the room in the hold, the port's excess supply, the need and what the gold pays for |
| Trading.CapByGold | src/pirate_cities/ship.py:487-488 | tons capped by the gold never exceed what is available, and never cost more than the gold |
| Trading.Take | src/pirate_cities/ship.py:491-493 | a purchase moves n tons from the port's stock into the hold and takes n × price from the ship; the port's gold does not change |
| Trading.BuyOrder | src/pirate_cities/ship.py:468-493 | one agenda buy order moves exactly the tons that `OrderTons` allows, touches only its resource, and keeps a stowed hold stowed |
| Trading.BuyPerAgenda | src/pirate_cities/ship.py:463-493 | agenda buying conserves tons between ship and port; the ship only gains cargo and spends gold; the port's gold does not change |
| Trading.BuyPerAgendaStowed | src/pirate_cities/ship.py:480-488 | agenda buying keeps the cargo within the hold and the gold non-negative |
| Trading.SingleBuyOrder | tests/test_ship_itinerary.py:57-86 | a single bounded buy order, at a port no dearer than any remaining stop, whose need the excess supply, the room and the gold all cover, buys exactly the need at this port's price |
| Trading.FullHoldBuysNothing | src/pirate_cities/ship.py:480-482 | with a full hold, agenda buying changes nothing, whatever the orders, gold or prices |
| Trading.Demanded | src/pirate_cities/ship.py:498-502 | the demanded resources are exactly those the owner demands a positive amount of, each ranked by its truncated demand |
| Trading.CargoToBuy | src/pirate_cities/ship.py:495-505 | `cargo_to_buy` lists every resource with positive demand, each with its demand truncated to whole tons, largest first |
| Trading.WantsOf | src/pirate_cities/ship.py:505 | each want carries its resource and that resource's truncated demand |
| Trading.DemandedSortedMembers | src/pirate_cities/ship.py:498-505 | sorting keeps exactly the resources with positive demand |
| Trading.DemandedSortedDescend | src/pirate_cities/ship.py:505 | the sorted wants come largest truncated demand first |
| Trading.BuyWants | src/pirate_cities/ship.py:526-548 | default buying only adds cargo and spends gold, at the port's prices, so the hold's worth at those prices is unchanged; a full hold or an empty purse buys nothing |
| Trading.BuyWantsStowed | src/pirate_cities/ship.py:526-548 | default buying keeps the cargo within the hold and the gold non-negative |
| Trading.BoughtStowed | src/pirate_cities/ship.py:547-548 | a purchase that fits the room and the gold keeps the hold stowed |
| Trading.WorthAfterBuy | src/pirate_cities/ship.py:547-548 | buying at the listed price leaves the hold's worth at those prices unchanged |
| Trading.WantTons | src/pirate_cities/ship.py:538-546 | the tons bought for one want fit the room, the gold, the want and the port's excess supply |
| Trading.Bought | src/pirate_cities/ship.py:547-548 | a purchase adds n tons of one resource and takes n × price gold; nothing else changes |
| Trading.BuyCargoAtDestination | src/pirate_cities/ship.py:524-548 | default buying only adds cargo and spends gold at the destination's prices, never touches the destination, and buys nothing with a full hold or no gold |
| Trading.BuyCargoStowed | src/pirate_cities/ship.py:524-548 | default buying keeps a stowed hold stowed |
| Trading.LoadInOrder | src/pirate_cities/ship.py:368-380 | loading changes only the hold's cargo and the home's stock, and only for resources in the order |
| Trading.LoadInOrderTakes | src/pirate_cities/ship.py:373-380 | each resource is either left alone or overwritten by whole tons, at most the home's excess supply, and exactly those tons leave the home's stock |
| Trading.LoadInOrderFits | src/pirate_cities/ship.py:373-379 | loading keeps a non-negative cargo within the hold |
| Trading.LoadCargoToSell | src/pirate_cities/ship.py:364-383 | departure loading changes only the home's stock and gold; the gold the ship takes is what the home loses; from a solvent home it is between 0 and 30% of the home's gold, and the home stays solvent |
| Trading.ExcessOrderDistinct | src/pirate_cities/ship.py:366-372 | the loading order names no resource twice |
| Trading.LoadCargoStowed | src/pirate_cities/ship.py:364-383 | departure loading takes whole tons within the home's excess supply out of its stock, and keeps a non-negative hold within its size |
| Trading.GoldShare | src/pirate_cities/ship.py:382 | the departing ship's gold is a whole amount between 0 and 30% of a non-negative treasury |
| Trading.PayIn | src/pirate_cities/ship.py:552-554 | handing the ship's gold and cargo to the owner conserves every ton and every coin between the emptied ship and the owner, and changes only the owner's stock and gold |
| Trading.ArriveHome | src/pirate_cities/ship.py:550-559 | at home the ship is emptied; tons and gold are conserved between ship and owner, since the information fee is refunded; the owner's information is what buying the destination snapshot leaves |
| Trading.ArriveHomeLearnsDestination | tests/test_ship.py:115-137 | an owner that does not know the destination, and has at least one fee once the ship's gold is paid in, stores under the destination's name the destination snapshot, or the snapshot of itself that the destination carries if it has one |
| Ships.Itinerary | src/pirate_cities/ship.py:284-286 | the route gets home appended unless it already ends there; the result ends at home and starts with the given route; an empty route fails |
| Ships.SetItinerary | src/pirate_cities/ship.py:279-291 | the new route starts with the given stops and ends at the given `start` city, the stop index is 0 and within the route, the next destination is the first given stop, the agenda is the one given, and the ship's identity, position and hold are untouched; an empty route fails |
| Ships.ForeignStartSkipsHome | src/pirate_cities/ship.py:284-286 | given a `start` other than the ship's home and stops that skip the home, the route never visits the home |
| Ships.NewShip | src/pirate_cities/ship.py:234-258 | a new ship of the given type lies at its home with no cargo and no gold, stowed, ready to leave on the first step for the first given stop, on a route that keeps the given stops and ends at home with the stop index inside it; an empty route fails |
| Ships.NewShipValid | src/pirate_cities/ship.py:234-258 | a new ship with a valid agenda in a solvent world satisfies the ship invariant |
| Ships.Speed | src/pirate_cities/ship.py:339 | a ship sails at least MIN_SHIP_SPEED_IN_KM_PER_DAY = 1 per iteration |
| Ships.Travel | src/pirate_cities/ship.py:328-347 | travel acts only at sea; it counts one more iteration en route and arrives exactly when the destination is within one speed, landing on its location; otherwise it stays at sea |
| Ships.TravelCloser | src/pirate_cities/ship.py:340-342 | given a true square root, a ship that does not arrive gets exactly one speed closer to its destination |
| Ships.StepShrinks | src/pirate_cities/ship.py:342 | moving speed/distance of the way along an offset of length d leaves an offset of length d minus speed |
| Ships.SailArrives | src/pirate_cities/ship.py:328-347 | given a true square root, a ship at sea reaches its destination within any number of iterations whose total speed covers the distance: every voyage ends |
| Ships.ArrivedStays | src/pirate_cities/ship.py:330-331 | travel leaves a ship that has arrived where it is |
| Ships.TwoIterationsToArrive | tests/test_ship.py:92-98 | for a ship at sea, a destination one and a half speeds away is not reached after one iteration and is reached after two |
| Ships.Depart | src/pirate_cities/ship.py:299-319 | departure fails exactly when a ship ready to leave has a stop index past a non-empty route; otherwise the ship keeps its identity and the world its cities |
| Ships.DepartWaits | src/pirate_cities/ship.py:300-307 | a ship at sea, or one still waiting, changes nothing but its wait, which counts down by one while waiting |
| Ships.DepartSails | src/pirate_cities/ship.py:309-319 | a ship ready to leave puts to sea from where it lies for the current stop, or home on an empty route; the ship's gold is exactly what the home loses; each resource is either untouched or loaded by tons that leave the home's stock; only the home changes, and only in its stock and gold |
| Ships.LaterStops | src/pirate_cities/ship.py:467 | the comparison cities are exactly the cities of the given stops, other than the port itself |
| Ships.Moved | src/pirate_cities/ship.py:426 | the tons moved are never negative, and are zero exactly when the cargo is unchanged |
| Ships.WaitFor | src/pirate_cities/ship.py:429-431 | the wait is the whole number of iterations needed to handle the moved tons at the port's rate, rounded up; it is zero exactly when nothing moved |
| Ships.SellAtPort | src/pirate_cities/ship.py:408-413 | selling at a port, by agenda or by margin, conserves tons and gold and changes only the port's stock and gold |
| Ships.BuyAtPort | src/pirate_cities/ship.py:415-420 | buying at a port only adds cargo and spends gold, and never changes the port's gold; agenda buying conserves tons; default buying leaves the port untouched |
| Ships.TradeAtPort | src/pirate_cities/ship.py:402-423 | trading at a port changes only the port's stock, gold and information; ship and port together never gain gold; agenda buying conserves tons, and default buying never loses any |
| Ships.RestOfRoute | src/pirate_cities/ship.py:467 | the stops after the current one are the route from the next index on, or nothing once the index has run past the route |
| Ships.OtherStopsAre | src/pirate_cities/ship.py:467 | the comparison cities are exactly the cities of the later stops, other than the port itself |
| Ships.OtherStopsCheapest | src/pirate_cities/ship.py:475-479 | the port is cheapest when its price is at most the minimum over itself and the later stops, that is, at most every later stop's price |
| Ships.PortTrade | src/pirate_cities/ship.py:402-423 | the trade at the destination changes only its stock, gold and information |
| Ships.CallAtPort | src/pirate_cities/ship.py:402-442 | calling at a port leaves the ship as `LeavePort` describes; in the world only the port changes, and only in its stock, gold and information; ship and port end with no more gold between them than they had |
| Ships.LeavePort | src/pirate_cities/ship.py:425-442 | after trading the ship waits for departure, for no iteration exactly when no cargo moved; the stop index advances while inside the route; the next destination is the next stop, or home when the route is done; nothing else about the ship changes but its hold |
| Ships.HandleArrival | src/pirate_cities/ship.py:385-442 | handling an arrival fails exactly when a ship without an agenda lands at a port other than home; outside port it changes nothing; otherwise the world keeps its cities and the ship its identity |
| Ships.HandleArrivalAtHome | src/pirate_cities/ship.py:390-399 | at the home's location the hold is emptied and the wait cleared; tons and gold are conserved between ship and owner; the owner's information is what buying the destination's snapshot, taken before the settlement, leaves; no other city changes |
| Ships.HandleArrivalAtPort | src/pirate_cities/ship.py:402-442 | at a port other than home the ship waits for departure, for no iteration exactly when no cargo moved, bound for the next stop or home; only the port changes, in its stock, gold and information; ship and port end with no more gold between them than they had |
| Ships.Step | src/pirate_cities/ship.py:582-586 | a step keeps the ship's name, spec, home, route and agenda, and the world's names |
| Ships.TradeAtPortSound | src/pirate_cities/ship.py:402-423 | with non-negative sell targets, trading keeps a stowed hold stowed and a solvent port solvent |
| Ships.ArrivalValid | src/pirate_cities/ship.py:385-442 | handling an arrival keeps the invariant and changes the world only by trade |
| Ships.HomeArrivalValid | src/pirate_cities/ship.py:394-399 | settling at home keeps the invariant; the owner's gold rises by exactly the gold the ship brought back, so it never drops |
| Ships.CallAtPortValid | src/pirate_cities/ship.py:434-442 | calling at a port other than home keeps the invariant, and the stop index never runs past the route |
| Ships.CallAtPortTraded | src/pirate_cities/ship.py:402-422 | a port call under an agenda with no negative sell target keeps the hold stowed and changes the world only by trade |
| Ships.LeavePortValid | src/pirate_cities/ship.py:434-442 | leaving a port other than home with a stowed hold keeps the invariant, because the last stop is home and so the next stop index stays inside the route |
| Ships.PortTradeSound | src/pirate_cities/ship.py:402-423 | the trade at a port keeps the hold stowed and the port solvent |
| Ships.DepartValid | src/pirate_cities/ship.py:299-319 | departure from a valid state always succeeds, keeps the invariant and changes the world only by trade |
| Ships.StepValid | src/pirate_cities/ship.py:582-586 | a step from a valid state keeps the ship invariant (the route ends at home, the stop names the destination, an arrived ship sits there, the hold is stowed, the world is solvent) and changes the world only by trade |
| Ships.StepFails | src/pirate_cities/ship.py:582-586 | from a valid state a step fails exactly when the ship lands at a port other than home without an agenda |
| Ships.HomeIsFinal | src/pirate_cities/ship.py:395-399 | a ship in port at home stays there: the step settles again, empties the hold and never departs |
| Ships.DepartsAtOnce | src/pirate_cities/ship.py:426-432 | at a port other than home, a ship puts to sea again in the same step exactly when the trade moved no cargo; otherwise it waits in port |

## Left out

- The user interface (`main.py`), the simulation driver (`simulation.py`), the name tables, the random initial values of cities and logging are not part of this model.
- `Point2d` float arithmetic is exact real arithmetic here. `** 0.5`, `10 ** x` and `exp(-0.5)` come from the `Maths` parameter. Only the travel lemmas assume that the square root is exact (`TrueSqrt`). Only the price monotonicity lemmas assume monotone `sqrt` and `pow10`.
- A division by zero in the population formula gives numpy's inf or nan. The model uses the unspecified `Maths.divByZero` instead. `MIN_SUPPLY_IN_TONS` is never used by the source, so it is not modelled.
- Random draws are parameters: `u` for `random.random()` at departure, and `rate` for `random.uniform(10, 50)` at a port.
- The source copies the destination and the owner into `destination_info` and `owner_info` at the start of `_handle_arrival` (src/pirate_cities/ship.py:391-392). The model reads those cities from the world as it stood at that moment. At a port other than home the owner's city does not change while the ship trades. On a return home the destination is the home itself, and the model passes it as it was before the settlement paid the ship's gold and cargo into it (src/pirate_cities/ship.py:552-558), as the copy does.
- `copy()` is shallow (src/pirate_cities/city.py:313, src/pirate_cities/ship.py:391-392): a stored snapshot shares the live city's `information` dict, so a later purchase by that city shows through the snapshot. The model stores snapshots as values. Nothing in this core reads the `information` of a stored snapshot, only that of a live source city or of a snapshot copied in the same step.
- Ships.SetItinerary: `set_itinerary` stores the caller's route list and appends `start` to it in place (src/pirate_cities/ship.py:284-286), so the caller's list changes too. The model returns a new route and does not model that aliasing.
- `iterations_en_route` does not exist on a new source ship until its first departure. The model starts it at 0.
- `_arrive_at_destination` is never called by the step, and `as_string` only formats text; neither is modelled.
- City names are assumed unique, so that a `World` keyed by name stands for the objects the ship holds. A route naming a city missing from the world is excluded by `Charted`.
- Ships.Valid (and the lemmas that use it): it assumes agenda sell targets are non-negative. The source does not check this; a negative target would buy cargo back from the city.
- Ships.Step: the ship's step and the cities' steps are separate. The interleaving of several ships and cities in one iteration belongs to the simulation driver, which is not modelled. `ValidAfterTrade` states that other trade keeps a valid ship valid.
- Cities.PriceLawMonotone: it states monotonicity only for positive demand and supply, given a monotone square root. The floor and ceiling cases are stated in `Cities.PriceLaw`.

## Behaviour kept as written

The model follows the code where the code does something a reader might not expect:

- A ship that arrives at its home's location settles and stays `ArrivedAtPort`. It never departs again (`Ships.HomeIsFinal`).
- Departure loading overwrites each loaded resource's cargo and the ship's gold instead of adding to them (`Trading.LoadInOrder`, `Trading.LoadCargoToSell`).
- Default buying (`_buy_cargo_at_destination`) takes cargo and spends gold without touching the destination's stock or gold (`Trading.BuyCargoAtDestination`).
- Agenda buying takes from the port's stock, but the port's gold is not credited (`Trading.Take`).
- A ship with no agenda that calls at a port other than home fails: the source tests `in` on `None` (`Ships.StepFails`).
- `set_itinerary` appends its `start` argument, not the ship's home (src/pirate_cities/ship.py:285-286), and `Ships.SetItinerary` does the same. Every caller passes the ship's own home (src/pirate_cities/ship.py:254). With another `start`, the route need not pass the ship's home. The stop index can then run past the route, and `_depart` raises `IndexError` (src/pirate_cities/ship.py:310), the failure of `Ships.Depart`. `Ships.Valid` demands a route that ends at home, so it holds only for the callers' choice.
- At home the owner buys the destination's snapshot and gets its own fee back (`Trading.ArriveHome`).
- The population formula puts the population between the base population and the capacity. So it exceeds the capacity whenever the base population does (`Cities.PopulationBetween`).
- `_travel` moves only a ship at sea (src/pirate_cities/ship.py:330-331). The travel check in tests/test_ship.py:92-98 uses a fixture ship that is still waiting for departure (src/pirate_cities/ship.py:255), so as written its second iteration leaves that ship in place. `Ships.TwoIterationsToArrive` states the evidently intended fact for a ship at sea.
