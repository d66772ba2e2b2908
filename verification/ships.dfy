/** The ship (`Ship` in ship.py): its itinerary, the three-phase step
    (travel, handle the arrival, depart) over `ShipState`, and the way the
    trading rules of `Trading` are applied at each port. Cities live in a
    world keyed by name; a step returns the new ship and the new world. */
module Ships {

  import opened Wrappers
  import opened Numerics
  import opened Resources
  import opened Cities
  import opened Trading
  import opened ShipSpecs
  import CityInfo

  /** The cities, by name. The source's ship holds the city objects
      themselves; here it holds their names. */
  type World = map<string, City>

  datatype ShipState = AtSea | ArrivedAtPort | WaitingForDeparture

  /** The agenda entry of one port: its "sell" and "buy" orders, each of
      which may be absent. A Python dict holds each resource at most once
      and iterates in insertion order, hence a sequence of pairs. */
  datatype StopOrders = StopOrders(sell: Option<seq<(Resource, SellTarget)>>, buy: Option<seq<(Resource, BuyTarget)>>)

  type Agenda = map<string, StopOrders>

  /** `Ship`: `agenda` is `None` when the ship was given none; `stop` is
      `_current_stop_index`, `waiting` is `_waiting_iterations_remaining`
      and `enRoute` is `_iterations_en_route`. */
  datatype Ship = Ship(
    name: string,
    spec: ShipSpec,
    home: string,
    route: seq<string>,
    agenda: Option<Agenda>,
    stop: nat,
    destination: string,
    location: Point,
    state: ShipState,
    waiting: nat,
    enRoute: nat,
    hold: Hold
  )

  /** A ship together with the world it sails in. */
  datatype Voyage = Voyage(ship: Ship, world: World)

  /** MOVABLE_CARGO_RANGE_IN_TONS_PER_DAY: the bounds of the tons a port
      handles per iteration. */
  const MinHandlingRate: real := 10.0
  const MaxHandlingRate: real := 50.0

  // ---------------------------------------------------------------------
  // Itinerary

  /** The route of `set_itinerary`: home is appended unless the route
      already ends there; an empty route has no last stop and fails. */
  function Itinerary(home: string, route: seq<string>): (r: Option<seq<string>>)
    ensures r.None? <==> |route| == 0
    ensures r.Some? ==>
      && |route| <= |r.value| <= |route| + 1
      && r.value[|r.value| - 1] == home
      && r.value[..|route|] == route
      && (|r.value| == |route| <==> route[|route| - 1] == home)
  {
    if |route| == 0 then None
    else if route[|route| - 1] != home then
      assert (route + [home])[..|route|] == route;
      Some(route + [home])
    else
      assert route[..|route|] == route;
      Some(route)
  }

  /** Setting an itinerary that already ends at home changes nothing. */
  lemma ItineraryIdempotent(home: string, route: seq<string>)
    requires Itinerary(home, route).Some?
    ensures Itinerary(home, Itinerary(home, route).value) == Itinerary(home, route)
  {
  }

  /** `set_itinerary`: the ship follows the given stops and then returns
      to `start`, starting over at the first given stop, under the new
      agenda; its identity, home, position and hold are untouched. An
      empty route fails. The ship's own home is the `start` every caller
      gives; any other city leaves the route without its home. */
  function SetItinerary(s: Ship, start: string, route: seq<string>, agenda: Option<Agenda>): (r: Option<Ship>)
    ensures r.None? <==> |route| == 0
    ensures r.Some? ==> var t := r.value;
      && |route| <= |t.route| && t.route[..|route|] == route
      && t.route[|t.route| - 1] == start
      && t.stop == 0 && t.stop < |t.route| && t.destination == route[0]
      && t.agenda == agenda
      && SameShip(s, t.(route := s.route, agenda := s.agenda))
      && t.location == s.location && t.state == s.state && t.hold == s.hold
  {
    match Itinerary(start, route)
    case None => None
    case Some(full) => Some(s.(route := full, agenda := agenda, stop := 0, destination := full[0]))
  }

  /** A `start` other than the ship's home, after stops that skip the
      home, gives a route that never visits the home: the ship can
      never settle there. */
  lemma ForeignStartSkipsHome(s: Ship, start: string, route: seq<string>, agenda: Option<Agenda>)
    requires |route| > 0 && start != s.home && s.home !in route
    ensures SetItinerary(s, start, route, agenda).Some?
    ensures s.home !in SetItinerary(s, start, route, agenda).value.route
  {
  }

  /** `Ship.__init__`: a ship of the given type lies at its home with
      nothing aboard, ready to leave on the first step for the first given
      stop, on a route that returns home. An empty route fails. */
  function NewShip(name: string, kind: ShipType, home: City, route: seq<string>, agenda: Option<Agenda>): (r: Option<Ship>)
    ensures r.None? <==> |route| == 0
    ensures r.Some? ==> var t := r.value;
      && t.spec == FromType(kind) && t.home == home.name && t.location == home.location
      && Tons(t.hold.cargo) == 0 && t.hold.gold == 0.0 && Stowed(t.hold, t.spec.maxHold)
      && t.state == WaitingForDeparture && t.waiting == 0
      && |route| <= |t.route| && t.route[..|route|] == route && t.route[|t.route| - 1] == home.name
      && t.stop < |t.route| && t.destination == route[0]
  {
    var bare := Ship(name, FromType(kind), home.name, [], None, 0, home.name, home.location,
                     WaitingForDeparture, 0, 0, EmptyHold);
    SetItinerary(bare, home.name, route, agenda)
  }

  // ---------------------------------------------------------------------
  // Invariant

  /** Every city the ship names is in the world. */
  predicate Charted(s: Ship, world: World) {
    && s.home in world && s.destination in world
    && forall i :: 0 <= i < |s.route| ==> s.route[i] in world
  }

  /** No city owes gold. */
  ghost predicate Solvent(world: World) {
    forall n :: n in world ==> world[n].gold >= 0.0
  }

  /** An agenda the source can follow without breaking the bounds below:
      each resource at most once per port (they are dict keys), and no
      negative sell target (the source does not check this, and a
      negative target would buy back cargo at the city's expense). */
  ghost predicate AgendaValid(a: Agenda) {
    forall n :: n in a ==>
      && (a[n].sell.Some? ==> DistinctResources(a[n].sell.value) && SellTargetsValid(a[n].sell.value))
      && (a[n].buy.Some? ==> DistinctResources(a[n].buy.value))
  }

  /** What every step keeps: the route ends at home and the stop index
      names the destination; a ship in port sits at its destination; the
      hold is stowed; the agenda is valid and the world solvent. */
  ghost predicate Valid(s: Ship, world: World) {
    && Charted(s, world)
    && s.spec == FromType(s.spec.kind)
    && |s.route| > 0 && s.route[|s.route| - 1] == s.home
    && s.stop < |s.route| && s.destination == s.route[s.stop]
    && (s.state == ArrivedAtPort ==> s.location == world[s.destination].location)
    && Stowed(s.hold, s.spec.maxHold)
    && (s.agenda.Some? ==> AgendaValid(s.agenda.value))
    && Solvent(world)
  }

  /** The world changed only in what trade changes: the same cities at
      the same places, and none in debt. */
  ghost predicate Traded(world: World, world': World) {
    && world'.Keys == world.Keys
    && (forall n :: n in world ==> world'[n].location == world[n].location)
    && Solvent(world')
  }

  /** A new ship with a valid agenda in a solvent world is valid. */
  lemma NewShipValid(name: string, kind: ShipType, world: World, home: string, route: seq<string>, agenda: Option<Agenda>)
    requires home in world && world[home].name == home && Solvent(world)
    requires forall i :: 0 <= i < |route| ==> route[i] in world
    requires agenda.Some? ==> AgendaValid(agenda.value)
    ensures var r := NewShip(name, kind, world[home], route, agenda);
      r.Some? ==> Valid(r.value, world)
  {
    var r := NewShip(name, kind, world[home], route, agenda);
    if r.Some? {
      var full := r.value.route;
      assert forall i :: 0 <= i < |full| ==> full[i] in world by {
        forall i | 0 <= i < |full| ensures full[i] in world {
          if i < |route| {
            assert full[i] == full[..|route|][i];
          }
        }
      }
      assert Tons(EmptyHold.cargo) == 0;
    }
  }

  /** Trade elsewhere in the world (other ships, the cities' own steps)
      keeps a valid ship valid. */
  lemma ValidAfterTrade(s: Ship, world: World, world': World)
    requires Valid(s, world) && Traded(world, world')
    ensures Valid(s, world')
  {
  }

  // ---------------------------------------------------------------------
  // Travel

  /** `Point2d.distance_to`: the root of the summed squared differences,
      with `** 0.5` supplied from outside. */
  function Distance(m: Maths, a: Point, b: Point): real {
    m.sqrt(SquaredDistance(a, b))
  }

  function SquaredDistance(a: Point, b: Point): real {
    (a.x - b.x) * (a.x - b.x) + (a.y - b.y) * (a.y - b.y)
  }

  /** The point a fraction `f` of the way from `a` to `b`. */
  function Toward(a: Point, b: Point, f: real): Point {
    Point(a.x + (b.x - a.x) * f, a.y + (b.y - a.y) * f)
  }

  /** The ship's speed in km per iteration. */
  function Speed(s: Ship): (v: real)
    ensures v >= 1.0
  {
    s.spec.speed.Km() as real
  }

  /** `_travel`: only at sea. One more iteration en route; the ship moves
      `speed` along the line to the destination, or, when the destination
      is no further than that, lands on its location and has arrived. */
  function Travel(m: Maths, s: Ship, world: World): (t: Ship)
    requires s.destination in world
    ensures s.state != AtSea ==> t == s
    ensures s.state == AtSea ==>
      && t == s.(enRoute := s.enRoute + 1, location := t.location, state := t.state)
      && (t.state == ArrivedAtPort <==> Distance(m, s.location, world[s.destination].location) <= Speed(s))
      && (t.state != ArrivedAtPort ==> t.state == AtSea)
      && (t.state == ArrivedAtPort ==> t.location == world[s.destination].location)
  {
    if s.state != AtSea then s
    else
      var target := world[s.destination].location;
      var distance := Distance(m, s.location, target);
      if distance > Speed(s) then
        s.(enRoute := s.enRoute + 1, location := Toward(s.location, target, Speed(s) / distance))
      else
        s.(enRoute := s.enRoute + 1, location := target, state := ArrivedAtPort)
  }

  /** `** 0.5` behaves as the square root on non-negative arguments. */
  ghost predicate TrueSqrt(m: Maths) {
    forall x :: x >= 0.0 ==> m.sqrt(x) >= 0.0 && m.sqrt(x) * m.sqrt(x) == x
  }

  /** With a true square root, a ship that does not arrive gets exactly
      `speed` closer to its destination. */
  lemma TravelCloser(m: Maths, s: Ship, world: World)
    requires TrueSqrt(m) && s.destination in world && s.state == AtSea
    requires Distance(m, s.location, world[s.destination].location) > Speed(s)
    ensures var target := world[s.destination].location;
      Distance(m, Travel(m, s, world).location, target) == Distance(m, s.location, target) - Speed(s)
  {
    var target := world[s.destination].location;
    var v := Speed(s);
    var d := Distance(m, s.location, target);
    SquaredNonNegative(s.location, target);
    assert d * d == SquaredDistance(s.location, target);
    var q := Travel(m, s, world).location;
    assert q == Toward(s.location, target, v / d);
    StepShrinks(s.location, target, d, v);
    SquareRootUnique(m, SquaredDistance(q, target), d - v);
  }

  lemma SquaredNonNegative(a: Point, b: Point)
    ensures SquaredDistance(a, b) >= 0.0
  {
  }

  /** Moving `v` of the way along an offset of length `d` leaves an
      offset of length d - v. */
  lemma StepShrinks(a: Point, b: Point, d: real, v: real)
    requires d > v > 0.0 && d * d == SquaredDistance(a, b)
    ensures SquaredDistance(Toward(a, b, v / d), b) == (d - v) * (d - v)
  {
    var dx, dy := a.x - b.x, a.y - b.y;
    var g := 1.0 - v / d;
    var q := Toward(a, b, v / d);
    assert q.x - b.x == dx * g && q.y - b.y == dy * g;
    assert SquaredDistance(a, b) == dx * dx + dy * dy;
    ShrinkSquare(dx, dy, d, v);
  }

  /** Scaling an offset of length `d` by 1 - v / d leaves length d - v. */
  lemma ShrinkSquare(dx: real, dy: real, d: real, v: real)
    requires d > v > 0.0 && d * d == dx * dx + dy * dy
    ensures var g := 1.0 - v / d;
      (dx * g) * (dx * g) + (dy * g) * (dy * g) == (d - v) * (d - v)
  {
    var g := 1.0 - v / d;
    assert g * d == d - v by {
      assert (v / d) * d == v;
    }
    calc {
      (dx * g) * (dx * g) + (dy * g) * (dy * g);
      (g * g) * (dx * dx + dy * dy);
      (g * g) * (d * d);
      (g * d) * (g * d);
      (d - v) * (d - v);
    }
  }

  /** The true square root of y * y is y, for y >= 0. */
  lemma SquareRootUnique(m: Maths, x: real, y: real)
    requires TrueSqrt(m) && y >= 0.0 && x == y * y
    ensures m.sqrt(x) == y
  {
    var r := m.sqrt(x);
    assert x >= 0.0;
    assert r >= 0.0 && r * r == y * y;
    if r + y > 0.0 {
      assert (r - y) * (r + y) == r * r - y * y;
      ProductZero(r - y, r + y);
    }
  }

  lemma ProductZero(a: real, b: real)
    requires b > 0.0 && a * b == 0.0
    ensures a == 0.0
  {
  }

  /** `n` iterations of travel alone. */
  function Sail(m: Maths, s: Ship, world: World, n: nat): (t: Ship)
    requires s.destination in world
    ensures t.destination == s.destination
    decreases n
  {
    if n == 0 then s else Sail(m, Travel(m, s, world), world, n - 1)
  }

  /** With a true square root, a ship at sea reaches its destination
      within any number of iterations that covers the distance at its
      speed: every voyage ends. */
  lemma {:induction false} SailArrives(m: Maths, s: Ship, world: World, n: nat)
    requires TrueSqrt(m) && s.destination in world && s.state == AtSea
    requires Distance(m, s.location, world[s.destination].location) <= n as real * Speed(s)
    ensures n > 0 ==> Sail(m, s, world, n).state == ArrivedAtPort
    decreases n
  {
    if n > 0 {
      var target := world[s.destination].location;
      var d := Distance(m, s.location, target);
      var v := Speed(s);
      var t := Travel(m, s, world);
      assert Sail(m, s, world, n) == Sail(m, t, world, n - 1);
      if d <= v {
        ArrivedStays(m, t, world, n - 1);
      } else {
        TravelCloser(m, s, world);
        assert (n - 1) as real * v == n as real * v - v;
        SailArrives(m, t, world, n - 1);
      }
    }
  }

  /** Travel leaves a ship in port where it is. */
  lemma {:induction false} ArrivedStays(m: Maths, s: Ship, world: World, n: nat)
    requires s.destination in world && s.state == ArrivedAtPort
    ensures Sail(m, s, world, n) == s
  {
    if n > 0 {
      ArrivedStays(m, Travel(m, s, world), world, n - 1);
    }
  }

  /** The travel check of the ship tests: a destination one and a half
      speeds away is not reached in the first iteration and is reached in
      the second. */
  lemma TwoIterationsToArrive(m: Maths, s: Ship, world: World)
    requires TrueSqrt(m) && s.destination in world && s.state == AtSea
    requires s.location == Point(0.0, 0.0)
    requires world[s.destination].location == Point(1.5 * Speed(s), 0.0)
    ensures Travel(m, s, world).state == AtSea
    ensures Travel(m, Travel(m, s, world), world).state == ArrivedAtPort
  {
    var v := Speed(s);
    var target := world[s.destination].location;
    assert SquaredDistance(s.location, target) == (1.5 * v) * (1.5 * v);
    SquareRootUnique(m, SquaredDistance(s.location, target), 1.5 * v);
    TravelCloser(m, s, world);
  }

  // ---------------------------------------------------------------------
  // Departure

  /** `_depart` (`u` is the `random.random()` draw). It fails exactly
      when a ship ready to leave has a stop index past its route, as the
      source's indexing does; the ship keeps its identity and the world
      its cities. */
  function Depart(k: Market, s: Ship, world: World, u: real): (r: Option<Voyage>)
    requires s.home in world && 0.0 <= u < 1.0
    ensures r.None? <==> s.state == WaitingForDeparture && s.waiting == 0 && s.stop >= |s.route| > 0
    ensures r.Some? ==> SameShip(s, r.value.ship) && r.value.world.Keys == world.Keys
  {
    if s.state != WaitingForDeparture then Some(Voyage(s, world))
    else if s.waiting > 0 then Some(Voyage(s.(waiting := s.waiting - 1), world))
    else if |s.route| > 0 && s.stop >= |s.route| then None
    else
      var next := if |s.route| > 0 then s.route[s.stop] else s.home;
      var loaded := LoadCargoToSell(k, s.hold, world[s.home], s.spec.maxHold, u);
      Some(Voyage(s.(destination := next, state := AtSea, enRoute := 0, hold := loaded.hold), world[s.home := loaded.city]))
  }

  /** A ship at sea or still waiting changes nothing but its wait, which
      counts down by one while waiting. */
  lemma DepartWaits(k: Market, s: Ship, world: World, u: real)
    requires s.home in world && 0.0 <= u < 1.0
    requires !(s.state == WaitingForDeparture && s.waiting == 0)
    ensures var r := Depart(k, s, world, u);
      && r.Some? && r.value.world == world
      && r.value.ship == s.(waiting := r.value.ship.waiting)
      && r.value.ship.waiting == (if s.state == WaitingForDeparture then s.waiting - 1 else s.waiting)
  {
  }

  /** A ship ready to leave puts to sea for the current stop, or home on
      an empty route, and loads from its home: the ship's gold is what the
      home loses, every ton loaded leaves the home's stock, and no other
      city changes. */
  lemma DepartSails(k: Market, s: Ship, world: World, u: real)
    requires s.home in world && 0.0 <= u < 1.0
    requires s.state == WaitingForDeparture && s.waiting == 0 && !(s.stop >= |s.route| > 0)
    ensures var r := Depart(k, s, world, u);
      var t, home, home' := r.value.ship, world[s.home], r.value.world[s.home];
      && t.state == AtSea && t.enRoute == 0 && t.location == s.location && t.stop == s.stop
      && t.destination == (if |s.route| > 0 then s.route[s.stop] else s.home)
      && t.hold.gold + home'.gold == home.gold
      && OnlyMarketChanged(home, home')
      && (forall n :: n in world && n != s.home ==> r.value.world[n] == world[n])
      && (forall q ::
            || (t.hold.cargo.Get(q) == s.hold.cargo.Get(q) && home'.stock.Get(q) == home.stock.Get(q))
            || (home'.stock.Get(q) == home.stock.Get(q) - t.hold.cargo.Get(q) as real && 0 <= t.hold.cargo.Get(q)))
  {
    LoadCargoStowed(k, s.hold, world[s.home], s.spec.maxHold, u);
  }

  // ---------------------------------------------------------------------
  // Arrival

  /** The cities of the stops after the current one, other than the
      current port itself: the rest of `remaining_cities` in
      `_buy_per_agenda`. The port's own entry compares its price with
      itself, and none of these cities trades while the ship is here. */
  function LaterStops(world: World, route: seq<string>, here: string): (cs: seq<City>)
    requires forall i :: 0 <= i < |route| ==> route[i] in world
    ensures forall i :: 0 <= i < |route| && route[i] != here ==> world[route[i]] in cs
    ensures forall c :: c in cs ==> exists i :: 0 <= i < |route| && route[i] != here && world[route[i]] == c
  {
    if |route| == 0 then []
    else
      var rest := LaterStops(world, route[1..], here);
      var cs := if route[0] != here then [world[route[0]]] + rest else rest;
      assert forall i :: 1 <= i < |route| ==> route[i] == route[1..][i - 1];
      assert forall c :: c in cs ==> exists i :: 0 <= i < |route| && route[i] != here && world[route[i]] == c by {
        forall c | c in cs ensures exists i :: 0 <= i < |route| && route[i] != here && world[route[i]] == c {
          if c in rest {
            var i :| 0 <= i < |route[1..]| && route[1..][i] != here && world[route[1..][i]] == c;
            assert route[i + 1] == route[1..][i];
          }
        }
      }
      cs
  }

  /** The tons that moved in or out of the hold: the sum over resources
      of |after - before|. */
  function Moved(before: PerResource<int>, after: PerResource<int>): (n: int)
    ensures n >= 0
    ensures n == 0 <==> before == after
  {
    Abs(after.food - before.food) + Abs(after.goods - before.goods)
      + Abs(after.luxuries - before.luxuries) + Abs(after.cannons - before.cannons)
  }

  function Abs(x: int): (a: int)
    ensures a >= 0 && (a == 0 <==> x == 0)
  {
    if x < 0 then -x else x
  }

  /** `math.ceil(moved / rate)`: whole iterations to handle the cargo,
      none exactly when nothing moved. */
  function WaitFor(moved: int, rate: real): (w: nat)
    requires moved >= 0 && rate > 0.0
    ensures w == 0 <==> moved == 0
    ensures moved as real / rate <= w as real < moved as real / rate + 1.0
  {
    var x := moved as real / rate;
    QuotientAtLeast(moved as real, 0.0, rate);
    assert moved > 0 ==> x > 0.0 by {
      if moved > 0 {
        QuotientAtLeast(moved as real, 1.0 / rate, rate);
      }
    }
    Ceil(x)
  }

  /** The selling half of `_handle_arrival`: the agenda's sell orders for
      this port when it has some, otherwise everything by margin against
      the owner's snapshot. */
  function SellAtPort(k: Market, d: Deal, orders: StopOrders, owner: City): (e: Deal)
    requires k.Sound()
    ensures Conserves(d, e) && OnlyMarketChanged(d.city, e.city)
  {
    match orders.sell
    case Some(sells) => SellPerAgenda(k, d, sells)
    case None => SellCargoAtDestination(k, d, owner)
  }

  /** The buying half: the agenda's buy orders for this port when it has
      some, otherwise what the owner's snapshot demands. Neither pays the
      port: agenda buying takes from its stock, default buying leaves the
      port untouched. */
  function BuyAtPort(k: Market, d: Deal, orders: StopOrders, others: seq<City>, owner: City, maxHold: int): (e: Deal)
    requires k.Sound()
    ensures e.city == d.city.(stock := e.city.stock) && e.hold.sold == d.hold.sold
    ensures e.hold.gold <= d.hold.gold
    ensures forall r :: e.hold.cargo.Get(r) >= d.hold.cargo.Get(r)
    ensures orders.buy.None? ==> e.city == d.city
    ensures orders.buy.Some? ==> TonsConserved(d, e)
  {
    match orders.buy
    case Some(buys) => BuyPerAgenda(k, others, maxHold, d, buys)
    case None => Deal(BuyCargoAtDestination(k, d.hold, d.city, owner, maxHold), d.city)
  }

  /** The trading at a port other than home: the record of sold tons is
      cleared, the ship sells and buys, and the port buys the owner's
      information, paying the fee to the ship. Only the port's stock, gold
      and information change. Gold between ship and port is conserved
      except what the ship spends buying, which nobody receives. Tons are
      conserved under agenda buying; default buying only adds to them. */
  function TradeAtPort(k: Market, h: Hold, port: City, orders: StopOrders, others: seq<City>, owner: City, maxHold: int): (e: Deal)
    requires k.Sound()
    ensures e.city == port.(stock := e.city.stock, gold := e.city.gold, information := e.city.information)
    ensures e.hold.gold + e.city.gold <= h.gold + port.gold
    ensures orders.buy.Some? ==> TonsConserved(Deal(h, port), e)
    ensures orders.buy.None? ==> forall r ::
      e.hold.cargo.Get(r) as real + e.city.stock.Get(r) >= h.cargo.Get(r) as real + port.stock.Get(r)
  {
    var d := Deal(h.(sold := Uniform(0)), port);
    var sold := SellAtPort(k, d, orders, owner);
    var bought := BuyAtPort(k, sold, orders, others, owner, maxHold);
    var sale := CityInfo.BuyCityInfo(bought.city, owner);
    Deal(bought.hold.(gold := bought.hold.gold + sale.fee), sale.buyer)
  }

  /** The agenda's orders for a port; a port it does not name gets
      neither sell nor buy orders, so both fall back to the defaults. */
  function OrdersAt(agenda: Agenda, n: string): StopOrders {
    if n in agenda then agenda[n] else StopOrders(None, None)
  }

  /** The cities of the stops after the current one, other than the
      port itself (empty once the stop index has run off the route). */
  function OtherStops(s: Ship, world: World): seq<City>
    requires Charted(s, world)
  {
    LaterStops(world, RestOfRoute(s), s.destination)
  }

  /** The stops after the current one. */
  function RestOfRoute(s: Ship): (rest: seq<string>)
    ensures forall i :: 0 <= i < |rest| ==> rest[i] in s.route
    ensures forall i :: 0 <= i < |rest| ==> s.stop + 1 + i < |s.route| && rest[i] == s.route[s.stop + 1 + i]
    ensures |rest| == if s.stop + 1 <= |s.route| then |s.route| - s.stop - 1 else 0
  {
    if s.stop + 1 <= |s.route| then s.route[s.stop + 1..] else []
  }

  /** The other later stops are exactly the cities of the stops after the
      current one that are not the port itself. */
  lemma OtherStopsAre(s: Ship, world: World)
    requires Charted(s, world)
    ensures var cs := OtherStops(s, world);
      && (forall i :: s.stop < i < |s.route| && s.route[i] != s.destination ==> world[s.route[i]] in cs)
      && (forall c :: c in cs ==> exists i :: s.stop < i < |s.route| && s.route[i] != s.destination && world[s.route[i]] == c)
  {
    OtherStopsCover(s, world);
    OtherStopsFromRoute(s, world);
  }

  /** Every later stop other than the port is among the other stops. */
  lemma OtherStopsCover(s: Ship, world: World)
    requires Charted(s, world)
    ensures forall i :: s.stop < i < |s.route| && s.route[i] != s.destination ==> world[s.route[i]] in OtherStops(s, world)
  {
    var rest := RestOfRoute(s);
    forall i | s.stop < i < |s.route| && s.route[i] != s.destination ensures world[s.route[i]] in OtherStops(s, world) {
      assert s.route[i] == rest[i - s.stop - 1];
    }
  }

  /** Every one of the other stops is the city of a later stop other
      than the port. */
  lemma OtherStopsFromRoute(s: Ship, world: World)
    requires Charted(s, world)
    ensures forall c :: c in OtherStops(s, world) ==> exists i :: s.stop < i < |s.route| && s.route[i] != s.destination && world[s.route[i]] == c
  {
    var rest := RestOfRoute(s);
    forall c | c in OtherStops(s, world) ensures exists i :: s.stop < i < |s.route| && s.route[i] != s.destination && world[s.route[i]] == c {
      var j :| 0 <= j < |rest| && rest[j] != s.destination && world[rest[j]] == c;
      assert s.route[s.stop + 1 + j] == rest[j];
    }
  }

  /** The trade at the ship's destination: its orders, the later stops
      to compare buying prices with, and the owner's snapshot. */
  function PortTrade(k: Market, s: Ship, agenda: Agenda, world: World): (e: Deal)
    requires k.Sound() && Charted(s, world)
    ensures var port := world[s.destination];
      e.city == port.(stock := e.city.stock, gold := e.city.gold, information := e.city.information)
  {
    var others := OtherStops(s, world);
    TradeAtPort(k, s.hold, world[s.destination], OrdersAt(agenda, s.destination), others, world[s.home], s.spec.maxHold)
  }

  /** The arrival at a port other than home: the ship trades per
      `TradeAtPort` and leaves port as `LeavePort` describes. In the world
      only the port changes, and only in its stock, gold and information;
      the ship and the port end with no more gold between them than they
      had. */
  function CallAtPort(k: Market, s: Ship, agenda: Agenda, world: World, rate: real): (r: Voyage)
    requires k.Sound() && Charted(s, world) && MinHandlingRate <= rate <= MaxHandlingRate
    ensures r.ship == LeavePort(s, r.ship.hold, rate)
    ensures r.world.Keys == world.Keys
    ensures forall n :: n in world && n != s.destination ==> r.world[n] == world[n]
    ensures var port, port' := world[s.destination], r.world[s.destination];
      && port' == port.(stock := port'.stock, gold := port'.gold, information := port'.information)
      && r.ship.hold.gold + port'.gold <= s.hold.gold + port.gold
  {
    var traded := PortTrade(k, s, agenda, world);
    Voyage(LeavePort(s, traded.hold, rate), Replace(world, s.destination, traded.city))
  }

  /** The ship after trading at a port: the traded hold, a wait for the
      tons moved, and the next stop, or home once the route is done. */
  function LeavePort(s: Ship, traded: Hold, rate: real): (t: Ship)
    requires MinHandlingRate <= rate
    ensures t == s.(hold := traded, waiting := t.waiting, state := WaitingForDeparture,
                    stop := t.stop, destination := t.destination)
    ensures t.waiting == 0 <==> traded.cargo == s.hold.cargo
    ensures t.stop == (if s.stop < |s.route| then s.stop + 1 else s.stop)
    ensures t.destination == (if t.stop < |s.route| then s.route[t.stop] else s.home)
  {
    var stop := if s.stop < |s.route| then s.stop + 1 else s.stop;
    var next := if stop < |s.route| then s.route[stop] else s.home;
    var waiting := WaitFor(Moved(s.hold.cargo, traded.cargo), rate);
    s.(hold := traded, waiting := waiting, state := WaitingForDeparture, stop := stop, destination := next)
  }

  /** The world with one city replaced by its traded self. */
  function Replace(world: World, n: string, c: City): (w: World)
    requires n in world
    ensures w.Keys == world.Keys && w[n] == c
    ensures forall n' :: n' in world && n' != n ==> w[n'] == world[n']
  {
    world[n := c]
  }

  /** `_handle_arrival` (`rate` is the `random.uniform` draw of the port's
      handling rate). Only in port: at the home's location the ship settles
      with its owner, elsewhere it calls at the port. It fails exactly when
      a ship without an agenda lands at a port other than home, as the
      source's `in` test on `None` does. The world keeps its cities, and
      the ship its identity. */
  function HandleArrival(k: Market, s: Ship, world: World, rate: real): (r: Option<Voyage>)
    requires k.Sound() && Charted(s, world) && MinHandlingRate <= rate <= MaxHandlingRate
    ensures r.None? <==> s.state == ArrivedAtPort && s.location != world[s.home].location && s.agenda.None?
    ensures r.Some? ==> r.value.world.Keys == world.Keys && Charted(r.value.ship, r.value.world)
    ensures r.Some? ==> SameShip(s, r.value.ship)
    ensures s.state != ArrivedAtPort ==> r == Some(Voyage(s, world))
  {
    if s.state != ArrivedAtPort then Some(Voyage(s, world))
    else if s.location == world[s.home].location then
      var settled := ArriveHome(s.hold, world[s.home], world[s.destination]);
      Some(Voyage(s.(hold := settled.hold, waiting := 0), world[s.home := settled.city]))
    else if s.agenda.None? then None
    else Some(CallAtPort(k, s, s.agenda.value, world, rate))
  }

  /** An arrival at the home's location empties the hold into the owner's
      city and clears the wait: tons and gold are conserved between ship
      and owner, the owner's information is what buying the destination's
      snapshot, taken before the settlement, leaves, and no other city
      changes. */
  lemma HandleArrivalAtHome(k: Market, s: Ship, world: World, rate: real)
    requires k.Sound() && Charted(s, world) && MinHandlingRate <= rate <= MaxHandlingRate
    requires s.state == ArrivedAtPort && s.location == world[s.home].location
    ensures var r := HandleArrival(k, s, world, rate);
      var t, home, home' := r.value.ship, world[s.home], r.value.world[s.home];
      && t == s.(hold := EmptyHold, waiting := 0)
      && Conserves(Deal(s.hold, home), Deal(t.hold, home'))
      && home' == home.(stock := home'.stock, gold := home'.gold, information := home'.information)
      && home'.information == CityInfo.BuyCityInfo(PayIn(s.hold, home), world[s.destination]).buyer.information
      && (forall n :: n in world && n != s.home ==> r.value.world[n] == world[n])
  {
  }

  /** An arrival at a port other than home with an agenda leaves the ship
      waiting for departure, for no iteration exactly when no cargo moved,
      bound for the next stop or home once the route is done; only the
      port changes in the world, in its stock, gold and information, and
      ship and port end with no more gold between them than they had. */
  lemma HandleArrivalAtPort(k: Market, s: Ship, world: World, rate: real)
    requires k.Sound() && Charted(s, world) && MinHandlingRate <= rate <= MaxHandlingRate
    requires s.state == ArrivedAtPort && s.location != world[s.home].location && s.agenda.Some?
    ensures var r := HandleArrival(k, s, world, rate);
      var t, port, port' := r.value.ship, world[s.destination], r.value.world[s.destination];
      && t.state == WaitingForDeparture
      && (t.waiting == 0 <==> t.hold.cargo == s.hold.cargo)
      && t.stop == (if s.stop < |s.route| then s.stop + 1 else s.stop)
      && t.destination == (if t.stop < |s.route| then s.route[t.stop] else s.home)
      && (forall n :: n in world && n != s.destination ==> r.value.world[n] == world[n])
      && port' == port.(stock := port'.stock, gold := port'.gold, information := port'.information)
      && t.hold.gold + port'.gold <= s.hold.gold + port.gold
  {
    var c := CallAtPort(k, s, s.agenda.value, world, rate);
    assert HandleArrival(k, s, world, rate) == Some(c);
  }

  // ---------------------------------------------------------------------
  // The step

  /** The ship's identity: what no step changes. */
  predicate SameShip(s: Ship, t: Ship) {
    t.name == s.name && t.spec == s.spec && t.home == s.home && t.route == s.route && t.agenda == s.agenda
  }

  /** `Ship.step`: travel, handle an arrival, depart, against the
      market the city model computes. `None` when the source would raise.
      The ship keeps its identity and the world its cities. */
  function Step(m: Maths, s: Ship, world: World, u: real, rate: real): (r: Option<Voyage>)
    requires Charted(s, world) && 0.0 <= u < 1.0 && MinHandlingRate <= rate <= MaxHandlingRate
    ensures r.Some? ==> SameShip(s, r.value.ship) && r.value.world.Keys == world.Keys
  {
    var k := CityMarket(m);
    var t := Travel(m, s, world);
    match HandleArrival(k, t, world, rate)
    case None => None
    case Some(a) => Depart(k, a.ship, a.world, u)
  }

  // ---------------------------------------------------------------------
  // The invariant across a step

  /** Cargo that shrank in every resource weighs no more. */
  lemma TonsMonotone(a: PerResource<int>, b: PerResource<int>)
    requires forall r :: a.Get(r) <= b.Get(r)
    ensures Tons(a) <= Tons(b)
  {
    assert a.Get(Food) <= b.Get(Food) && a.Get(Goods) <= b.Get(Goods);
    assert a.Get(Luxuries) <= b.Get(Luxuries) && a.Get(Cannons) <= b.Get(Cannons);
  }

  /** Travel keeps the invariant: an arriving ship lands on its
      destination. */
  lemma TravelValid(m: Maths, s: Ship, world: World)
    requires Valid(s, world)
    ensures Valid(Travel(m, s, world), world)
  {
  }

  /** Trading at a port keeps a stowed hold stowed and a solvent port
      solvent, given sell targets that are not negative. */
  lemma TradeAtPortSound(k: Market, h: Hold, port: City, orders: StopOrders, others: seq<City>, owner: City, maxHold: int)
    requires k.Sound() && Stowed(h, maxHold) && port.gold >= 0.0
    requires orders.sell.Some? ==> SellTargetsValid(orders.sell.value)
    ensures var e := TradeAtPort(k, h, port, orders, others, owner, maxHold);
      Stowed(e.hold, maxHold) && e.city.gold >= 0.0
  {
    var d := Deal(h.(sold := Uniform(0)), port);
    var sold := SellAtPort(k, d, orders, owner);
    match orders.sell {
      case Some(sells) => SellPerAgendaBounded(k, d, sells);
      case None => SellCargoBounded(k, d, owner);
    }
    TonsMonotone(sold.hold.cargo, d.hold.cargo);
    assert Stowed(sold.hold, maxHold);
    var bought := BuyAtPort(k, sold, orders, others, owner, maxHold);
    match orders.buy {
      case Some(buys) => BuyPerAgendaStowed(k, others, maxHold, sold, buys);
      case None => BuyCargoStowed(k, sold.hold, sold.city, owner, maxHold);
    }
    assert bought.city.gold == sold.city.gold;
  }

  /** A solvent world with one city replaced by a solvent city at the
      same place differs only by trade. */
  lemma ReplaceTraded(world: World, n: string, c: City)
    requires n in world && Solvent(world) && c.gold >= 0.0 && c.location == world[n].location
    ensures Traded(world, world[n := c])
  {
  }

  /** The invariant carries over to the same ship in a traded world when
      the stop still names the destination, an arrived ship sits there,
      and the hold is stowed. */
  lemma StillValid(s: Ship, world: World, t: Ship, world': World)
    requires Valid(s, world) && Traded(world, world') && SameShip(s, t)
    requires t.stop < |t.route| && t.destination == t.route[t.stop]
    requires t.state == ArrivedAtPort ==> t.location == world'[t.destination].location
    requires Stowed(t.hold, t.spec.maxHold)
    ensures Valid(t, world')
  {
  }

  /** Handling an arrival keeps the invariant and changes the world only
      by trade. The stop index cannot run past the route: the last stop
      is home, and an arrival at home's location settles instead. */
  lemma ArrivalValid(k: Market, s: Ship, world: World, rate: real)
    requires k.Sound() && Valid(s, world) && MinHandlingRate <= rate <= MaxHandlingRate
    ensures var r := HandleArrival(k, s, world, rate);
      r.Some? ==> Valid(r.value.ship, r.value.world) && Traded(world, r.value.world)
  {
    var r := HandleArrival(k, s, world, rate);
    if s.state != ArrivedAtPort {
    } else if s.location == world[s.home].location {
      HomeArrivalValid(s, world);
    } else if r.Some? {
      CallAtPortValid(k, s, world, rate);
    }
  }

  /** Settling at home keeps the invariant: the owner's gold grows by
      exactly the gold the ship brought back, so it never drops, and the
      ship stays where it is, in port. */
  lemma HomeArrivalValid(s: Ship, world: World)
    requires Valid(s, world) && s.state == ArrivedAtPort
    ensures var settled := ArriveHome(s.hold, world[s.home], world[s.destination]);
      var t := s.(hold := settled.hold, waiting := 0);
      var world' := world[s.home := settled.city];
      && Valid(t, world') && Traded(world, world')
      && world'[s.home].gold == world[s.home].gold + s.hold.gold
      && world'[s.home].gold >= world[s.home].gold
  {
    var settled := ArriveHome(s.hold, world[s.home], world[s.destination]);
    assert Tons(EmptyHold.cargo) == 0;
    assert settled.city.gold == world[s.home].gold + s.hold.gold;
    ReplaceTraded(world, s.home, settled.city);
    StillValid(s, world, s.(hold := settled.hold, waiting := 0), world[s.home := settled.city]);
  }

  /** Calling at a port other than home keeps the invariant. The stop
      index cannot run past the route: its last stop is home, and an
      arrival at home's location settles instead. */
  lemma CallAtPortValid(k: Market, s: Ship, world: World, rate: real)
    requires k.Sound() && Valid(s, world) && MinHandlingRate <= rate <= MaxHandlingRate
    requires s.state == ArrivedAtPort && s.location != world[s.home].location && s.agenda.Some?
    ensures var r := CallAtPort(k, s, s.agenda.value, world, rate);
      Valid(r.ship, r.world) && Traded(world, r.world)
  {
    var agenda := s.agenda.value;
    assert s.destination != s.home;
    CallAtPortTraded(k, s, agenda, world, rate);
    var r := CallAtPort(k, s, agenda, world, rate);
    LeavePortValid(s, world, r.ship.hold, rate, r.world);
  }

  /** Leaving a port other than home with a stowed hold, in a world
      changed only by trade, keeps the invariant: the last stop is home,
      so the next stop is still on the route. */
  lemma LeavePortValid(s: Ship, world: World, h: Hold, rate: real, world': World)
    requires Valid(s, world) && Traded(world, world') && MinHandlingRate <= rate
    requires s.destination != s.home && Stowed(h, s.spec.maxHold)
    ensures Valid(LeavePort(s, h, rate), world')
  {
    assert s.stop + 1 < |s.route|;
    var t := LeavePort(s, h, rate);
    assert t.stop == s.stop + 1 && t.destination == s.route[s.stop + 1];
    StillValid(s, world, t, world');
  }

  /** A port call with a valid agenda keeps the hold stowed and changes
      the world only by trade. */
  lemma CallAtPortTraded(k: Market, s: Ship, agenda: Agenda, world: World, rate: real)
    requires k.Sound() && Charted(s, world) && MinHandlingRate <= rate <= MaxHandlingRate
    requires AgendaValid(agenda) && Solvent(world) && Stowed(s.hold, s.spec.maxHold)
    ensures var r := CallAtPort(k, s, agenda, world, rate);
      Stowed(r.ship.hold, s.spec.maxHold) && Traded(world, r.world)
  {
    var traded := PortTrade(k, s, agenda, world);
    OrdersValid(agenda, s.destination);
    PortTradeSound(k, s, agenda, world);
    ReplaceTraded(world, s.destination, traded.city);
  }

  /** The trade at a port keeps the hold stowed and the port solvent,
      given sell targets that are not negative. */
  lemma PortTradeSound(k: Market, s: Ship, agenda: Agenda, world: World)
    requires k.Sound() && Charted(s, world)
    requires var orders := OrdersAt(agenda, s.destination);
      orders.sell.Some? ==> SellTargetsValid(orders.sell.value)
    requires Stowed(s.hold, s.spec.maxHold) && world[s.destination].gold >= 0.0
    ensures var e := PortTrade(k, s, agenda, world);
      Stowed(e.hold, s.spec.maxHold) && e.city.gold >= 0.0
  {
    var others := OtherStops(s, world);
    TradeAtPortSound(k, s.hold, world[s.destination], OrdersAt(agenda, s.destination), others, world[s.home], s.spec.maxHold);
  }

  /** A valid agenda has no negative sell target at any port. */
  lemma OrdersValid(agenda: Agenda, n: string)
    requires AgendaValid(agenda)
    ensures var orders := OrdersAt(agenda, n);
      orders.sell.Some? ==> SellTargetsValid(orders.sell.value)
  {
  }

  /** Departure from a valid state always succeeds, keeps the invariant,
      and changes the world only by what the home hands over. */
  lemma DepartValid(k: Market, s: Ship, world: World, u: real)
    requires Valid(s, world) && 0.0 <= u < 1.0
    ensures var r := Depart(k, s, world, u);
      r.Some? && Valid(r.value.ship, r.value.world) && Traded(world, r.value.world)
  {
    var r := Depart(k, s, world, u);
    if s.state == WaitingForDeparture && s.waiting == 0 {
      var loaded := LoadCargoToSell(k, s.hold, world[s.home], s.spec.maxHold, u);
      LoadCargoStowed(k, s.hold, world[s.home], s.spec.maxHold, u);
      assert loaded.city.location == world[s.home].location;
      ReplaceTraded(world, s.home, loaded.city);
      StillValid(s, world, r.value.ship, r.value.world);
    } else {
      StillValid(s, world, r.value.ship, r.value.world);
    }
  }

  /** Travel, arrival and departure each keep the invariant, so a step
      does; and the world changes only by trade. */
  lemma StepValid(m: Maths, s: Ship, world: World, u: real, rate: real)
    requires Valid(s, world) && 0.0 <= u < 1.0 && MinHandlingRate <= rate <= MaxHandlingRate
    ensures var r := Step(m, s, world, u, rate);
      r.Some? ==> Valid(r.value.ship, r.value.world) && Traded(world, r.value.world)
  {
    var k := CityMarket(m);
    var t := Travel(m, s, world);
    TravelValid(m, s, world);
    ArrivalValid(k, t, world, rate);
    var a := HandleArrival(k, t, world, rate);
    if a.Some? {
      DepartValid(k, a.value.ship, a.value.world, u);
      var r := Depart(k, a.value.ship, a.value.world, u);
      assert Step(m, s, world, u, rate) == r;
      TradedTransitive(world, a.value.world, r.value.world);
    }
  }

  lemma TradedTransitive(w0: World, w1: World, w2: World)
    requires Traded(w0, w1) && Traded(w1, w2)
    ensures Traded(w0, w2)
  {
  }

  /** From a valid state a step fails exactly when the ship lands at a
      port other than home without an agenda. */
  lemma StepFails(m: Maths, s: Ship, world: World, u: real, rate: real)
    requires Valid(s, world) && 0.0 <= u < 1.0 && MinHandlingRate <= rate <= MaxHandlingRate
    ensures var t := Travel(m, s, world);
      Step(m, s, world, u, rate).None? <==>
        t.state == ArrivedAtPort && t.location != world[s.home].location && s.agenda.None?
  {
    var k := CityMarket(m);
    var t := Travel(m, s, world);
    TravelValid(m, s, world);
    ArrivalValid(k, t, world, rate);
    var a := HandleArrival(k, t, world, rate);
    if a.Some? {
      DepartValid(k, a.value.ship, a.value.world, u);
    }
  }

  /** A ship in port at home stays there: a step settles with the owner
      again, empties the hold and never departs, since the state is left
      at "arrived". */
  lemma HomeIsFinal(m: Maths, s: Ship, world: World, u: real, rate: real)
    requires Valid(s, world) && 0.0 <= u < 1.0 && MinHandlingRate <= rate <= MaxHandlingRate
    requires s.state == ArrivedAtPort && s.location == world[s.home].location
    ensures var r := Step(m, s, world, u, rate);
      && r.Some? && r.value.ship.state == ArrivedAtPort && r.value.ship.location == s.location
      && r.value.ship.hold == EmptyHold && r.value.ship.waiting == 0
      && r.value.ship.stop == s.stop && r.value.ship.destination == s.destination
  {
  }

  /** At a port other than home the ship sails on in the same step
      exactly when no cargo moved; otherwise it waits in port. */
  lemma DepartsAtOnce(m: Maths, s: Ship, world: World, u: real, rate: real)
    requires Valid(s, world) && 0.0 <= u < 1.0 && MinHandlingRate <= rate <= MaxHandlingRate
    requires s.agenda.Some?
    requires var t := Travel(m, s, world);
      t.state == ArrivedAtPort && t.location != world[s.home].location
    ensures var t := Travel(m, s, world);
      var r := Step(m, s, world, u, rate);
      && r.Some?
      && (r.value.ship.state == AtSea <==> PortTrade(CityMarket(m), t, s.agenda.value, world).hold.cargo == t.hold.cargo)
      && (r.value.ship.state != AtSea ==> r.value.ship.state == WaitingForDeparture)
  {
    var k := CityMarket(m);
    var t := Travel(m, s, world);
    TravelValid(m, s, world);
    var c := CallAtPort(k, t, s.agenda.value, world, rate);
    assert HandleArrival(k, t, world, rate) == Some(c);
    CallAtPortValid(k, t, world, rate);
    DepartValid(k, c.ship, c.world, u);
  }

  /** The buy rule's price test: the port's price is at most the minimum
      over the port and the later stops of the route exactly when it is
      at most each price among the other later stops. */
  lemma OtherStopsCheapest(k: Market, s: Ship, world: World, r: Resource)
    requires Charted(s, world)
    ensures var here := world[s.destination];
      CheapestHere(k, here, OtherStops(s, world), r) <==>
        forall i :: s.stop < i < |s.route| ==> k.price(here, r) <= k.price(world[s.route[i]], r)
  {
    var here := world[s.destination];
    var cs := OtherStops(s, world);
    OtherStopsAre(s, world);
    if CheapestHere(k, here, cs, r) {
      forall i | s.stop < i < |s.route| ensures k.price(here, r) <= k.price(world[s.route[i]], r) {
        if s.route[i] != s.destination {
          var j :| 0 <= j < |cs| && cs[j] == world[s.route[i]];
        }
      }
    }
    if forall i :: s.stop < i < |s.route| ==> k.price(here, r) <= k.price(world[s.route[i]], r) {
      forall j | 0 <= j < |cs| ensures k.price(here, r) <= k.price(cs[j], r) {
        assert cs[j] in cs;
      }
    }
  }
}
