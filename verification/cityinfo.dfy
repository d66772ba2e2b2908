/** The information market `City.buy_city_info` (city.py): a city buys
    snapshots of other cities' markets from a source, unknown names first and
    then the most outdated, one fixed fee each, while its gold lasts. */
module CityInfo {

  import opened Wrappers
  import opened Numerics
  import opened Ranking
  import opened Cities

  /** CITY_INFORMATION_PRICE_IN_GOLD */
  const InformationPrice: real := 100.0

  /** At most one entry per name: a dict keyed by name. */
  ghost predicate Keyed(info: seq<City>) {
    forall x, y :: x in info && y in info && x.name == y.name ==> x == y
  }

  /** `information.get(name)`. */
  function Lookup(info: seq<City>, name: string): (r: Option<City>)
    ensures r.Some? ==> r.value in info && r.value.name == name
    ensures r.None? ==> forall c :: c in info ==> c.name != name
  {
    if |info| == 0 then None
    else if info[0].name == name then Some(info[0])
    else Lookup(info[1..], name)
  }

  /** With one entry per name, a lookup finds any entry of that name. */
  lemma LookupKeyed(info: seq<City>, c: City)
    requires Keyed(info) && c in info
    ensures Lookup(info, c.name) == Some(c)
  {
  }

  /** `information[snap.name] = snap`: replaces the entry of that name in
      place, or appends a new one. */
  function Store(info: seq<City>, snap: City): (r: seq<City>)
    ensures forall n :: Lookup(r, n) == if n == snap.name then Some(snap) else Lookup(info, n)
  {
    if |info| == 0 then [snap]
    else if info[0].name == snap.name then [snap] + info[1..]
    else
      var r := [info[0]] + Store(info[1..], snap);
      assert r[1..] == Store(info[1..], snap);
      r
  }

  /** The item `x` is among the offers. */
  ghost predicate Offered(offers: seq<Ranked<City>>, x: City) {
    exists o :: o in offers && o.item == x
  }

  /** Stores the first `k` offered snapshots one after the other. */
  function StoreFirst(info: seq<City>, offers: seq<Ranked<City>>, k: nat): (r: seq<City>)
    requires k <= |offers|
    decreases k
  {
    if k == 0 then info else StoreFirst(Store(info, offers[0].item), offers[1..], k - 1)
  }

  /** After storing the first `k` offers, a name none of them carries
      looks up as before. */
  lemma {:induction false} StoreFirstKeeps(info: seq<City>, offers: seq<Ranked<City>>, k: nat, n: string)
    requires k <= |offers|
    requires forall i :: 0 <= i < k ==> offers[i].item.name != n
    ensures Lookup(StoreFirst(info, offers, k), n) == Lookup(info, n)
    decreases k
  {
    if k > 0 {
      var stored := Store(info, offers[0].item);
      assert forall i :: 0 <= i < k - 1 ==> offers[1..][i] == offers[i + 1];
      StoreFirstKeeps(stored, offers[1..], k - 1, n);
      assert Lookup(stored, n) == Lookup(info, n);
    }
  }

  /** After storing the first `k` offers, each of their names looks up to
      an offered snapshot. */
  lemma {:induction false} StoreFirstFinds(info: seq<City>, offers: seq<Ranked<City>>, k: nat, i: nat)
    requires i < k <= |offers|
    ensures var found := Lookup(StoreFirst(info, offers, k), offers[i].item.name);
      found.Some? && Offered(offers, found.value)
    decreases k
  {
    var stored := Store(info, offers[0].item);
    var rest := offers[1..];
    var name := offers[i].item.name;
    var r := StoreFirst(info, offers, k);
    assert r == StoreFirst(stored, rest, k - 1);
    if j :| 0 <= j < k - 1 && rest[j].item.name == name {
      StoreFirstFinds(stored, rest, k - 1, j);
      var o :| o in rest && o.item == Lookup(r, name).value;
      assert o in offers;
    } else {
      StoreFirstKeeps(stored, rest, k - 1, name);
      assert Lookup(stored, name) == Some(offers[0].item);
      assert offers[0] in offers;
    }
  }

  /** The entries other than `name`, in order. */
  function Without(info: seq<City>, name: string): (r: seq<City>)
    ensures forall n :: Lookup(r, n) == if n == name then None else Lookup(info, n)
    ensures forall c :: c in r ==> c in info && c.name != name
  {
    if |info| == 0 then []
    else if info[0].name == name then Without(info[1..], name)
    else
      var r := [info[0]] + Without(info[1..], name);
      assert r[1..] == Without(info[1..], name);
      r
  }

  /** What the source has on offer for the source's own name: its stored
      snapshot of itself if it has one (the right-hand side of a dict union
      wins), else the source itself. */
  function SelfEntry(source: City): (c: City)
    ensures c.name == source.name
  {
    match Lookup(source.information, source.name)
    case Some(s) => s
    case None => source
  }

  /** `{source.name: source} | source.information`: the source's name
      first, then the source's information in its own order. */
  function Candidates(source: City): (r: seq<City>)
    ensures |r| > 0 && r[0].name == source.name
    ensures forall n :: Lookup(r, n) == if n == source.name then Some(SelfEntry(source)) else Lookup(source.information, n)
    ensures Keyed(source.information) ==> Keyed(r)
  {
    var rest := Without(source.information, source.name);
    var r := [SelfEntry(source)] + rest;
    assert r[1..] == rest;
    assert forall c :: c in r ==> c == r[0] || c in rest;
    r
  }

  /** A candidate is worth buying when its name is unknown to the buyer or
      it is strictly more recent than the buyer's copy. */
  predicate IsNewer(buyer: City, c: City) {
    match Lookup(buyer.information, c.name)
    case None => true
    case Some(known) => c.recency > known.recency
  }

  /** Infinite for an unknown name, else the recency gap. */
  function Priority(buyer: City, c: City): Rank {
    match Lookup(buyer.information, c.name)
    case None => Infinite
    case Some(known) => Finite((c.recency - known.recency) as real)
  }

  /** The candidates worth buying, in candidate order, with their priority. */
  function Offers(buyer: City, cands: seq<City>): (r: seq<Ranked<City>>)
    ensures forall o :: o in r ==> o.item in cands && IsNewer(buyer, o.item) && o.rank == Priority(buyer, o.item)
    ensures forall c :: c in cands && IsNewer(buyer, c) ==> Ranked(c, Priority(buyer, c)) in r
  {
    if |cands| == 0 then []
    else
      var c := cands[0];
      var rest := Offers(buyer, cands[1..]);
      assert forall x :: x in cands ==> x == c || x in cands[1..];
      if IsNewer(buyer, c) then [Ranked(c, Priority(buyer, c))] + rest else rest
  }

  /** The offers from most to least outdated; stable, so unknown names keep
      the candidate order among themselves. */
  function RankedOffers(buyer: City, source: City): seq<Ranked<City>> {
    SortDesc(Offers(buyer, Candidates(source)))
  }

  /** How many of `n` facts a buyer starting with `gold` acquires when it
      pays the fee for one fact at a time while its gold covers the fee. */
  function Affordable(gold: real, n: nat): (k: nat)
    ensures k <= n
    ensures gold < InformationPrice ==> k == 0
  {
    if n == 0 || gold < InformationPrice then 0 else 1 + Affordable(gold - InformationPrice, n - 1)
  }

  /** The count in closed form: as many facts as whole fees fit in the
      gold, but no more than are on offer. */
  lemma {:induction false} AffordableClosedForm(gold: real, n: nat)
    ensures gold >= 0.0 ==> Affordable(gold, n) == if n <= (gold / InformationPrice).Floor then n else (gold / InformationPrice).Floor
    decreases n
  {
    if n > 0 && gold >= InformationPrice {
      AffordableClosedForm(gold - InformationPrice, n - 1);
      assert (gold - InformationPrice) / InformationPrice == gold / InformationPrice - 1.0;
      assert ((gold - InformationPrice) / InformationPrice).Floor == (gold / InformationPrice).Floor - 1;
    } else if n > 0 && gold >= 0.0 {
      assert (gold / InformationPrice).Floor == 0;
    }
  }

  /** Whatever is affordable costs no more than the gold there is. */
  lemma {:induction false} AffordableWithinGold(gold: real, n: nat)
    ensures gold >= 0.0 ==> InformationPrice * Affordable(gold, n) as real <= gold
    decreases n
  {
    if n > 0 && gold >= InformationPrice {
      AffordableWithinGold(gold - InformationPrice, n - 1);
    }
  }

  datatype InfoSale = InfoSale(buyer: City, fee: real)

  /** The purchase loop over the ranked offers: one fee per acquired fact,
      paid out of the buyer's gold; only gold and information change. */
  function Acquire(buyer: City, offers: seq<Ranked<City>>): (s: InfoSale)
    ensures s.fee == InformationPrice * Affordable(buyer.gold, |offers|) as real
    ensures s.buyer == buyer.(gold := buyer.gold - s.fee, information := s.buyer.information)
    decreases |offers|
  {
    if |offers| == 0 || buyer.gold < InformationPrice then InfoSale(buyer, 0.0)
    else
      var next := buyer.(information := Store(buyer.information, offers[0].item), gold := buyer.gold - InformationPrice);
      var rest := Acquire(next, offers[1..]);
      InfoSale(rest.buyer, rest.fee + InformationPrice)
  }

  /** The loop stores the first `k` offers in turn, `k` being as many fees
      as the buyer affords. */
  lemma {:induction false} AcquireStores(buyer: City, offers: seq<Ranked<City>>)
    ensures Acquire(buyer, offers).buyer.information == StoreFirst(buyer.information, offers, Affordable(buyer.gold, |offers|))
    decreases |offers|
  {
    if |offers| > 0 && buyer.gold >= InformationPrice {
      var next := buyer.(information := Store(buyer.information, offers[0].item), gold := buyer.gold - InformationPrice);
      AcquireStores(next, offers[1..]);
      StoreFirstStep(buyer.information, offers, Affordable(buyer.gold, |offers|));
    }
  }

  /** Storing the first `k` offers is storing the first, then the next
      `k - 1`. */
  lemma StoreFirstStep(info: seq<City>, offers: seq<Ranked<City>>, k: nat)
    requires 0 < k <= |offers|
    ensures StoreFirst(info, offers, k) == StoreFirst(Store(info, offers[0].item), offers[1..], k - 1)
  {
  }

  /** `City.buy_city_info`: the fee is one price per acquired fact, the
      buyer pays exactly the fee, only gold and information change, gold
      never goes negative, and a buyer below one fee acquires nothing. */
  function BuyCityInfo(buyer: City, source: City): (s: InfoSale)
    ensures s.fee == InformationPrice * Affordable(buyer.gold, |RankedOffers(buyer, source)|) as real
    ensures s.buyer.gold == buyer.gold - s.fee
    ensures s.buyer == buyer.(gold := s.buyer.gold, information := s.buyer.information)
    ensures buyer.gold >= 0.0 ==> s.fee >= 0.0 && s.buyer.gold >= 0.0
    ensures buyer.gold < InformationPrice ==> s.fee == 0.0 && s.buyer == buyer
  {
    AffordableWithinGold(buyer.gold, |RankedOffers(buyer, source)|);
    Acquire(buyer, RankedOffers(buyer, source))
  }

  /** The buyer's information after the purchase: the first `k` ranked
      offers stored in turn, `k` being as many fees as the buyer affords. */
  lemma BuyCityInfoStores(buyer: City, source: City)
    ensures BuyCityInfo(buyer, source).buyer.information ==
      StoreFirst(buyer.information, RankedOffers(buyer, source), Affordable(buyer.gold, |RankedOffers(buyer, source)|))
  {
    AcquireStores(buyer, RankedOffers(buyer, source));
  }

  /** Sorting neither adds nor drops offers. */
  lemma RankedAreOffers(buyer: City, source: City)
    ensures forall o :: o in RankedOffers(buyer, source) <==> o in Offers(buyer, Candidates(source))
  {
    var offers := Offers(buyer, Candidates(source));
    var ranked := RankedOffers(buyer, source);
    forall o ensures o in ranked <==> o in offers {
      assert o in ranked <==> o in multiset(ranked);
      assert o in offers <==> o in multiset(offers);
    }
  }

  /** The ranking holds exactly the candidates the buyer lacks or holds an
      older copy of, each with its priority. */
  lemma RankedOffersAreNewer(buyer: City, source: City)
    ensures forall o :: o in RankedOffers(buyer, source) <==>
      o.item in Candidates(source) && IsNewer(buyer, o.item) && o.rank == Priority(buyer, o.item)
  {
    RankedAreOffers(buyer, source);
  }

  /** Unknown names come first; among known names the larger recency gap
      comes first. */
  lemma RankedOffersOrder(buyer: City, source: City, i: int, j: int)
    requires 0 <= i < j < |RankedOffers(buyer, source)|
    ensures var ranked := RankedOffers(buyer, source);
      var a, b := ranked[i].item, ranked[j].item;
      && (Lookup(buyer.information, b.name).None? ==> Lookup(buyer.information, a.name).None?)
      && (Lookup(buyer.information, a.name).Some? && Lookup(buyer.information, b.name).Some? ==>
            a.recency - Lookup(buyer.information, a.name).value.recency
            >= b.recency - Lookup(buyer.information, b.name).value.recency)
  {
    var ranked := RankedOffers(buyer, source);
    RankedOffersAreNewer(buyer, source);
    assert ranked[i] in ranked && ranked[j] in ranked;
    assert AtLeast(ranked[i].rank, ranked[j].rank);
  }

  /** The acquired facts are a prefix of the ranking: each of the first `k`
      ranked names now maps to the source's snapshot of that name, which
      was unknown or outdated before, and every other name is untouched. */
  lemma AcquiredPrefix(buyer: City, source: City)
    requires Keyed(source.information)
    ensures var ranked := RankedOffers(buyer, source);
      var k := Affordable(buyer.gold, |ranked|);
      var after := BuyCityInfo(buyer, source).buyer.information;
      && (forall n :: (forall i :: 0 <= i < k ==> ranked[i].item.name != n) ==>
            Lookup(after, n) == Lookup(buyer.information, n))
      && (forall i :: 0 <= i < k ==>
            Lookup(after, ranked[i].item.name) == Some(ranked[i].item)
            && ranked[i].item in Candidates(source)
            && IsNewer(buyer, ranked[i].item))
  {
    var ranked := RankedOffers(buyer, source);
    var k := Affordable(buyer.gold, |ranked|);
    var after := BuyCityInfo(buyer, source).buyer.information;
    var cands := Candidates(source);
    BuyCityInfoStores(buyer, source);
    forall n | forall i :: 0 <= i < k ==> ranked[i].item.name != n
      ensures Lookup(after, n) == Lookup(buyer.information, n)
    {
      StoreFirstKeeps(buyer.information, ranked, k, n);
    }
    RankedOffersAreNewer(buyer, source);
    forall i | 0 <= i < k
      ensures Lookup(after, ranked[i].item.name) == Some(ranked[i].item)
    {
      assert ranked[i] in ranked;
      StoreFirstFinds(buyer.information, ranked, k, i);
      var x := Lookup(after, ranked[i].item.name).value;
      assert Offered(ranked, x);
    }
  }

  /** Nothing is offered when no candidate is newer than the buyer's copy. */
  lemma NothingNewerNoOffers(buyer: City, cands: seq<City>)
    requires forall c :: c in cands ==> !IsNewer(buyer, c)
    ensures Offers(buyer, cands) == []
  {
  }

  /** A newer candidate is ranked, so a full acquisition stores it. */
  lemma CaughtUpNewer(buyer: City, source: City, c: City)
    requires Keyed(source.information) && c in Candidates(source) && IsNewer(buyer, c)
    requires Affordable(buyer.gold, |RankedOffers(buyer, source)|) == |RankedOffers(buyer, source)|
    ensures Lookup(BuyCityInfo(buyer, source).buyer.information, c.name) == Some(c)
  {
    var ranked := RankedOffers(buyer, source);
    AcquiredPrefix(buyer, source);
    RankedOffersAreNewer(buyer, source);
    assert Ranked(c, Priority(buyer, c)) in ranked;
    var i :| 0 <= i < |ranked| && ranked[i] == Ranked(c, Priority(buyer, c));
  }

  /** A candidate that is not newer shares its name with no ranked offer,
      so the buyer's copy of that name stays as it was. */
  lemma CaughtUpStale(buyer: City, source: City, c: City)
    requires Keyed(source.information) && c in Candidates(source) && !IsNewer(buyer, c)
    ensures Lookup(BuyCityInfo(buyer, source).buyer.information, c.name) == Lookup(buyer.information, c.name)
  {
    var ranked := RankedOffers(buyer, source);
    var k := Affordable(buyer.gold, |ranked|);
    AcquiredPrefix(buyer, source);
    forall i | 0 <= i < k
      ensures ranked[i].item.name != c.name
    {
      assert ranked[i].item in Candidates(source) && IsNewer(buyer, ranked[i].item);
    }
  }

  /** After acquiring every ranked offer, a candidate is no longer newer
      than the buyer's copy. */
  lemma CaughtUpCandidate(buyer: City, source: City, c: City)
    requires Keyed(source.information) && c in Candidates(source)
    requires Affordable(buyer.gold, |RankedOffers(buyer, source)|) == |RankedOffers(buyer, source)|
    ensures !IsNewer(BuyCityInfo(buyer, source).buyer, c)
  {
    if IsNewer(buyer, c) {
      CaughtUpNewer(buyer, source, c);
    } else {
      CaughtUpStale(buyer, source, c);
    }
  }

  /** Buying twice from the same source after a full first acquisition
      costs nothing the second time. */
  lemma CaughtUpBuysNothing(buyer: City, source: City)
    requires Keyed(source.information)
    requires Affordable(buyer.gold, |RankedOffers(buyer, source)|) == |RankedOffers(buyer, source)|
    ensures BuyCityInfo(BuyCityInfo(buyer, source).buyer, source).fee == 0.0
  {
    var after := BuyCityInfo(buyer, source).buyer;
    forall c | c in Candidates(source)
      ensures !IsNewer(after, c)
    {
      CaughtUpCandidate(buyer, source, c);
    }
    NothingNewerNoOffers(after, Candidates(source));
  }

  /** A buyer that does not know the source and can pay one fee learns the
      source's own snapshot: the source's entry leads the candidates, an
      unknown name ranks highest, and the stable sort keeps it ahead of the
      other unknown names. */
  lemma SourceLearnedFirst(buyer: City, source: City)
    requires Keyed(source.information)
    requires Lookup(buyer.information, source.name).None?
    requires buyer.gold >= InformationPrice
    ensures Lookup(BuyCityInfo(buyer, source).buyer.information, source.name) == Some(SelfEntry(source))
  {
    var cands := Candidates(source);
    assert Lookup(cands, source.name) == Some(cands[0]);
    var offers := Offers(buyer, cands);
    assert offers[0] == Ranked(cands[0], Infinite);
    LevelFirst(offers, Infinite);
    SortDescStable(offers, Infinite);
    var ranked := RankedOffers(buyer, source);
    TopRankFirst(ranked);
    assert Affordable(buyer.gold, |ranked|) >= 1;
    AcquiredPrefix(buyer, source);
  }
}
