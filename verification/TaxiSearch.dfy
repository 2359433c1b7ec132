/**
 The two ways to look for taxis near a customer: the public search, which keeps
 the freshest description of each taxi and then asks whether the customer is
 within its radius, and the search for a reassignment, which asks first.
 */
module TaxiSearch {
  import opened Wrappers
  import opened PositionIndex
  import opened SearchConfig

  // ------------------------------------------------- rows, hits and locations

  datatype Description = Description(
    operator: Operator,
    free: bool,
    lastUpdate: Option<int>,
    radius: Option<int>)

  /** A taxi joined with one of the descriptions of its vehicle. */
  datatype Row = Row(taxi: Taxi, insee: nat, description: Description)

  /** A member of the index, with its distance from the customer. */
  datatype Hit = Hit(member: Member, distance: real)

  datatype Location = Location(distance: real, updateDate: Option<int>)

  type Locations = map<Taxi, map<Operator, Location>>

  datatype Offer = Offer(taxi: Taxi, description: Description, location: Location)

  function At(locations: Locations, taxi: Taxi, operator: Operator): Option<Location> {
    if taxi in locations && operator in locations[taxi] then Some(locations[taxi][operator]) else None
  }

  /** The hits within the distance, nearest first, and no more than the count when there is one. */
  function GeoRadius(ranked: seq<Hit>, distance: int, count: nat): seq<Hit> {
    var near := WithinDistance(ranked, distance as real);
    if count == 0 || |near| <= count then near else near[..count]
  }

  function WithinDistance(ranked: seq<Hit>, distance: real): (r: seq<Hit>)
    ensures forall h :: h in r <==> h in ranked && h.distance <= distance
  {
    if ranked == [] then []
    else (if ranked[0].distance <= distance then [ranked[0]] else []) + WithinDistance(ranked[1..], distance)
  }

  /** A score of zero counts as no date. */
  function DateOf(timestamps: map<Member, int>, m: Member): Option<int> {
    if m in timestamps && timestamps[m] != 0 then Some(timestamps[m]) else None
  }

  /** The location of a member is that of its last hit. */
  function LocationAmong(hits: seq<Hit>, timestamps: map<Member, int>, m: Member): Option<Location> {
    if hits == [] then None
    else
      var n := |hits| - 1;
      if hits[n].member == m then Some(Location(hits[n].distance, DateOf(timestamps, m)))
      else LocationAmong(hits[..n], timestamps, m)
  }

  /** Files a hit under its taxi and its operator. */
  function WithHit(locations: Locations, h: Hit, date: Option<int>): Locations {
    var byOperator: map<Operator, Location> := if h.member.taxi in locations then locations[h.member.taxi] else map[];
    locations[h.member.taxi := byOperator[h.member.operator := Location(h.distance, date)]]
  }

  function LocationsOf(hits: seq<Hit>, timestamps: map<Member, int>): Locations {
    if hits == [] then map[]
    else
      var n := |hits| - 1;
      WithHit(LocationsOf(hits[..n], timestamps), hits[n], DateOf(timestamps, hits[n].member))
  }

  method TaxisLocationsByOperator(ranked: seq<Hit>, timestamps: map<Member, int>, distance: int, count: nat)
    returns (locations: Locations)
    ensures locations == LocationsOf(GeoRadius(ranked, distance, count), timestamps)
  {
    locations := map[];
    var data := GeoRadius(ranked, distance, count);
    for i := 0 to |data|
      invariant locations == LocationsOf(data[..i], timestamps)
    {
      var m := data[i].member;
      assert data[..i + 1][..i] == data[..i];
      if m.taxi !in locations {
        locations := locations[m.taxi := map[]];
      }
      var byOperator: map<Operator, Location> := locations[m.taxi];
      byOperator := byOperator[m.operator := Location(data[i].distance, DateOf(timestamps, m))];
      locations := locations[m.taxi := byOperator];
    }
    assert data[..|data|] == data;
  }

  /** A location is filed exactly where its member was hit. */
  lemma {:induction false} LocationsAreFiled(hits: seq<Hit>, timestamps: map<Member, int>, t: Taxi, o: Operator)
    ensures At(LocationsOf(hits, timestamps), t, o) == LocationAmong(hits, timestamps, Member(t, o))
    ensures t in LocationsOf(hits, timestamps) <==> exists h | h in hits :: h.member.taxi == t
  {
    if hits != [] {
      var n := |hits| - 1;
      LocationsAreFiled(hits[..n], timestamps, t, o);
      assert hits == hits[..n] + [hits[n]];
    }
  }

  /** A member has a location exactly when it is among the hits. */
  lemma {:induction false} LocationIsHit(hits: seq<Hit>, timestamps: map<Member, int>, m: Member)
    ensures LocationAmong(hits, timestamps, m).Some? <==> exists h | h in hits :: h.member == m
    ensures LocationAmong(hits, timestamps, m).Some? ==>
              var location := LocationAmong(hits, timestamps, m).value;
              Hit(m, location.distance) in hits && location.updateDate == DateOf(timestamps, m)
  {
    if hits != [] {
      var n := |hits| - 1;
      LocationIsHit(hits[..n], timestamps, m);
      assert hits == hits[..n] + [hits[n]];
    }
  }

  // ------------------------------------------------- the freshest description

  /** Keeps the first only when both have a date and the first is not older. */
  function Fresher(a: Offer, b: Offer): Offer {
    if a.description.lastUpdate.Some? && b.description.lastUpdate.Some?
       && a.description.lastUpdate.value >= b.description.lastUpdate.value
    then a else b
  }

  function Freshest(offers: seq<Offer>): Offer
    requires offers != []
  {
    var n := |offers| - 1;
    if n == 0 then offers[0] else Fresher(Freshest(offers[..n]), offers[n])
  }

  predicate Dated(o: Offer) {
    o.description.lastUpdate.Some?
  }

  predicate NotLater(a: Offer, b: Offer) {
    Dated(a) && Dated(b) && a.description.lastUpdate.value <= b.description.lastUpdate.value
  }

  /** The offer at i is at least as fresh as every one from the place given, and fresher than those before it. */
  ghost predicate FirstLatest(offers: seq<Offer>, from: nat, i: nat)
    requires from <= i < |offers|
  {
    && (forall k | from <= k < |offers| :: NotLater(offers[k], offers[i]))
    && (forall k | from <= k < i :: !NotLater(offers[i], offers[k]))
  }

  /** The place just after the last offer without a date. */
  function AfterLastUndated(offers: seq<Offer>): (n: nat)
    ensures n <= |offers|
    ensures forall k | n <= k < |offers| :: Dated(offers[k])
    ensures n > 0 ==> !Dated(offers[n - 1])
  {
    if offers == [] then 0
    else if !Dated(offers[|offers| - 1]) then |offers|
    else AfterLastUndated(offers[..|offers| - 1])
  }

  /** The first of the latest, once one more offer with a date is known. */
  function FirstOf(offers: seq<Offer>, i: nat, n: nat): nat
    requires i < |offers| && n < |offers| && Dated(offers[i]) && Dated(offers[n])
  {
    if offers[i].description.lastUpdate.value >= offers[n].description.lastUpdate.value then i else n
  }

  lemma {:induction false} LatestOfNext(offers: seq<Offer>, n: nat, from: nat, i: nat)
    requires |offers| == n + 1 && Dated(offers[n])
    requires from <= i < n && FirstLatest(offers[..n], from, i)
    ensures Dated(offers[i]) && FirstLatest(offers, from, FirstOf(offers, i, n))
    ensures Fresher(offers[i], offers[n]) == offers[FirstOf(offers, i, n)]
  {
  }

  /**
   What is kept is the first of the latest offers after the last one without
   a date, or that one when nothing follows it. Without undated offers that
   is the first of the latest.
   */
  lemma {:induction false} FreshestIsLatest(offers: seq<Offer>)
    requires offers != []
    ensures
      var from := AfterLastUndated(offers);
      if from == |offers| then Freshest(offers) == offers[from - 1]
      else exists i | from <= i < |offers| :: FirstLatest(offers, from, i) && Freshest(offers) == offers[i]
  {
    var n := |offers| - 1;
    var from := AfterLastUndated(offers);
    if n == 0 {
      assert from == 0 ==> FirstLatest(offers, 0, 0);
    } else if Dated(offers[n]) {
      FreshestIsLatest(offers[..n]);
      if from == n {
        assert FirstLatest(offers, from, n);
      } else {
        var i :| from <= i < n && FirstLatest(offers[..n], from, i) && Freshest(offers[..n]) == offers[..n][i];
        LatestOfNext(offers, n, from, i);
      }
    }
  }

  // ------------------------------------------------- the rows of a search

  /** What a search is asked, and what it finds in the index. */
  datatype Query = Query(settings: Settings, allowed: set<nat>, locations: Locations, now: real)

  /** The position is known, the taxi is free, and the position is fresh. */
  predicate Usable(q: Query, row: Row) {
    var location := At(q.locations, row.taxi, row.description.operator);
    && location.Some?
    && row.description.free
    && location.value.updateDate.Some?
    && location.value.updateDate.value as real + q.settings.gpsFreshness as real >= q.now
  }

  function OfferOf(q: Query, row: Row): Offer
    requires Usable(q, row)
  {
    Offer(row.taxi, row.description, At(q.locations, row.taxi, row.description.operator).value)
  }

  predicate InReach(q: Query, o: Offer) {
    o.location.distance <= RadiusOrDefault(q.settings, o.description.radius) as real
  }

  /** The rows that the public query selects, for a viewer who sees one operator or all. */
  function Selected(q: Query, engaged: set<Taxi>, viewer: Option<Operator>, table: seq<Row>): seq<Row> {
    if table == [] then []
    else
      var n := |table| - 1;
      var row := table[n];
      var rows := Selected(q, engaged, viewer, table[..n]);
      if row.taxi in q.locations && row.taxi !in engaged && row.insee in q.allowed
         && (viewer.None? || row.description.operator == viewer.value) then rows + [row] else rows
  }

  /** The rows that the query of a reassignment selects, without the taxis already asked. */
  function Contactable(q: Query, excluded: set<Taxi>, table: seq<Row>): seq<Row> {
    if table == [] then []
    else
      var n := |table| - 1;
      var row := table[n];
      var rows := Contactable(q, excluded, table[..n]);
      if row.taxi in q.locations && row.insee in q.allowed && row.taxi !in excluded then rows + [row] else rows
  }

  /** The usable offers of one taxi, in the order of the rows. */
  function OffersOf(q: Query, rows: seq<Row>, taxi: Taxi): seq<Offer> {
    if rows == [] then []
    else
      var n := |rows| - 1;
      var offers := OffersOf(q, rows[..n], taxi);
      if rows[n].taxi == taxi && Usable(q, rows[n]) then offers + [OfferOf(q, rows[n])] else offers
  }

  /** The offers whose drivers accept the distance. */
  function Reaching(q: Query, offers: seq<Offer>): seq<Offer> {
    if offers == [] then []
    else
      var n := |offers| - 1;
      var reaching := Reaching(q, offers[..n]);
      if InReach(q, offers[n]) then reaching + [offers[n]] else reaching
  }

  lemma {:induction false} SelectedRows(q: Query, engaged: set<Taxi>, viewer: Option<Operator>, table: seq<Row>)
    ensures forall row :: row in Selected(q, engaged, viewer, table) <==>
      && row in table && row.taxi in q.locations && row.taxi !in engaged && row.insee in q.allowed
      && (viewer.None? || row.description.operator == viewer.value)
  {
    if table != [] {
      var n := |table| - 1;
      SelectedRows(q, engaged, viewer, table[..n]);
      assert table == table[..n] + [table[n]];
    }
  }

  lemma {:induction false} OffersOfRows(q: Query, rows: seq<Row>, taxi: Taxi)
    ensures forall o :: o in OffersOf(q, rows, taxi) <==>
                          exists row | row in rows :: row.taxi == taxi && Usable(q, row) && OfferOf(q, row) == o
  {
    if rows != [] {
      var n := |rows| - 1;
      OffersOfRows(q, rows[..n], taxi);
      assert rows == rows[..n] + [rows[n]];
    }
  }

  lemma {:induction false} ReachingOffers(q: Query, offers: seq<Offer>)
    ensures forall o :: o in Reaching(q, offers) <==> o in offers && InReach(q, o)
  {
    if offers != [] {
      var n := |offers| - 1;
      ReachingOffers(q, offers[..n]);
      assert offers == offers[..n] + [offers[n]];
    }
  }

  // ------------------------------------------------- sorting

  predicate Sorted(offers: seq<Offer>) {
    forall i, j | 0 <= i < j < |offers| :: offers[i].location.distance <= offers[j].location.distance
  }

  lemma {:induction false} NearestFirst(offers: seq<Offer>)
    requires offers != [] && Sorted(offers)
    ensures Sorted(offers[1..])
    ensures forall x | x in offers[1..] :: offers[0].location.distance <= x.location.distance
  {
  }

  lemma {:induction false} NearerBefore(o: Offer, offers: seq<Offer>)
    requires Sorted(offers) && forall x | x in offers :: o.location.distance <= x.location.distance
    ensures Sorted([o] + offers)
  {
  }

  /** Places an offer after those that are not farther. */
  function InsertByDistance(offers: seq<Offer>, o: Offer): (r: seq<Offer>)
    requires Sorted(offers)
    ensures Sorted(r) && multiset(r) == multiset(offers) + multiset{o}
    ensures forall x | x in r :: x == o || x in offers
  {
    if offers == [] || o.location.distance < offers[0].location.distance then [o] + offers
    else
      assert offers == [offers[0]] + offers[1..];
      NearestFirst(offers);
      var rest := InsertByDistance(offers[1..], o);
      NearerBefore(offers[0], rest);
      [offers[0]] + rest
  }

  /** A stable sort. */
  function SortByDistance(offers: seq<Offer>): (r: seq<Offer>)
    ensures Sorted(r) && multiset(r) == multiset(offers)
  {
    if offers == [] then []
    else
      var n := |offers| - 1;
      assert offers == offers[..n] + [offers[n]];
      InsertByDistance(SortByDistance(offers[..n]), offers[n])
  }

  lemma {:induction false} SortKeepsMembers(offers: seq<Offer>)
    ensures forall o :: o in SortByDistance(offers) <==> o in offers
    ensures |SortByDistance(offers)| == |offers|
  {
    forall o
      ensures o in SortByDistance(offers) <==> o in offers
    {
      assert o in multiset(SortByDistance(offers)) <==> o in multiset(offers);
    }
    assert |multiset(SortByDistance(offers))| == |multiset(offers)|;
  }

  /** The offers at one distance, in their order. */
  function AtDistance(offers: seq<Offer>, distance: real): seq<Offer> {
    if offers == [] then []
    else
      var n := |offers| - 1;
      AtDistance(offers[..n], distance) + (if offers[n].location.distance == distance then [offers[n]] else [])
  }

  lemma {:induction false} AtDistanceOfSum(a: seq<Offer>, b: seq<Offer>, distance: real)
    ensures AtDistance(a + b, distance) == AtDistance(a, distance) + AtDistance(b, distance)
  {
    if b == [] {
      assert a + b == a;
    } else {
      var n := |b| - 1;
      assert (a + b)[..|a| + n] == a + b[..n];
      AtDistanceOfSum(a, b[..n], distance);
    }
  }

  lemma {:induction false} NoneAtDistance(offers: seq<Offer>, distance: real)
    requires forall i | 0 <= i < |offers| :: distance < offers[i].location.distance
    ensures AtDistance(offers, distance) == []
  {
    if offers != [] {
      NoneAtDistance(offers[..|offers| - 1], distance);
    }
  }

  lemma {:induction false} OneAtDistance(o: Offer, distance: real)
    ensures AtDistance([o], distance) == if o.location.distance == distance then [o] else []
  {
    assert [o][..0] == [];
  }

  lemma {:induction false} FartherFollow(o: Offer, offers: seq<Offer>, distance: real)
    requires Sorted(offers) && (offers == [] || o.location.distance < offers[0].location.distance)
    ensures AtDistance([o] + offers, distance) == AtDistance(offers, distance) + AtDistance([o], distance)
  {
    AtDistanceOfSum([o], offers, distance);
    OneAtDistance(o, distance);
    if o.location.distance == distance {
      NoneAtDistance(offers, distance);
    }
  }

  lemma {:induction false} InsertedLastAtDistance(offers: seq<Offer>, o: Offer, distance: real)
    requires Sorted(offers)
    ensures AtDistance(InsertByDistance(offers, o), distance) ==
            AtDistance(offers, distance) + AtDistance([o], distance)
  {
    if offers == [] || o.location.distance < offers[0].location.distance {
      FartherFollow(o, offers, distance);
    } else {
      var first, rest := [offers[0]], offers[1..];
      InsertedLastAtDistance(rest, o, distance);
      AtDistanceOfSum(first, rest, distance);
      AtDistanceOfSum(first, InsertByDistance(rest, o), distance);
      assert InsertByDistance(offers, o) == first + InsertByDistance(rest, o) && offers == first + rest;
    }
  }

  /** Sorting leaves the offers at each distance in the order in which they came. */
  lemma {:induction false} SortIsStable(offers: seq<Offer>, distance: real)
    ensures AtDistance(SortByDistance(offers), distance) == AtDistance(offers, distance)
  {
    if offers != [] {
      var n := |offers| - 1;
      SortIsStable(offers[..n], distance);
      OneAtDistance(offers[n], distance);
      InsertedLastAtDistance(SortByDistance(offers[..n]), offers[n], distance);
    }
  }
}
