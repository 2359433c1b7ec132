/**
 The public search and the search for a reassignment as loops over the selected
 rows, what each returns, and how the two agree.
 */
module SearchPipelines {
  import opened Wrappers
  import opened OrderedDict
  import opened PositionIndex
  import opened SearchConfig
  import opened TaxiSearch

  // ------------------------------------------------- what the loops build

  /** The offers of each taxi, in the order in which taxis and offers came. */
  function Grouped(q: Query, rows: seq<Row>): Dict<Taxi, seq<Offer>> {
    if rows == [] then []
    else
      var n := |rows| - 1;
      var d := Grouped(q, rows[..n]);
      if Usable(q, rows[n]) then Put(d, rows[n].taxi, GetOr(d, rows[n].taxi, []) + [OfferOf(q, rows[n])]) else d
  }

  /** The freshest offer of each taxi, when its driver accepts the distance. */
  function Reached(q: Query, d: Dict<Taxi, seq<Offer>>): seq<Offer> {
    if d == [] then []
    else
      var n := |d| - 1;
      var reached := Reached(q, d[..n]);
      if d[n].1 != [] && InReach(q, Freshest(d[n].1)) then reached + [Freshest(d[n].1)] else reached
  }

  function Found(q: Query, rows: seq<Row>): seq<Offer> {
    SortByDistance(Reached(q, Grouped(q, rows)))
  }

  function Cut(found: seq<Offer>, limit: nat): seq<Offer> {
    if |found| <= limit then found else found[..limit]
  }

  function Shown(q: Query, rows: seq<Row>): seq<Offer>
    requires 0 <= q.settings.displayLimit
  {
    Cut(Found(q, rows), q.settings.displayLimit)
  }

  /** The freshest offer of each taxi among those in reach, kept up to date row by row. */
  function KeptOffers(q: Query, rows: seq<Row>): Dict<Taxi, Offer> {
    if rows == [] then []
    else
      var n := |rows| - 1;
      var d := KeptOffers(q, rows[..n]);
      if Usable(q, rows[n]) && InReach(q, OfferOf(q, rows[n])) then
        var o := OfferOf(q, rows[n]);
        Put(d, o.taxi, Fresher(GetOr(d, o.taxi, o), o))
      else d
  }

  function Values(d: Dict<Taxi, Offer>): seq<Offer> {
    seq(|d|, i requires 0 <= i < |d| => d[i].1)
  }

  function Candidates(q: Query, rows: seq<Row>): seq<Offer> {
    SortByDistance(Values(KeptOffers(q, rows)))
  }

  // ------------------------------------------------- the loops

  method Search(q: Query, engaged: set<Taxi>, viewer: Option<Operator>, table: seq<Row>) returns (shown: seq<Offer>)
    requires 0 <= q.settings.displayLimit
    ensures shown == Shown(q, Selected(q, engaged, viewer, table))
  {
    var rows := Selected(q, engaged, viewer, table);
    var data: Dict<Taxi, seq<Offer>> := [];
    for i := 0 to |rows|
      invariant data == Grouped(q, rows[..i])
    {
      assert rows[..i + 1][..i] == rows[..i];
      var row := rows[i];
      var location := At(q.locations, row.taxi, row.description.operator);
      if location.None? {
        continue;
      }
      if !row.description.free {
        continue;
      }
      if location.value.updateDate.None? {
        continue;
      }
      if location.value.updateDate.value as real + q.settings.gpsFreshness as real < q.now {
        continue;
      }
      var offers := GetOr(data, row.taxi, []) + [Offer(row.taxi, row.description, location.value)];
      data := Put(data, row.taxi, offers);
    }
    assert rows[..|rows|] == rows;
    var found := SortByDistance(Reached(q, data));
    shown := Cut(found, q.settings.displayLimit);
  }

  method FindAvailableCandidates(q: Query, excluded: set<Taxi>, table: seq<Row>) returns (candidates: seq<Offer>)
    ensures candidates == Candidates(q, Contactable(q, excluded, table))
  {
    var rows := Contactable(q, excluded, table);
    var data: Dict<Taxi, Offer> := [];
    for i := 0 to |rows|
      invariant data == KeptOffers(q, rows[..i])
    {
      assert rows[..i + 1][..i] == rows[..i];
      var row := rows[i];
      var location := At(q.locations, row.taxi, row.description.operator);
      if location.None? || !row.description.free || location.value.updateDate.None? {
        continue;
      }
      if location.value.updateDate.value as real + q.settings.gpsFreshness as real < q.now {
        continue;
      }
      if location.value.distance > RadiusOrDefault(q.settings, row.description.radius) as real {
        continue;
      }
      var offer := Offer(row.taxi, row.description, location.value);
      var previous := Get(data, row.taxi);
      if previous.None? {
        FresherOfItself(offer);
        data := Put(data, row.taxi, offer);
      } else {
        data := Put(data, row.taxi, Fresher(previous.value, offer));
      }
    }
    assert rows[..|rows|] == rows;
    candidates := SortByDistance(Values(data));
  }

  lemma {:induction false} FresherOfItself(o: Offer)
    ensures Fresher(o, o) == o
  {
  }

  // ------------------------------------------------- what the dictionaries hold

  lemma {:induction false} GroupedIsByTaxi(q: Query, rows: seq<Row>, taxi: Taxi)
    ensures Distinct(Grouped(q, rows))
    ensures Get(Grouped(q, rows), taxi) ==
            if OffersOf(q, rows, taxi) == [] then None else Some(OffersOf(q, rows, taxi))
  {
    if rows != [] {
      var n := |rows| - 1;
      var d := Grouped(q, rows[..n]);
      GroupedIsByTaxi(q, rows[..n], taxi);
      if Usable(q, rows[n]) {
        var offers := GetOr(d, rows[n].taxi, []) + [OfferOf(q, rows[n])];
        PutKeys(d, rows[n].taxi, offers);
        PutGet(d, rows[n].taxi, offers, taxi);
      }
    }
  }

  lemma {:induction false} KeptIsFreshest(q: Query, rows: seq<Row>, taxi: Taxi)
    ensures Distinct(KeptOffers(q, rows))
    ensures
      var offers := Reaching(q, OffersOf(q, rows, taxi));
      Get(KeptOffers(q, rows), taxi) == if offers == [] then None else Some(Freshest(offers))
  {
    if rows != [] {
      var n := |rows| - 1;
      var d := KeptOffers(q, rows[..n]);
      var before := OffersOf(q, rows[..n], taxi);
      KeptIsFreshest(q, rows[..n], taxi);
      if Usable(q, rows[n]) {
        var o := OfferOf(q, rows[n]);
        if InReach(q, o) {
          PutKeys(d, o.taxi, Fresher(GetOr(d, o.taxi, o), o));
          PutGet(d, o.taxi, Fresher(GetOr(d, o.taxi, o), o), taxi);
        }
        if o.taxi == taxi {
          assert (before + [o])[..|before|] == before;
          var reaching := Reaching(q, before);
          assert (reaching + [o])[..|reaching|] == reaching;
        }
      }
    }
  }

  ghost predicate DistinctTaxis(offers: seq<Offer>) {
    forall i, j | 0 <= i < j < |offers| :: offers[i].taxi != offers[j].taxi
  }

  lemma {:induction false} FreshestIsMember(offers: seq<Offer>)
    requires offers != []
    ensures Freshest(offers) in offers
  {
    var n := |offers| - 1;
    if n > 0 {
      FreshestIsMember(offers[..n]);
    }
  }

  /** Every group belongs to the taxi it is filed under. */
  ghost predicate FiledByTaxi(d: Dict<Taxi, seq<Offer>>) {
    forall e | e in d :: e.1 != [] && forall o | o in e.1 :: o.taxi == e.0
  }

  lemma {:induction false} GroupsAreFiled(q: Query, rows: seq<Row>)
    ensures Distinct(Grouped(q, rows)) && FiledByTaxi(Grouped(q, rows))
  {
    var d := Grouped(q, rows);
    GroupedIsByTaxi(q, rows, 0);
    forall e | e in d
      ensures e.1 != [] && forall o | o in e.1 :: o.taxi == e.0
    {
      GetIsMember(d, e.0);
      GroupedIsByTaxi(q, rows, e.0);
      OffersOfRows(q, rows, e.0);
      assert (e.0, e.1) in d;
    }
  }

  lemma {:induction false} ReachedOffers(q: Query, d: Dict<Taxi, seq<Offer>>)
    requires Distinct(d) && FiledByTaxi(d)
    ensures DistinctTaxis(Reached(q, d))
    ensures forall o :: o in Reached(q, d) <==> InReach(q, o) && exists e | e in d :: Freshest(e.1) == o
    ensures forall o | o in Reached(q, d) :: o.taxi in Keys(d)
  {
    if d != [] {
      var n := |d| - 1;
      assert d == d[..n] + [d[n]];
      ReachedOffers(q, d[..n]);
      FreshestIsMember(d[n].1);
      assert d[n] in d;
      var before := Reached(q, d[..n]);
      forall o | o in before
        ensures o.taxi in Keys(d) && o.taxi != d[n].0
      {
        var i :| 0 <= i < n && d[..n][i].0 == o.taxi;
        assert d[i].0 == o.taxi;
      }
      assert d[n].0 in Keys(d);
    }
  }

  lemma {:induction false} InsertKeepsDistinct(offers: seq<Offer>, o: Offer)
    requires Sorted(offers) && DistinctTaxis(offers) && forall x | x in offers :: x.taxi != o.taxi
    ensures DistinctTaxis(InsertByDistance(offers, o))
  {
    if offers != [] && !(o.location.distance < offers[0].location.distance) {
      InsertKeepsDistinct(offers[1..], o);
      var rest := InsertByDistance(offers[1..], o);
      forall i | 0 <= i < |rest|
        ensures rest[i].taxi != offers[0].taxi
      {
        assert rest[i] in rest;
      }
    }
  }

  lemma {:induction false} SortKeepsDistinct(offers: seq<Offer>)
    requires DistinctTaxis(offers)
    ensures DistinctTaxis(SortByDistance(offers))
  {
    if offers != [] {
      var n := |offers| - 1;
      SortKeepsDistinct(offers[..n]);
      SortKeepsMembers(offers[..n]);
      InsertKeepsDistinct(SortByDistance(offers[..n]), offers[n]);
    }
  }

  // ------------------------------------------------- the public search

  /** What a search finds: for each taxi with usable offers, the freshest one if it is in reach, nearest first. */
  lemma {:induction false} FoundExactly(q: Query, rows: seq<Row>)
    ensures Sorted(Found(q, rows)) && DistinctTaxis(Found(q, rows))
    ensures forall o :: o in Found(q, rows) <==>
                          var offers := OffersOf(q, rows, o.taxi);
                          offers != [] && Freshest(offers) == o && InReach(q, o)
  {
    var d := Grouped(q, rows);
    GroupsAreFiled(q, rows);
    ReachedOffers(q, d);
    SortKeepsDistinct(Reached(q, d));
    SortKeepsMembers(Reached(q, d));
    forall o: Offer
      ensures (exists e | e in d :: Freshest(e.1) == o) <==>
              (OffersOf(q, rows, o.taxi) != [] && Freshest(OffersOf(q, rows, o.taxi)) == o)
    {
      GroupedIsByTaxi(q, rows, o.taxi);
      GetIsMember(d, o.taxi);
      if e :| e in d && Freshest(e.1) == o {
        FreshestIsMember(e.1);
        assert (o.taxi, e.1) in d;
      }
      if OffersOf(q, rows, o.taxi) != [] && Freshest(OffersOf(q, rows, o.taxi)) == o {
        assert (o.taxi, OffersOf(q, rows, o.taxi)) in d;
      }
    }
  }

  /** The operator reported the taxi, and not too long ago. */
  ghost predicate FreshlyReported(q: Query, row: Row) {
    && row.taxi in q.locations && row.description.operator in q.locations[row.taxi]
    && var date := q.locations[row.taxi][row.description.operator].updateDate;
    date.Some? && q.now <= date.value as real + q.settings.gpsFreshness as real
  }

  /** The driver goes that far: as far as he chose, or else the usual distance. */
  ghost predicate WithinRadius(q: Query, row: Row)
    requires row.taxi in q.locations && row.description.operator in q.locations[row.taxi]
  {
    var distance := q.locations[row.taxi][row.description.operator].distance;
    match row.description.radius
    case Some(radius) => distance <= radius as real
    case None => distance <= q.settings.radiusDefault as real
  }

  /** A row that the public search may show, if the driver goes that far. */
  ghost predicate Showable(q: Query, engaged: set<Taxi>, viewer: Option<Operator>, row: Row) {
    && row.description.free && row.taxi !in engaged && row.insee in q.allowed
    && (viewer.Some? ==> row.description.operator == viewer.value)
    && FreshlyReported(q, row)
  }

  /** The offer is that row, with the place that the search knows for it. */
  ghost predicate Tells(q: Query, row: Row, o: Offer) {
    && o.taxi == row.taxi && o.description == row.description
    && row.taxi in q.locations && row.description.operator in q.locations[row.taxi]
    && o.location == q.locations[row.taxi][row.description.operator]
  }

  /** The row behind an offer says all that the public may rely on. */
  ghost predicate Backed(q: Query, engaged: set<Taxi>, viewer: Option<Operator>, table: seq<Row>, o: Offer) {
    exists row | row in table :: Showable(q, engaged, viewer, row) && WithinRadius(q, row) && Tells(q, row, o)
  }

  lemma {:induction false} FoundIsBacked(q: Query, engaged: set<Taxi>, viewer: Option<Operator>, table: seq<Row>,
                                         o: Offer)
    requires o in Found(q, Selected(q, engaged, viewer, table))
    ensures Backed(q, engaged, viewer, table, o)
  {
    var rows := Selected(q, engaged, viewer, table);
    FoundExactly(q, rows);
    SelectedRows(q, engaged, viewer, table);
    OffersOfRows(q, rows, o.taxi);
    FreshestIsMember(OffersOf(q, rows, o.taxi));
    var row :| row in rows && row.taxi == o.taxi && Usable(q, row) && OfferOf(q, row) == o;
  }

  /** What the limit cuts is no nearer than what it leaves. */
  lemma {:induction false} CutKeepsNearest(found: seq<Offer>, limit: nat)
    requires Sorted(found) && DistinctTaxis(found)
    ensures |Cut(found, limit)| <= limit && Sorted(Cut(found, limit)) && DistinctTaxis(Cut(found, limit))
    ensures forall o | o in Cut(found, limit) :: o in found
    ensures forall o, x | o in found && o !in Cut(found, limit) && x in Cut(found, limit) ::
              |Cut(found, limit)| == limit && x.location.distance <= o.location.distance
  {
  }

  /**
   The public search shows distinct taxis, nearest first and within the
   limit; each is free, idle, allowed, fresh and within its own radius; and a
   taxi that was found but cut is no nearer than any that is shown.
   */
  lemma {:induction false} SearchIsSound(q: Query, engaged: set<Taxi>, viewer: Option<Operator>, table: seq<Row>)
    requires 0 <= q.settings.displayLimit
    ensures
      var rows := Selected(q, engaged, viewer, table);
      var shown, found := Shown(q, rows), Found(q, rows);
      && |shown| <= q.settings.displayLimit && Sorted(shown) && DistinctTaxis(shown)
      && (forall o | o in shown :: o in found && Backed(q, engaged, viewer, table, o))
      && (forall o, x | o in found && o !in shown && x in shown ::
            |shown| == q.settings.displayLimit && x.location.distance <= o.location.distance)
  {
    var rows := Selected(q, engaged, viewer, table);
    FoundExactly(q, rows);
    CutKeepsNearest(Found(q, rows), q.settings.displayLimit);
    forall o | o in Found(q, rows)
      ensures Backed(q, engaged, viewer, table, o)
    {
      FoundIsBacked(q, engaged, viewer, table, o);
    }
  }

  /** The index gave every member within the greatest distance. */
  ghost predicate NothingCut(ranked: seq<Hit>, settings: Settings) {
    settings.candidateLimit <= 0 || |WithinDistance(ranked, settings.radiusMax as real)| <= settings.candidateLimit
  }

  /** The search looks at this row, and the driver accepts the distance of its hit. */
  ghost predicate Eligible(q: Query, ranked: seq<Hit>, timestamps: map<Member, int>, engaged: set<Taxi>,
                           viewer: Option<Operator>, row: Row, hit: Hit)
  {
    && row.taxi !in engaged && row.insee in q.allowed && row.description.free
    && (viewer.Some? ==> row.description.operator == viewer.value)
    && hit in ranked && hit.member == Member(row.taxi, row.description.operator)
    && (match row.description.radius
        case Some(radius) =>
          q.settings.radiusMin <= radius <= q.settings.radiusMax && hit.distance <= radius as real
        case None => hit.distance <= q.settings.radiusDefault as real)
    && hit.member in timestamps && timestamps[hit.member] != 0
    && q.now <= timestamps[hit.member] as real + q.settings.gpsFreshness as real
  }

  /** What is stored never reaches beyond the greatest distance that is looked at. */
  lemma {:induction false} EligibleIsUsable(q: Query, ranked: seq<Hit>, timestamps: map<Member, int>,
                                            engaged: set<Taxi>, viewer: Option<Operator>, row: Row, hit: Hit)
    requires ValidateAppConfig(q.settings).None? && Eligible(q, ranked, timestamps, engaged, viewer, row, hit)
    requires NothingCut(ranked, q.settings)
    requires q.locations == LocationsOf(GeoRadius(ranked, q.settings.radiusMax, q.settings.candidateLimit), timestamps)
    ensures Usable(q, row) && row.taxi in q.locations
  {
    var hits := GeoRadius(ranked, q.settings.radiusMax, q.settings.candidateLimit);
    RadiusWithinMaximum(q.settings, row.description.radius);
    assert hits == WithinDistance(ranked, q.settings.radiusMax as real);
    LocationsAreFiled(hits, timestamps, row.taxi, row.description.operator);
    LocationIsHit(hits, timestamps, hit.member);
  }

  /**
   As long as the index did not have to leave members out, a taxi with a free
   and fresh description within its own radius is found, unless a fresher
   description of the same taxi is out of reach.
   */
  lemma {:induction false} SearchMissesNobody(q: Query, ranked: seq<Hit>, timestamps: map<Member, int>,
                                              engaged: set<Taxi>, viewer: Option<Operator>, table: seq<Row>, row: Row,
                                              hit: Hit)
    requires ValidateAppConfig(q.settings).None? && Eligible(q, ranked, timestamps, engaged, viewer, row, hit)
    requires NothingCut(ranked, q.settings) && row in table
    requires q.locations == LocationsOf(GeoRadius(ranked, q.settings.radiusMax, q.settings.candidateLimit), timestamps)
    ensures
      var rows := Selected(q, engaged, viewer, table);
      var offers := OffersOf(q, rows, row.taxi);
      && offers != []
      && (InReach(q, Freshest(offers)) <==> exists o | o in Found(q, rows) :: o.taxi == row.taxi)
  {
    EligibleIsUsable(q, ranked, timestamps, engaged, viewer, row, hit);
    var rows := Selected(q, engaged, viewer, table);
    SelectedRows(q, engaged, viewer, table);
    OffersOfRows(q, rows, row.taxi);
    assert OfferOf(q, row) in OffersOf(q, rows, row.taxi);
    FoundExactly(q, rows);
    FreshestIsMember(OffersOf(q, rows, row.taxi));
  }

  // ------------------------------------------------- both searches

  /** For a taxi that is idle and not excluded, both queries give the same offers. */
  lemma {:induction false} SameOffers(q: Query, engaged: set<Taxi>, excluded: set<Taxi>, table: seq<Row>, taxi: Taxi)
    requires taxi !in engaged && taxi !in excluded
    ensures OffersOf(q, Selected(q, engaged, None, table), taxi) == OffersOf(q, Contactable(q, excluded, table), taxi)
  {
    if table != [] {
      var n := |table| - 1;
      SameOffers(q, engaged, excluded, table[..n], taxi);
      var a, b := Selected(q, engaged, None, table[..n]), Contactable(q, excluded, table[..n]);
      assert (a + [table[n]])[..|a|] == a;
      assert (b + [table[n]])[..|b|] == b;
    }
  }

  lemma {:induction false} FreshestIsMaximum(offers: seq<Offer>)
    requires offers != [] && forall o | o in offers :: Dated(o)
    ensures Dated(Freshest(offers)) && forall o | o in offers :: NotLater(o, Freshest(offers))
  {
    var n := |offers| - 1;
    assert offers == offers[..n] + [offers[n]];
    if n > 0 {
      FreshestIsMaximum(offers[..n]);
    }
  }

  /** Without undated offers, asking for the distance before or after makes no difference to the choice. */
  lemma {:induction false} ReachCommutesWithFreshest(q: Query, offers: seq<Offer>)
    requires offers != [] && (forall o | o in offers :: Dated(o)) && InReach(q, Freshest(offers))
    ensures Reaching(q, offers) != [] && Freshest(Reaching(q, offers)) == Freshest(offers)
  {
    var n := |offers| - 1;
    var before, last := offers[..n], offers[n];
    assert offers == before + [last];
    var reaching := Reaching(q, before);
    assert (reaching + [last])[..|reaching|] == reaching;
    if n > 0 {
      FreshestIsMaximum(before);
      if Freshest(offers) == Freshest(before) && NotLater(last, Freshest(before)) {
        ReachCommutesWithFreshest(q, before);
      } else if reaching != [] {
        ReachingOffers(q, before);
        FreshestIsMember(reaching);
        assert NotLater(Freshest(reaching), Freshest(before));
      }
    }
  }

  /** What is kept for a taxi is an offer of that taxi. */
  lemma {:induction false} KeptByTaxi(q: Query, rows: seq<Row>, i: nat)
    requires i < |KeptOffers(q, rows)|
    ensures
      var (taxi, o) := KeptOffers(q, rows)[i];
      var offers := Reaching(q, OffersOf(q, rows, taxi));
      o.taxi == taxi && offers != [] && Freshest(offers) == o
  {
    var d := KeptOffers(q, rows);
    var offers := OffersOf(q, rows, d[i].0);
    KeptIsFreshest(q, rows, d[i].0);
    GetIsMember(d, d[i].0);
    assert (d[i].0, d[i].1) in d;
    OffersOfRows(q, rows, d[i].0);
    ReachingOffers(q, offers);
    FreshestIsMember(Reaching(q, offers));
  }

  lemma {:induction false} OfferIsKept(q: Query, rows: seq<Row>, o: Offer)
    ensures o in Values(KeptOffers(q, rows)) <==>
            Reaching(q, OffersOf(q, rows, o.taxi)) != [] && Freshest(Reaching(q, OffersOf(q, rows, o.taxi))) == o
  {
    var d := KeptOffers(q, rows);
    if o in Values(d) {
      var i :| 0 <= i < |d| && d[i].1 == o;
      KeptByTaxi(q, rows, i);
    }
    if Reaching(q, OffersOf(q, rows, o.taxi)) != [] && Freshest(Reaching(q, OffersOf(q, rows, o.taxi))) == o {
      KeptIsFreshest(q, rows, o.taxi);
      GetIsMember(d, o.taxi);
      var i :| 0 <= i < |d| && d[i] == (o.taxi, o);
      assert Values(d)[i] == o;
    }
  }

  /** The candidates are the freshest offer in reach of every taxi that has one, each taxi once, nearest first. */
  lemma {:induction false} CandidatesExactly(q: Query, rows: seq<Row>)
    ensures Sorted(Candidates(q, rows)) && DistinctTaxis(Candidates(q, rows))
    ensures forall o :: o in Candidates(q, rows) <==>
                          var offers := Reaching(q, OffersOf(q, rows, o.taxi));
                          offers != [] && Freshest(offers) == o
  {
    var d := KeptOffers(q, rows);
    KeptIsDistinct(q, rows);
    SortKeepsDistinct(Values(d));
    SortKeepsMembers(Values(d));
    forall o: Offer
      ensures o in Candidates(q, rows) <==>
              Reaching(q, OffersOf(q, rows, o.taxi)) != [] && Freshest(Reaching(q, OffersOf(q, rows, o.taxi))) == o
    {
      OfferIsKept(q, rows, o);
    }
  }

  lemma {:induction false} KeptIsDistinct(q: Query, rows: seq<Row>)
    ensures DistinctTaxis(Values(KeptOffers(q, rows)))
  {
    var d := KeptOffers(q, rows);
    forall i, j | 0 <= i < j < |d|
      ensures d[i].1.taxi != d[j].1.taxi
    {
      KeptByTaxi(q, rows, i);
      KeptByTaxi(q, rows, j);
      KeptIsFreshest(q, rows, d[i].0);
    }
  }

  /**
   Every taxi that the public search of a customer's application finds is a
   candidate for a reassignment on the same rows, unless it was excluded; and
   when no description of it is undated, through the same description.
   */
  lemma {:induction false} FoundTaxisAreCandidates(q: Query, engaged: set<Taxi>, excluded: set<Taxi>,
                                                   table: seq<Row>, o: Offer)
    requires o in Found(q, Selected(q, engaged, None, table)) && o.taxi !in excluded
    ensures
      var rows, candidates := Contactable(q, excluded, table), Candidates(q, Contactable(q, excluded, table));
      && (exists c | c in candidates :: c.taxi == o.taxi)
      && ((forall x | x in OffersOf(q, rows, o.taxi) :: Dated(x)) ==> o in candidates)
  {
    var rows := Contactable(q, excluded, table);
    var selected := Selected(q, engaged, None, table);
    FoundExactly(q, selected);
    var offers := OffersOf(q, selected, o.taxi);
    FreshestIsMember(offers);
    OffersOfRows(q, selected, o.taxi);
    var row :| row in selected && row.taxi == o.taxi && Usable(q, row) && OfferOf(q, row) == o;
    SelectedRows(q, engaged, None, table);
    SameOffers(q, engaged, excluded, table, o.taxi);
    ReachingOffers(q, offers);
    assert o in Reaching(q, offers);
    CandidatesExactly(q, rows);
    FreshestIsMember(Reaching(q, offers));
    var c := Freshest(Reaching(q, offers));
    assert c in offers && c in Candidates(q, rows) && c.taxi == o.taxi;
    if forall x | x in OffersOf(q, rows, o.taxi) :: Dated(x) {
      ReachCommutesWithFreshest(q, offers);
    }
  }

  // ------------------------------------------------- where they differ

  const SETTINGS := Settings(500, 5000, 30000, 180, 8, 20)

  /** One taxi reported by two operators, one kilometre and a half away, both positions fresh. */
  const AROUND: Locations := map[1 := map[10 := Location(1500.0, Some(100)), 11 := Location(1500.0, Some(100))]]

  const QUERY := Query(SETTINGS, {974}, AROUND, 150.0)

  function TwoRows(first: Description, second: Description): seq<Row> {
    [Row(1, 974, first), Row(1, 974, second)]
  }

  lemma {:induction false} BothSelected(first: Description, second: Description)
    ensures Selected(QUERY, {}, None, TwoRows(first, second)) == TwoRows(first, second)
    ensures Contactable(QUERY, {}, TwoRows(first, second)) == TwoRows(first, second)
  {
    var rows := TwoRows(first, second);
    assert rows[..1] == [rows[0]] && rows[..1][..0] == [];
    assert Selected(QUERY, {}, None, rows[..1]) == [rows[0]];
    assert Contactable(QUERY, {}, rows[..1]) == [rows[0]];
    assert rows == [rows[0]] + [rows[1]];
  }

  lemma {:induction false} BothOffers(first: Description, second: Description)
    requires first.free && second.free && first.operator == 10 && second.operator == 11
    ensures OffersOf(QUERY, TwoRows(first, second), 1) ==
            [Offer(1, first, AROUND[1][10]), Offer(1, second, AROUND[1][11])]
  {
    var rows := TwoRows(first, second);
    assert rows[..1] == [rows[0]] && rows[..1][..0] == [];
    var a, b := Offer(1, first, AROUND[1][10]), Offer(1, second, AROUND[1][11]);
    assert OffersOf(QUERY, rows[..1], 1) == OffersOf(QUERY, [], 1) + [a];
    assert OffersOf(QUERY, rows, 1) == [a] + [b];
  }

  lemma {:induction false} ReachingOfTwo(a: Offer, b: Offer)
    requires InReach(QUERY, a) && !InReach(QUERY, b)
    ensures Reaching(QUERY, [a, b]) == [a]
  {
    assert [a, b][..1] == [a] && [a][..0] == [];
    assert Reaching(QUERY, [a]) == [] + [a];
  }

  /** A candidate need not be found: its fresher description may be out of reach. */
  lemma {:induction false} CandidatesNeedNotBeFound()
    ensures
      var older, fresher := Description(10, true, Some(1), None), Description(11, true, Some(2), Some(1000));
      var table := TwoRows(older, fresher);
      && Offer(1, older, AROUND[1][10]) in Candidates(QUERY, Contactable(QUERY, {}, table))
      && forall o | o in Found(QUERY, Selected(QUERY, {}, None, table)) :: o.taxi != 1
  {
    var older, fresher := Description(10, true, Some(1), None), Description(11, true, Some(2), Some(1000));
    var table := TwoRows(older, fresher);
    var a, b := Offer(1, older, AROUND[1][10]), Offer(1, fresher, AROUND[1][11]);
    BothSelected(older, fresher);
    BothOffers(older, fresher);
    var rows := Selected(QUERY, {}, None, table);
    assert Freshest([a, b]) == b by {
      assert [a, b][..1] == [a];
    }
    forall o | o in Found(QUERY, rows)
      ensures o.taxi != 1
    {
      FoundExactly(QUERY, rows);
    }
    CandidatesExactly(QUERY, Contactable(QUERY, {}, table));
    ReachingOfTwo(a, b);
  }

  /** With an undated description the two searches may choose differently. */
  lemma {:induction false} UndatedDescriptionsMayDiffer()
    ensures
      var dated, undated, last := Description(10, true, Some(9), None), Description(11, true, None, Some(1000)),
                                  Description(10, true, Some(1), None);
      var offers := [Offer(1, dated, AROUND[1][10]), Offer(1, undated, AROUND[1][11]), Offer(1, last, AROUND[1][10])];
      && InReach(QUERY, Freshest(offers)) && Freshest(offers) == offers[2]
      && Freshest(Reaching(QUERY, offers)) == offers[0]
  {
    var dated, undated, last := Description(10, true, Some(9), None), Description(11, true, None, Some(1000)),
                                Description(10, true, Some(1), None);
    var offers := [Offer(1, dated, AROUND[1][10]), Offer(1, undated, AROUND[1][11]), Offer(1, last, AROUND[1][10])];
    assert offers[..2] == [offers[0], offers[1]] && offers[..2][..1] == [offers[0]];
    assert Freshest(offers[..2]) == offers[1];
    assert [offers[0]][..0] == [];
    assert Reaching(QUERY, [offers[0]]) == Reaching(QUERY, []) + [offers[0]];
    assert Reaching(QUERY, offers[..2]) == [offers[0]];
    assert Reaching(QUERY, offers) == [offers[0], offers[2]];
    assert [offers[0], offers[2]][..1] == [offers[0]];
  }
}
