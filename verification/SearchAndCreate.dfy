/**
 What the two searches promise to the protocol: a taxi that is shown can be
 hailed, and a reassignment turns to the nearest candidate.
 */
module SearchAndCreate {
  import opened Wrappers
  import opened HailTypes
  import opened PositionIndex
  import opened TaxiSearch
  import opened SearchPipelines
  import D = Dispatch

  /** The rows of a search show the committed state. */
  ghost predicate Shows(s: D.State, engaged: set<Taxi>, table: seq<Row>) {
    && (forall t: Taxi :: t in engaged <==> D.TaxiEngaged(s, t))
    && (forall row | row in table ::
          && row.taxi in s.taxis
          && (row.description.operator == s.taxis[row.taxi].operateur ==>
                (row.description.free <==> s.taxis[row.taxi].status.Free?)))
  }

  /** The time of a taxi's last position, as the hash tells it. */
  function PositionTime(index: Store, taxi: Taxi, operator: Operator): Option<int> {
    var m := Member(taxi, operator);
    if m in index.hash then Some(index.hash[m].timestamp) else None
  }

  /** What the public search found in an index is as recent as the hash says. */
  lemma {:induction false} ShownPositionIsInHash(q: Query, index: Store, clock: real, hits: seq<Hit>, o: Offer)
    requires StoreAgrees(index, clock) && q.locations == LocationsOf(hits, index.timestamps)
    requires At(q.locations, o.taxi, o.description.operator) == Some(o.location) && o.location.updateDate.Some?
    ensures PositionTime(index, o.taxi, o.description.operator) == o.location.updateDate
  {
    var m := Member(o.taxi, o.description.operator);
    LocationsAreFiled(hits, index.timestamps, o.taxi, o.description.operator);
    LocationIsHit(hits, index.timestamps, m);
  }

  lemma {:induction false} ShownRowIsFree(s: D.State, q: Query, engaged: set<Taxi>, viewer: Option<Operator>,
                                          table: seq<Row>, o: Offer)
    requires 0 <= q.settings.displayLimit
    requires Shows(s, engaged, table) && o in Shown(q, Selected(q, engaged, viewer, table))
    requires o.taxi in s.taxis ==> o.description.operator == s.taxis[o.taxi].operateur
    ensures o.taxi in s.taxis && s.taxis[o.taxi].status.Free? && !D.TaxiEngaged(s, o.taxi)
    ensures At(q.locations, o.taxi, o.description.operator) == Some(o.location)
    ensures o.location.updateDate.Some?
            && q.now <= o.location.updateDate.value as real + q.settings.gpsFreshness as real
  {
    SearchIsSound(q, engaged, viewer, table);
    assert Backed(q, engaged, viewer, table, o);
  }

  /**
   Whatever reports and cleanings came before, a taxi that the search shows
   through the description of its owner passes every check on the taxi when it
   is hailed in the same state at the same instant: only the customer's side
   can still refuse.
   */
  lemma {:induction false} ShownTaxiCanBeHailed(cfg: D.Config, s: D.State, clock: real, events: seq<Event>,
                                                hits: seq<Hit>, q: Query, engaged: set<Taxi>, viewer: Option<Operator>,
                                                table: seq<Row>, o: Offer, r: D.CreateRequest)
    requires 0 < cfg.gpsFreshness == q.settings.gpsFreshness && 0 <= q.settings.displayLimit && 0.0 <= clock
    requires AllInTime(cfg.gpsFreshness, System(EMPTY, clock, Idle), events)
    requires q.locations ==
             LocationsOf(hits, History(cfg.gpsFreshness, System(EMPTY, clock, Idle), events).store.timestamps)
    requires Shows(s, engaged, table) && o in Shown(q, Selected(q, engaged, viewer, table))
    requires o.taxi in s.taxis ==> o.description.operator == s.taxis[o.taxi].operateur
    requires r.taxi == o.taxi && r.now == q.now
    requires r.position == PositionTime(History(cfg.gpsFreshness, System(EMPTY, clock, Idle), events).store, o.taxi,
                                        o.description.operator)
    ensures D.CreateCheck(cfg, s, r).None? <==>
              (Moteur in r.moteur.roles || Admin in r.moteur.roles) && !r.banned && r.sessionKnown && r.located
    ensures D.CreateCheck(cfg, s, r).Some? ==>
              D.CreateCheck(cfg, s, r).value !in {D.UnknownTaxi, D.NotOnline, D.NoLongerOnline, D.NotFree}
  {
    HistoryKeepsInv(cfg.gpsFreshness, System(EMPTY, clock, Idle), events);
    var system := History(cfg.gpsFreshness, System(EMPTY, clock, Idle), events);
    ShownRowIsFree(s, q, engaged, viewer, table, o);
    ShownPositionIsInHash(q, system.store, system.clock, hits, o);
  }

  /** The taxis of the candidates, nearest first. */
  function TaxisOf(offers: seq<Offer>): seq<Taxi> {
    seq(|offers|, i requires 0 <= i < |offers| => offers[i].taxi)
  }

  /** A candidate was selected through a free description of a taxi that the session has not asked. */
  lemma {:induction false} CandidateIsFree(q: Query, excluded: set<Taxi>, table: seq<Row>, o: Offer)
    requires o in Candidates(q, Contactable(q, excluded, table))
    ensures o.taxi !in excluded && exists row | row in table :: row.taxi == o.taxi && row.description.free
    ensures InReach(q, o)
  {
    var rows := Contactable(q, excluded, table);
    CandidatesExactly(q, rows);
    ReachingOffers(q, OffersOf(q, rows, o.taxi));
    FreshestIsMember(Reaching(q, OffersOf(q, rows, o.taxi)));
    OffersOfRows(q, rows, o.taxi);
    ContactableRows(q, excluded, table);
  }

  lemma {:induction false} ContactableRows(q: Query, excluded: set<Taxi>, table: seq<Row>)
    ensures forall row :: row in Contactable(q, excluded, table) <==>
      row in table && row.taxi in q.locations && row.insee in q.allowed && row.taxi !in excluded
  {
    if table != [] {
      var n := |table| - 1;
      ContactableRows(q, excluded, table[..n]);
      assert table == table[..n] + [table[n]];
    }
  }

  /**
   When each taxi has one description, a reassignment in an unchanged state
   offers the ride to the nearest candidate; no other candidate is nearer.
   */
  lemma {:induction false} NearestCandidateIsChosen(s: D.State, q: Query, engaged: set<Taxi>, excluded: set<Taxi>,
                                                    table: seq<Row>)
    requires Shows(s, engaged, table)
    requires forall row | row in table ::
               row.taxi in s.taxis ==> row.description.operator == s.taxis[row.taxi].operateur
    ensures
      var candidates := Candidates(q, Contactable(q, excluded, table));
      var chosen := D.FirstCandidate(s, TaxisOf(candidates), excluded);
      && (chosen.None? <==> candidates == [])
      && (candidates != [] ==>
            && chosen == Some(candidates[0].taxi)
            && forall o | o in candidates :: candidates[0].location.distance <= o.location.distance)
  {
    var candidates := Candidates(q, Contactable(q, excluded, table));
    if candidates != [] {
      CandidateIsFree(q, excluded, table, candidates[0]);
      CandidatesExactly(q, Contactable(q, excluded, table));
      assert TaxisOf(candidates)[0] == candidates[0].taxi;
    }
  }
}
