/**
 The two searches row by row: which row of the joined descriptions an offer is, what
 its taxi must be and where, and what the index tells about it.
 */
module SearchOutcomes {
  import opened Wrappers
  import opened PositionIndex
  import opened SearchConfig
  import opened TaxiSearch
  import opened SearchPipelines

  // ------------------------------------------------- the settings

  /** The settings are refused for the first of three reasons, and valid exactly when there is none. */
  lemma {:induction false} SettingsAreValidExactly(c: Settings)
    ensures
      var positive := && 0 < c.radiusMin && 0 < c.radiusDefault && 0 < c.radiusMax
                      && 0 < c.gpsFreshness && 0 < c.displayLimit && 0 < c.candidateLimit;
      var ordered := c.radiusMin <= c.radiusDefault <= c.radiusMax;
      && (ValidateAppConfig(c) == Some(NotPositive) <==> !positive)
      && (ValidateAppConfig(c) == Some(RadiusOrder) <==> positive && !ordered)
      && (ValidateAppConfig(c) == Some(LimitOrder) <==> positive && ordered && c.candidateLimit < c.displayLimit)
      && (ValidateAppConfig(c) == None <==> positive && ordered && c.displayLimit <= c.candidateLimit)
  {
  }

  // ------------------------------------------------- what the index tells

  ghost predicate NearestHitsFirst(ranked: seq<Hit>) {
    forall i, j | 0 <= i < j < |ranked| :: ranked[i].distance <= ranked[j].distance
  }

  lemma {:induction false} NearOnesArePrefix(ranked: seq<Hit>, distance: real)
    requires NearestHitsFirst(ranked)
    ensures
      var near := WithinDistance(ranked, distance);
      && near <= ranked
      && forall i | 0 <= i < |ranked| :: i < |near| <==> ranked[i].distance <= distance
  {
    if ranked != [] {
      NearOnesArePrefix(ranked[1..], distance);
      var near, rest := WithinDistance(ranked, distance), WithinDistance(ranked[1..], distance);
      assert ranked == [ranked[0]] + ranked[1..];
      forall i | 0 < i < |ranked|
        ensures i - 1 < |rest| <==> ranked[i].distance <= distance
      {
        assert ranked[1..][i - 1] == ranked[i];
      }
      if !(ranked[0].distance <= distance) {
        assert |ranked| > 1 ==> ranked[1..][0] == ranked[1];
        assert rest == [];
      }
    }
  }

  /** The search gets the nearest members that are within the distance, as many as the count allows. */
  lemma {:induction false} NearestAreGiven(ranked: seq<Hit>, distance: int, count: nat)
    requires NearestHitsFirst(ranked)
    ensures
      var hits := GeoRadius(ranked, distance, count);
      && hits <= ranked
      && forall i | 0 <= i < |ranked| ::
           i < |hits| <==> ranked[i].distance <= distance as real && (count == 0 || i < count)
  {
    NearOnesArePrefix(ranked, distance as real);
  }

  /**
   What the search knows of the place of a taxi with an operator: the distance of its
   member, if the member was among the nearest, and the date of its timestamp, where
   zero is no date.
   */
  lemma {:induction false} LocationsExactly(ranked: seq<Hit>, timestamps: map<Member, int>, distance: int, count: nat,
                                            taxi: Taxi, operator: Operator, i: nat)
    requires NearestHitsFirst(ranked) && i < |ranked| && ranked[i].member == Member(taxi, operator)
    requires forall k | 0 <= k < |ranked| && k != i :: ranked[k].member != ranked[i].member
    ensures
      var locations := LocationsOf(GeoRadius(ranked, distance, count), timestamps);
      var known := taxi in locations && operator in locations[taxi];
      && (known <==> ranked[i].distance <= distance as real && (count == 0 || i < count))
      && (known ==>
            var location := locations[taxi][operator];
            && location.distance == ranked[i].distance
            && (location.updateDate.Some? <==>
                  ranked[i].member in timestamps && timestamps[ranked[i].member] != 0)
            && (location.updateDate.Some? ==> location.updateDate.value == timestamps[ranked[i].member]))
  {
    var hits := GeoRadius(ranked, distance, count);
    var m := ranked[i].member;
    NearestAreGiven(ranked, distance, count);
    LocationsAreFiled(hits, timestamps, taxi, operator);
    LocationIsHit(hits, timestamps, m);
    forall k | 0 <= k < |hits|
      ensures hits[k] == ranked[k]
    {
    }
  }

  // ------------------------------------------------- the row that is chosen

  /** Who searches: a customer, past the taxis that have a hail, or a session, past those it asked. */
  datatype Asker = Customer(engaged: set<Taxi>, viewer: Option<Operator>) | Session(asked: set<Taxi>)

  /** The row can be offered; a session asks at once whether the driver goes that far. */
  ghost predicate Suitable(q: Query, asker: Asker, row: Row) {
    match asker
    case Customer(engaged, viewer) => Showable(q, engaged, viewer, row)
    case Session(asked) =>
      && row.description.free && row.taxi !in asked && row.insee in q.allowed
      && FreshlyReported(q, row) && WithinRadius(q, row)
  }

  /** The later of two rows of a taxi takes the place of the earlier one, unless it is known not to be newer. */
  ghost predicate Replaces(later: Row, earlier: Row) {
    var last, first := later.description.lastUpdate, earlier.description.lastUpdate;
    last.Some? && first.Some? ==> first.value < last.value
  }

  /** A row before this one went: replaced by it, or by a row without a date that came in between. */
  ghost predicate Went(q: Query, asker: Asker, table: seq<Row>, k: nat, i: nat)
    requires k < i < |table|
  {
    || Replaces(table[i], table[k])
    || exists l | k < l < i ::
         Suitable(q, asker, table[l]) && table[l].taxi == table[i].taxi && table[l].description.lastUpdate.None?
  }

  /** Of the suitable rows of its taxi this one is kept: none after it replaces it, and all before it went. */
  ghost predicate Chosen(q: Query, asker: Asker, table: seq<Row>, i: nat)
    requires i < |table|
  {
    && Suitable(q, asker, table[i])
    && (forall k | i < k < |table| && Suitable(q, asker, table[k]) && table[k].taxi == table[i].taxi ::
          !Replaces(table[k], table[i]))
    && (forall k | 0 <= k < i && Suitable(q, asker, table[k]) && table[k].taxi == table[i].taxi ::
          Went(q, asker, table, k, i))
  }

  /** One row of a taxi is chosen at most. */
  lemma {:induction false} ChosenOnce(q: Query, asker: Asker, table: seq<Row>, i: nat, j: nat)
    requires i < |table| && j < |table| && table[i].taxi == table[j].taxi
    requires Chosen(q, asker, table, i) && Chosen(q, asker, table, j)
    ensures i == j
  {
  }

  /** What the search has of a taxi before it keeps one. */
  ghost function OffersFor(q: Query, asker: Asker, table: seq<Row>, taxi: Taxi): seq<Offer> {
    match asker
    case Customer(engaged, viewer) => OffersOf(q, Selected(q, engaged, viewer, table), taxi)
    case Session(asked) => Reaching(q, OffersOf(q, Contactable(q, asked, table), taxi))
  }

  lemma {:induction false} UsableExactly(q: Query, row: Row)
    ensures Usable(q, row) <==> row.description.free && FreshlyReported(q, row)
    ensures Usable(q, row) ==> Tells(q, row, OfferOf(q, row)) && (InReach(q, OfferOf(q, row)) <==> WithinRadius(q, row))
  {
  }

  /** The offers with one row more. */
  lemma {:induction false} OffersOfNextRow(q: Query, asker: Asker, table: seq<Row>, taxi: Taxi)
    requires table != []
    ensures
      var n := |table| - 1;
      var before, offers := OffersFor(q, asker, table[..n], taxi), OffersFor(q, asker, table, taxi);
      if Suitable(q, asker, table[n]) && table[n].taxi == taxi
      then |offers| == |before| + 1 && offers[..|before|] == before && Tells(q, table[n], offers[|before|])
      else offers == before
  {
    var n := |table| - 1;
    var row := table[n];
    UsableExactly(q, row);
    match asker
    case Customer(engaged, viewer) =>
      var rows := Selected(q, engaged, viewer, table[..n]);
      assert (rows + [row])[..|rows|] == rows;
    case Session(asked) =>
      var rows := Contactable(q, asked, table[..n]);
      assert (rows + [row])[..|rows|] == rows;
      if Usable(q, row) {
        var offers := OffersOf(q, rows, taxi);
        assert (offers + [OfferOf(q, row)])[..|offers|] == offers;
      }
  }

  /** A choice among the rows so far, after one row more that is of another taxi or not suitable. */
  lemma {:induction false} ChoiceStays(q: Query, asker: Asker, table: seq<Row>, i: nat)
    requires i + 1 < |table| && Chosen(q, asker, table[..|table| - 1], i)
    requires
      var row := table[|table| - 1];
      Suitable(q, asker, row) && row.taxi == table[i].taxi ==> !Replaces(row, table[i])
    ensures Chosen(q, asker, table, i)
  {
    var before := table[..|table| - 1];
    forall k | 0 <= k < i && Suitable(q, asker, table[k]) && table[k].taxi == table[i].taxi
      ensures Went(q, asker, table, k, i)
    {
      assert Suitable(q, asker, before[k]) && Went(q, asker, before, k, i);
      if !Replaces(table[i], table[k]) {
        var l :| k < l < i && Suitable(q, asker, before[l]) && before[l].taxi == before[i].taxi
                 && before[l].description.lastUpdate.None?;
        assert Suitable(q, asker, table[l]);
      }
    }
    forall k | i < k < |table| && Suitable(q, asker, table[k]) && table[k].taxi == table[i].taxi
      ensures !Replaces(table[k], table[i])
    {
      if k < |table| - 1 {
        assert before[k] == table[k];
      }
    }
  }

  lemma {:induction false} ChoiceMoves(q: Query, asker: Asker, table: seq<Row>, i: nat)
    requires i + 1 < |table| && Chosen(q, asker, table[..|table| - 1], i)
    requires
      var row := table[|table| - 1];
      Suitable(q, asker, row) && row.taxi == table[i].taxi && Replaces(row, table[i])
    ensures Chosen(q, asker, table, |table| - 1)
  {
    var n := |table| - 1;
    var before := table[..n];
    forall k | 0 <= k < n && Suitable(q, asker, table[k]) && table[k].taxi == table[n].taxi
      ensures Went(q, asker, table, k, n)
    {
      assert before[k] == table[k] && before[i] == table[i];
      assert Suitable(q, asker, before[k]);
      if !Replaces(table[n], table[k]) {
        if k < i && table[i].description.lastUpdate.Some? {
          assert Went(q, asker, before, k, i);
          if !Replaces(table[i], table[k]) {
            var l :| k < l < i && Suitable(q, asker, before[l]) && before[l].taxi == before[i].taxi
                     && before[l].description.lastUpdate.None?;
            assert Suitable(q, asker, table[l]);
          }
        }
      }
    }
  }

  /** What the fold keeps is told by the chosen row of the taxi. */
  ghost predicate KeepsChosen(q: Query, asker: Asker, table: seq<Row>, taxi: Taxi, kept: Offer) {
    exists i | 0 <= i < |table| ::
      table[i].taxi == taxi && Chosen(q, asker, table, i) && Tells(q, table[i], kept)
  }

  /** The first suitable row of a taxi is chosen. */
  lemma {:induction false} FirstRowIsChosen(q: Query, asker: Asker, table: seq<Row>)
    requires table != []
    requires
      var n := |table| - 1;
      && Suitable(q, asker, table[n])
      && forall row | row in table[..n] :: !(Suitable(q, asker, row) && row.taxi == table[n].taxi)
    ensures Chosen(q, asker, table, |table| - 1)
  {
    var n := |table| - 1;
    forall k | 0 <= k < n
      ensures !(Suitable(q, asker, table[k]) && table[k].taxi == table[n].taxi)
    {
      assert table[k] in table[..n];
    }
  }

  /** One more row of the taxi: it is kept, or what was kept stays. */
  lemma {:induction false} NextRowIsKept(q: Query, asker: Asker, table: seq<Row>, taxi: Taxi, kept: Offer, o: Offer)
    requires table != [] && KeepsChosen(q, asker, table[..|table| - 1], taxi, kept)
    requires
      var row := table[|table| - 1];
      Suitable(q, asker, row) && row.taxi == taxi && Tells(q, row, o)
    ensures KeepsChosen(q, asker, table, taxi, Fresher(kept, o))
  {
    var n := |table| - 1;
    var before := table[..n];
    var i :| 0 <= i < n && before[i].taxi == taxi && Chosen(q, asker, before, i) && Tells(q, before[i], kept);
    if Replaces(table[n], table[i]) {
      ChoiceMoves(q, asker, table, i);
      assert Fresher(kept, o) == o;
    } else {
      ChoiceStays(q, asker, table, i);
      assert Fresher(kept, o) == kept;
    }
  }

  lemma {:induction false} OtherRowIsPassed(q: Query, asker: Asker, table: seq<Row>, taxi: Taxi, kept: Offer)
    requires table != [] && KeepsChosen(q, asker, table[..|table| - 1], taxi, kept)
    requires !(Suitable(q, asker, table[|table| - 1]) && table[|table| - 1].taxi == taxi)
    ensures KeepsChosen(q, asker, table, taxi, kept)
  {
    var n := |table| - 1;
    var before := table[..n];
    var i :| 0 <= i < n && before[i].taxi == taxi && Chosen(q, asker, before, i) && Tells(q, before[i], kept);
    ChoiceStays(q, asker, table, i);
  }

  /** The fold over the offers of a taxi keeps the chosen row. */
  lemma {:induction false} FreshestIsChosen(q: Query, asker: Asker, table: seq<Row>, taxi: Taxi)
    ensures
      var offers := OffersFor(q, asker, table, taxi);
      && (offers == [] ==> forall row | row in table :: !(Suitable(q, asker, row) && row.taxi == taxi))
      && (offers != [] ==> KeepsChosen(q, asker, table, taxi, Freshest(offers)))
  {
    if table != [] {
      var n := |table| - 1;
      var before, offers := OffersFor(q, asker, table[..n], taxi), OffersFor(q, asker, table, taxi);
      assert table == table[..n] + [table[n]];
      FreshestIsChosen(q, asker, table[..n], taxi);
      OffersOfNextRow(q, asker, table, taxi);
      if Suitable(q, asker, table[n]) && table[n].taxi == taxi {
        if before == [] {
          FirstRowIsChosen(q, asker, table);
        } else {
          NextRowIsKept(q, asker, table, taxi, Freshest(before), offers[|before|]);
        }
      } else if before != [] {
        OtherRowIsPassed(q, asker, table, taxi, Freshest(before));
      }
    }
  }

  /**
   The public search finds an offer if and only if it is the chosen row of its taxi,
   with the place known for it, and the driver goes that far.
   */
  lemma {:induction false} FoundRowsExactly(q: Query, engaged: set<Taxi>, viewer: Option<Operator>, table: seq<Row>,
                                            o: Offer)
    ensures
      o in Found(q, Selected(q, engaged, viewer, table)) <==>
      exists i | 0 <= i < |table| ::
        && Chosen(q, Customer(engaged, viewer), table, i) && Tells(q, table[i], o)
        && WithinRadius(q, table[i])
  {
    var asker := Customer(engaged, viewer);
    FoundExactly(q, Selected(q, engaged, viewer, table));
    FreshestIsChosen(q, asker, table, o.taxi);
    ChosenIsTold(q, asker, table, o);
  }

  /**
   The search for a reassignment finds an offer if and only if it is the chosen row of
   its taxi, with the place known for it; only rows whose driver goes that far are
   looked at.
   */
  lemma {:induction false} CandidateRowsExactly(q: Query, asked: set<Taxi>, table: seq<Row>, o: Offer)
    ensures
      o in Candidates(q, Contactable(q, asked, table)) <==>
      exists i | 0 <= i < |table| :: Chosen(q, Session(asked), table, i) && Tells(q, table[i], o)
  {
    CandidatesExactly(q, Contactable(q, asked, table));
    FreshestIsChosen(q, Session(asked), table, o.taxi);
    ChosenIsTold(q, Session(asked), table, o);
  }

  /** The freshest offer of a taxi is what its chosen row tells. */
  lemma {:induction false} ChosenIsTold(q: Query, asker: Asker, table: seq<Row>, o: Offer)
    ensures
      var offers := OffersFor(q, asker, table, o.taxi);
      offers != [] && Freshest(offers) == o <==>
      exists i | 0 <= i < |table| :: Chosen(q, asker, table, i) && Tells(q, table[i], o)
  {
    var offers := OffersFor(q, asker, table, o.taxi);
    FreshestIsChosen(q, asker, table, o.taxi);
    if i :| 0 <= i < |table| && Chosen(q, asker, table, i) && Tells(q, table[i], o) {
      assert table[i] in table;
      assert KeepsChosen(q, asker, table, o.taxi, Freshest(offers));
      var j :| 0 <= j < |table| && table[j].taxi == o.taxi && Chosen(q, asker, table, j)
               && Tells(q, table[j], Freshest(offers));
      ChosenOnce(q, asker, table, i, j);
    }
  }
}
