/**
 Which entries a run of the statistics logs: for each value the set of taxis, or of
 descriptions, that it numbers; and that no entry is logged twice.
 */
module ActivityOutcomes {
  import opened Wrappers
  import opened OrderedDict
  import opened Counters
  import opened ActivityStats
  import opened ActivityConservation

  // ------------------------------------------------- what the values number

  /** The active taxis of these towns, by their places. */
  ghost function TaxisIn(data: Data, towns: set<Town>): set<nat> {
    set i: nat | i < |data| && data[i].0.insee in towns
  }

  /** A description of the operator; in some towns only the free ones are looked at. */
  ghost predicate Matches(taxi: Taxi, d: Description, operator: Operator, towns: Option<set<Town>>) {
    d.operator == operator && (towns.Some? ==> d.free && taxi.insee in towns.value)
  }

  /** The descriptions that match, by the place of the taxi and their own. */
  ghost function Matching(data: Data, operator: Operator, towns: Option<set<Town>>): set<(nat, nat)> {
    set i: nat, k: nat | i < |data| && k < |data[i].1| && Matches(data[i].0, data[i].1[k], operator, towns) :: (i, k)
  }

  /** Those of one taxi. */
  ghost function MatchingOf(i: nat, taxi: Taxi, descriptions: seq<Description>, operator: Operator,
                            towns: Option<set<Town>>): set<(nat, nat)>
  {
    set k: nat | k < |descriptions| && Matches(taxi, descriptions[k], operator, towns) :: (i, k)
  }

  // ------------------------------------------------- counting is numbering

  lemma {:induction false} OneMore<T>(before: set<T>, last: T, after: set<T>, added: bool)
    requires last !in before && after == if added then before + {last} else before
    ensures |after| == |before| + if added then 1 else 0
  {
  }

  lemma {:induction false} TaxisAreNumbered(data: Data, t: Town)
    ensures Occurrences(Towns(data), t) == |TaxisIn(data, {t})|
  {
    if data != [] {
      var n := |data| - 1;
      TaxisAreNumbered(data[..n], t);
      OneMore(TaxisIn(data[..n], {t}), n, TaxisIn(data, {t}), data[n].0.insee == t);
      assert Towns(data)[..n] == Towns(data[..n]);
    }
  }

  lemma {:induction false} ActiveAreNumbered(data: Data, towns: seq<Town>)
    ensures ActiveIn(data, towns) == |TaxisIn(data, set t | t in towns)|
  {
    if data != [] {
      var n := |data| - 1;
      var places := set t | t in towns;
      ActiveAreNumbered(data[..n], towns);
      OneMore(TaxisIn(data[..n], places), n, TaxisIn(data, places), data[n].0.insee in towns);
    }
  }

  lemma {:induction false} MatchingOfNext(i: nat, taxi: Taxi, descriptions: seq<Description>, operator: Operator,
                                          towns: Option<set<Town>>)
    requires descriptions != []
    ensures
      var n := |descriptions| - 1;
      |MatchingOf(i, taxi, descriptions, operator, towns)| ==
      |MatchingOf(i, taxi, descriptions[..n], operator, towns)|
      + if Matches(taxi, descriptions[n], operator, towns) then 1 else 0
  {
    var n := |descriptions| - 1;
    OneMore(MatchingOf(i, taxi, descriptions[..n], operator, towns), (i, n),
            MatchingOf(i, taxi, descriptions, operator, towns), Matches(taxi, descriptions[n], operator, towns));
  }

  lemma {:induction false} OperatorsAreNumbered(i: nat, taxi: Taxi, descriptions: seq<Description>,
                                                operator: Operator)
    ensures Occurrences(OperatorsOf(descriptions), operator) == |MatchingOf(i, taxi, descriptions, operator, None)|
  {
    if descriptions != [] {
      var n := |descriptions| - 1;
      OperatorsAreNumbered(i, taxi, descriptions[..n], operator);
      MatchingOfNext(i, taxi, descriptions, operator, None);
      var before := OperatorsOf(descriptions[..n]);
      assert (before + [descriptions[n].operator])[..|before|] == before;
    }
  }

  lemma {:induction false} FreeAreNumbered(i: nat, taxi: Taxi, descriptions: seq<Description>, operator: Operator,
                                           towns: set<Town>, place: nat)
    requires taxi.insee in towns
    ensures Occurrences(FreeAt(place, descriptions), (place, operator)) ==
            |MatchingOf(i, taxi, descriptions, operator, Some(towns))|
  {
    if descriptions != [] {
      var n := |descriptions| - 1;
      FreeAreNumbered(i, taxi, descriptions[..n], operator, towns, place);
      MatchingOfNext(i, taxi, descriptions, operator, Some(towns));
      var before := FreeAt(place, descriptions[..n]);
      assert (before + [(place, descriptions[n].operator)])[..|before|] == before;
    }
  }

  lemma {:induction false} FreeElsewhere(place: nat, descriptions: seq<Description>, other: nat, operator: Operator)
    requires other != place
    ensures Occurrences(FreeAt(place, descriptions), (other, operator)) == 0
  {
    if descriptions != [] {
      var n := |descriptions| - 1;
      FreeElsewhere(place, descriptions[..n], other, operator);
      var before := FreeAt(place, descriptions[..n]);
      assert (before + [(place, descriptions[n].operator)])[..|before|] == before;
    }
  }

  /** The descriptions of one taxi more. */
  lemma {:induction false} MatchingNext(data: Data, operator: Operator, towns: Option<set<Town>>)
    requires data != []
    ensures
      var n := |data| - 1;
      |Matching(data, operator, towns)| ==
      |Matching(data[..n], operator, towns)| + |MatchingOf(n, data[n].0, data[n].1, operator, towns)|
    ensures
      var n := |data| - 1;
      towns.Some? && data[n].0.insee !in towns.value ==>
        |MatchingOf(n, data[n].0, data[n].1, operator, towns)| == 0
  {
    var n := |data| - 1;
    var before, last := Matching(data[..n], operator, towns), MatchingOf(n, data[n].0, data[n].1, operator, towns);
    assert Matching(data, operator, towns) == before + last;
    assert before !! last;
    assert towns.Some? && data[n].0.insee !in towns.value ==> last == {};
  }

  lemma {:induction false} AllAreNumbered(data: Data, operator: Operator)
    ensures Occurrences(Operators(data), operator) == |Matching(data, operator, None)|
  {
    if data != [] {
      var n := |data| - 1;
      AllAreNumbered(data[..n], operator);
      MatchingNext(data, operator, None);
      OperatorsAreNumbered(n, data[n].0, data[n].1, operator);
      OccurrencesOfSum(Operators(data[..n]), OperatorsOf(data[n].1), operator);
    }
  }

  lemma {:induction false} TownOperatorsAreNumbered(data: Data, t: Town, operator: Operator)
    ensures Occurrences(TownOperators(data), (t, operator)) == |Matching(data, operator, Some({t}))|
  {
    if data != [] {
      var n := |data| - 1;
      TownOperatorsAreNumbered(data[..n], t, operator);
      MatchingNext(data, operator, Some({t}));
      OccurrencesOfSum(TownOperators(data[..n]), FreeAt(data[n].0.insee, data[n].1), (t, operator));
      if data[n].0.insee == t {
        FreeAreNumbered(n, data[n].0, data[n].1, operator, {t}, t);
      } else {
        FreeElsewhere(data[n].0.insee, data[n].1, t, operator);
      }
    }
  }

  lemma {:induction false} ZoneOperatorsAreNumbered(zone: Zone, data: Data, operator: Operator)
    ensures Occurrences(ZoneOperatorsOf(zone, data), (zone.id, operator)) ==
            |Matching(data, operator, Some(set t | t in zone.allowed))|
  {
    if data != [] {
      var n := |data| - 1;
      var towns := set t | t in zone.allowed;
      ZoneOperatorsAreNumbered(zone, data[..n], operator);
      MatchingNext(data, operator, Some(towns));
      if data[n].0.insee in zone.allowed {
        FreeAreNumbered(n, data[n].0, data[n].1, operator, towns, zone.id);
        OccurrencesOfSum(ZoneOperatorsOf(zone, data[..n]), FreeAt(zone.id, data[n].1), (zone.id, operator));
      }
    }
  }

  // ------------------------------------------------- every entry of a run

  /** The towns of a zone. */
  ghost function TownsOf(zone: Zone): set<Town> {
    set t | t in zone.allowed
  }

  /** What an entry is about, and the number that it is to tell. */
  ghost predicate IsTold(data: Data, zones: seq<Zone>, e: Entry) {
    match (e.town, e.zone, e.operator)
    case (None, None, None) => e.value == |data|
    case (Some(town), None, None) => e.value == |TaxisIn(data, {town})| > 0
    case (None, None, Some(operator)) => e.value == |Matching(data, operator, None)| > 0
    case (Some(town), None, Some(operator)) => e.value == |Matching(data, operator, Some({town}))| > 0
    case (None, Some(id), None) =>
      exists z | z in zones :: z.id == id && e.value == |TaxisIn(data, TownsOf(z))| > 0
    case (None, Some(id), Some(operator)) =>
      exists z | z in zones :: z.id == id && e.value == |Matching(data, operator, Some(TownsOf(z)))| > 0
    case (Some(_), Some(_), _) => false
  }

  lemma {:induction false} EntriesAreOfOneKind(data: Data, zones: seq<Zone>, covered: seq<Zone>, e: Entry)
    ensures
      var towns := Tally(Towns(data));
      && (e in TownEntries(towns, SortedTowns(towns)) ==> e.town.Some? && e.zone.None? && e.operator.None?)
      && (e in ZoneEntries(towns, covered) ==> e.town.None? && e.zone.Some? && e.operator.None?)
  {
    var towns := Tally(Towns(data));
    TownEntriesAre(towns, SortedTowns(towns), e);
    ZoneEntriesAre(towns, covered, e);
  }

  lemma {:induction false} OperatorEntriesAre(data: Data, e: Entry)
    ensures
      e in OperatorEntries(Tally(Operators(data))) <==>
      && e.town.None? && e.zone.None? && e.operator.Some?
      && e.value == |Matching(data, e.operator.value, None)| > 0
  {
    var c := Tally(Operators(data));
    if e.operator.Some? {
      TallyHolds(Operators(data), e.operator.value, e.value);
      AllAreNumbered(data, e.operator.value);
      if (e.operator.value, e.value) in c {
        var i :| 0 <= i < |c| && c[i] == (e.operator.value, e.value);
        assert OperatorEntries(c)[i] == Entry(None, None, e.operator, e.value);
      }
    }
  }

  lemma {:induction false} TownOperatorEntriesAre(data: Data, e: Entry)
    ensures
      e in TownOperatorEntries(Tally(TownOperators(data))) <==>
      && e.town.Some? && e.zone.None? && e.operator.Some?
      && e.value == |Matching(data, e.operator.value, Some({e.town.value}))| > 0
  {
    var c := Tally(TownOperators(data));
    if e.town.Some? && e.operator.Some? {
      var key := (e.town.value, e.operator.value);
      TallyHolds(TownOperators(data), key, e.value);
      TownOperatorsAreNumbered(data, key.0, key.1);
      if (key, e.value) in c {
        var i :| 0 <= i < |c| && c[i] == (key, e.value);
        assert TownOperatorEntries(c)[i] == Entry(e.town, None, e.operator, e.value);
      }
    }
  }

  /** A zone without active taxis has no descriptions of them. */
  lemma {:induction false} NoTaxiNoDescription(data: Data, operator: Operator, towns: set<Town>)
    ensures |Matching(data, operator, Some(towns))| > 0 ==> |TaxisIn(data, towns)| > 0
  {
    if matching :| matching in Matching(data, operator, Some(towns)) {
      assert matching.0 in TaxisIn(data, towns);
    }
  }

  lemma {:induction false} CoveredStayDistinct(zones: seq<Zone>, c: Counter<Town>)
    requires DistinctZones(zones)
    ensures DistinctZones(CoveredZones(zones, c))
  {
    if zones != [] {
      var n := |zones| - 1;
      CoveredStayDistinct(zones[..n], c);
      forall z | z in CoveredZones(zones[..n], c)
        ensures z.id != zones[n].id
      {
        CoveredZonesAre(zones[..n], c, z);
      }
    }
  }

  /** The number of an operator's free descriptions in a zone. */
  lemma {:induction false} ZoneOperatorIsNumbered(zones: seq<Zone>, data: Data, z: Zone, operator: Operator)
    requires DistinctZones(zones)
    ensures
      var covered := CoveredZones(zones, Tally(Towns(data)));
      && (z in zones ==>
            Occurrences(ZoneOperators(covered, data), (z.id, operator)) ==
            |Matching(data, operator, Some(TownsOf(z)))|)
      && ((forall x | x in zones :: x.id != z.id) ==>
            Occurrences(ZoneOperators(covered, data), (z.id, operator)) == 0)
  {
    var c := Tally(Towns(data));
    var covered := CoveredZones(zones, c);
    CoveredStayDistinct(zones, c);
    if z in covered {
      var k :| 0 <= k < |covered| && covered[k] == z;
      ZoneOperatorsOfOne(covered, k, data, operator);
      ZoneOperatorsAreNumbered(z, data, operator);
      CoveredZonesAre(zones, c, z);
    } else {
      forall x | x in covered
        ensures x.id != z.id || x !in zones || z !in zones
      {
        CoveredZonesAre(zones, c, x);
      }
      forall x | x in covered
        ensures x in zones
      {
        CoveredZonesAre(zones, c, x);
      }
      if z in zones {
        CoveredZonesAre(zones, c, z);
        CoveredZonesHaveTaxis(data, z);
        ActiveAreNumbered(data, z.allowed);
        NoTaxiNoDescription(data, operator, TownsOf(z));
      }
      if z in zones || forall x | x in zones :: x.id != z.id {
        OthersCountNothing(covered, data, z.id, operator);
      }
    }
  }

  lemma {:induction false} ZoneOperatorEntriesAre(zones: seq<Zone>, data: Data, e: Entry)
    requires DistinctZones(zones)
    ensures
      e in ZoneOperatorEntries(Tally(ZoneOperators(CoveredZones(zones, Tally(Towns(data))), data))) <==>
      && e.town.None? && e.zone.Some? && e.operator.Some?
      && exists z | z in zones ::
           z.id == e.zone.value && e.value == |Matching(data, e.operator.value, Some(TownsOf(z)))| > 0
  {
    var keys := ZoneOperators(CoveredZones(zones, Tally(Towns(data))), data);
    var c := Tally(keys);
    if e.zone.Some? && e.operator.Some? {
      var key := (e.zone.value, e.operator.value);
      TallyHolds(keys, key, e.value);
      if (key, e.value) in c {
        var i :| 0 <= i < |c| && c[i] == (key, e.value);
        assert ZoneOperatorEntries(c)[i] == Entry(None, e.zone, e.operator, e.value);
      }
      if z :| z in zones && z.id == key.0 {
        ZoneOperatorIsNumbered(zones, data, z, key.1);
      } else {
        ZoneOperatorIsNumbered(zones, data, Zone(key.0, []), key.1);
      }
    }
  }

  /**
   A run logs an entry if and only if it tells its number: the total, and, unless it
   is zero, the taxis of a town or of a zone, the descriptions of an operator, and its
   free ones in a town or in a zone.
   */
  lemma {:induction false} LoggedExactly(data: Data, zones: seq<Zone>, e: Entry)
    requires DistinctZones(zones)
    ensures e in Logged(data, zones) <==> IsTold(data, zones, e)
  {
    var towns := Tally(Towns(data));
    var covered := CoveredZones(zones, towns);
    EntriesAreOfOneKind(data, zones, covered, e);
    OperatorEntriesAre(data, e);
    TownOperatorEntriesAre(data, e);
    ZoneOperatorEntriesAre(zones, data, e);
    if e.town.Some? && e.operator.None? {
      TownEntriesExactly(data, e);
      TaxisAreNumbered(data, e.town.value);
    }
    if e.zone.Some? {
      ZoneEntriesAreTold(data, zones, e);
    }
  }

  lemma {:induction false} ZoneEntriesAreTold(data: Data, zones: seq<Zone>, e: Entry)
    requires DistinctZones(zones) && e.zone.Some?
    ensures
      var towns := Tally(Towns(data));
      e in ZoneEntries(towns, CoveredZones(zones, towns)) <==>
      && e.town.None? && e.operator.None?
      && exists z | z in zones :: z.id == e.zone.value && e.value == |TaxisIn(data, TownsOf(z))| > 0
  {
    ZoneEntriesExactly(data, zones, e);
    forall z | z in zones
      ensures ActiveIn(data, z.allowed) == |TaxisIn(data, TownsOf(z))|
    {
      ActiveAreNumbered(data, z.allowed);
    }
  }

  // ------------------------------------------------- each entry once, the towns in order

  /** No two entries are about the same. */
  ghost predicate OncePerKey(entries: seq<Entry>) {
    forall i, j | 0 <= i < j < |entries| :: !SameKey(entries[i], entries[j])
  }

  ghost predicate SameKey(a: Entry, b: Entry) {
    a.town == b.town && a.zone == b.zone && a.operator == b.operator
  }

  ghost predicate AllOf(entries: seq<Entry>, town: bool, zone: bool, operator: bool) {
    forall i | 0 <= i < |entries| ::
      entries[i].town.Some? == town && entries[i].zone.Some? == zone && entries[i].operator.Some? == operator
  }

  ghost predicate Ascending(towns: seq<Town>) {
    forall i, j | 0 <= i < j < |towns| :: towns[i] < towns[j]
  }

  lemma {:induction false} InsertKeepsOrder(sorted: seq<Town>, t: Town)
    requires Ascending(sorted) && t !in sorted
    ensures Ascending(InsertTown(sorted, t))
  {
    if sorted != [] && !(t <= sorted[0]) {
      InsertKeepsOrder(sorted[1..], t);
      InsertedTowns(sorted[1..], t);
      var rest := InsertTown(sorted[1..], t);
      forall i | 0 <= i < |rest|
        ensures sorted[0] < rest[i]
      {
        assert rest[i] in rest;
      }
    }
  }

  lemma {:induction false} SortedTownsAscend(c: Counter<Town>)
    requires Distinct(c)
    ensures Ascending(SortedTowns(c))
  {
    if c != [] {
      SortedTownsAscend(c[1..]);
      SortedTownsAreKeys(c[1..], c[0].0);
      InsertKeepsOrder(SortedTowns(c[1..]), c[0].0);
    }
  }

  lemma {:induction false} TownEntriesInOrder(c: Counter<Town>, towns: seq<Town>)
    ensures |TownEntries(c, towns)| == |towns| && AllOf(TownEntries(c, towns), true, false, false)
    ensures forall i | 0 <= i < |towns| :: TownEntries(c, towns)[i].town == Some(towns[i])
  {
    if towns != [] {
      TownEntriesInOrder(c, towns[..|towns| - 1]);
    }
  }

  lemma {:induction false} ZoneEntriesInOrder(c: Counter<Town>, zones: seq<Zone>)
    ensures |ZoneEntries(c, zones)| == |zones| && AllOf(ZoneEntries(c, zones), false, true, false)
    ensures forall i | 0 <= i < |zones| :: ZoneEntries(c, zones)[i].zone == Some(zones[i].id)
  {
    if zones != [] {
      ZoneEntriesInOrder(c, zones[..|zones| - 1]);
    }
  }

  lemma {:induction false} TogetherOnce(a: seq<Entry>, b: seq<Entry>)
    requires OncePerKey(a) && OncePerKey(b)
    requires forall i, j | 0 <= i < |a| && 0 <= j < |b| :: !SameKey(a[i], b[j])
    ensures OncePerKey(a + b)
  {
  }

  lemma {:induction false} PlacesOnce(data: Data, zones: seq<Zone>)
    requires DistinctZones(zones)
    ensures OncePerKey(PlacesLogged(data, zones))
    ensures forall e | e in PlacesLogged(data, zones) :: e.operator.None?
  {
    var towns := Tally(Towns(data));
    var covered := CoveredZones(zones, towns);
    TallyIsDistinct(Towns(data));
    SortedTownsAscend(towns);
    TownEntriesInOrder(towns, SortedTowns(towns));
    CoveredStayDistinct(zones, towns);
    ZoneEntriesInOrder(towns, covered);
    var total := [Entry(None, None, None, |data|)];
    TogetherOnce(total, TownEntries(towns, SortedTowns(towns)));
    TogetherOnce(total + TownEntries(towns, SortedTowns(towns)), ZoneEntries(towns, covered));
  }

  lemma {:induction false} OperatorsOnce(data: Data, covered: seq<Zone>)
    ensures OncePerKey(OperatorsLogged(data, covered))
    ensures forall e | e in OperatorsLogged(data, covered) :: e.operator.Some?
  {
    TallyIsDistinct(Operators(data));
    TallyIsDistinct(TownOperators(data));
    TallyIsDistinct(ZoneOperators(covered, data));
    var a := OperatorEntries(Tally(Operators(data)));
    var b := TownOperatorEntries(Tally(TownOperators(data)));
    TogetherOnce(a, b);
    TogetherOnce(a + b, ZoneOperatorEntries(Tally(ZoneOperators(covered, data))));
  }

  /** A run logs nothing twice: no two of its entries are about the same town, zone and operator. */
  lemma {:induction false} LoggedOnce(data: Data, zones: seq<Zone>, i: nat, j: nat)
    requires DistinctZones(zones) && i < j < |Logged(data, zones)|
    ensures
      var a, b := Logged(data, zones)[i], Logged(data, zones)[j];
      !(a.town == b.town && a.zone == b.zone && a.operator == b.operator)
  {
    var covered := CoveredZones(zones, Tally(Towns(data)));
    PlacesOnce(data, zones);
    OperatorsOnce(data, covered);
    var a, b := PlacesLogged(data, zones), OperatorsLogged(data, covered);
    forall i, j | 0 <= i < |a| && 0 <= j < |b|
      ensures !SameKey(a[i], b[j])
    {
      assert a[i] in a && b[j] in b;
    }
    TogetherOnce(a, b);
  }

  /** The entries of towns alone come in the order of the towns. */
  lemma {:induction false} TownsComeInOrder(data: Data, zones: seq<Zone>, i: nat, j: nat)
    requires i < j < |Logged(data, zones)|
    requires
      var a, b := Logged(data, zones)[i], Logged(data, zones)[j];
      a.town.Some? && a.operator.None? && b.town.Some? && b.operator.None?
    ensures Logged(data, zones)[i].town.value < Logged(data, zones)[j].town.value
  {
    var towns := Tally(Towns(data));
    var covered := CoveredZones(zones, towns);
    var entries := TownEntries(towns, SortedTowns(towns));
    TallyIsDistinct(Towns(data));
    SortedTownsAscend(towns);
    TownEntriesInOrder(towns, SortedTowns(towns));
    ZoneEntriesInOrder(towns, covered);
    OperatorsOnce(data, covered);
    var n := 1 + |entries|;
    forall k | 0 <= k < |Logged(data, zones)|
      ensures (Logged(data, zones)[k].town.Some? && Logged(data, zones)[k].operator.None?) <==> 1 <= k < n
      ensures 1 <= k < n ==> Logged(data, zones)[k] == entries[k - 1]
    {
      var places := PlacesLogged(data, zones);
      if k >= |places| {
        assert Logged(data, zones)[k] in OperatorsLogged(data, covered);
      }
    }
  }
}
