/** How the entries of one run of the statistics add up, however towns, zones and operators overlap. */
module ActivityConservation {
  import opened Wrappers
  import opened OrderedDict
  import opened Counters
  import opened ActivityStats

  ghost predicate DistinctTowns(towns: seq<Town>) {
    forall i, j | 0 <= i < j < |towns| :: towns[i] != towns[j]
  }

  ghost predicate DistinctZones(zones: seq<Zone>) {
    && (forall i | 0 <= i < |zones| :: DistinctTowns(zones[i].allowed))
    && (forall i, j | 0 <= i < j < |zones| :: zones[i].id != zones[j].id)
  }

  function SumOfValues(entries: seq<Entry>): int {
    if entries == [] then 0
    else
      var n := |entries| - 1;
      SumOfValues(entries[..n]) + entries[n].value
  }

  // ------------------------------------------------- towns and the total

  lemma {:induction false} SumOverCons(c: Counter<Town>, t: Town, towns: seq<Town>)
    ensures SumOver(c, [t] + towns) == Count(c, t) + SumOver(c, towns)
  {
    if towns == [] {
      assert [t] + towns == [t] && [t][..0] == [];
    } else {
      var n := |towns| - 1;
      assert ([t] + towns)[..n + 1] == [t] + towns[..n];
      SumOverCons(c, t, towns[..n]);
    }
  }

  lemma {:induction false} SumOverInsert(c: Counter<Town>, sorted: seq<Town>, t: Town)
    ensures SumOver(c, InsertTown(sorted, t)) == Count(c, t) + SumOver(c, sorted)
  {
    SumOverCons(c, t, sorted);
    if sorted != [] && !(t <= sorted[0]) {
      SumOverInsert(c, sorted[1..], t);
      SumOverCons(c, sorted[0], InsertTown(sorted[1..], t));
      SumOverCons(c, sorted[0], sorted[1..]);
      assert sorted == [sorted[0]] + sorted[1..];
    }
  }

  lemma {:induction false} SumOverSorted(c: Counter<Town>, part: Counter<Town>)
    requires forall e | e in part :: Count(c, e.0) == e.1
    ensures SumOver(c, SortedTowns(part)) == Total(part)
  {
    if part == [] {
      assert SortedTowns(part) == [];
    } else {
      assert part[0] in part;
      SumOverSorted(c, part[1..]);
      SumOverInsert(c, SortedTowns(part[1..]), part[0].0);
    }
  }

  lemma {:induction false} TownEntriesSum(c: Counter<Town>, towns: seq<Town>)
    ensures SumOfValues(TownEntries(c, towns)) == SumOver(c, towns)
  {
    if towns != [] {
      var n := |towns| - 1;
      var before := TownEntries(c, towns[..n]);
      TownEntriesSum(c, towns[..n]);
      var last := Entry(Some(towns[n]), None, None, Count(c, towns[n]));
      assert (before + [last])[..|before|] == before;
    }
  }

  /** The values of the towns add up to the total. */
  lemma {:induction false} TownsAddUpToTotal(data: Data)
    ensures
      var towns := Tally(Towns(data));
      SumOfValues(TownEntries(towns, SortedTowns(towns))) == |data|
  {
    var towns := Tally(Towns(data));
    TallyIsDistinct(Towns(data));
    forall e | e in towns
      ensures Count(towns, e.0) == e.1
    {
      GetIsMember(towns, e.0);
      assert (e.0, e.1) in towns;
    }
    SumOverSorted(towns, towns);
    TallyConserves(Towns(data));
    TownEntriesSum(towns, SortedTowns(towns));
  }

  // ------------------------------------------------- zones

  /** The active taxis whose town is one of these. */
  function ActiveIn(data: Data, towns: seq<Town>): nat {
    if data == [] then 0
    else
      var n := |data| - 1;
      ActiveIn(data[..n], towns) + (if data[n].0.insee in towns then 1 else 0)
  }

  lemma {:induction false} SumOverBump(c: Counter<Town>, t: Town, towns: seq<Town>)
    requires DistinctTowns(towns)
    ensures SumOver(Bump(c, t), towns) == SumOver(c, towns) + if t in towns then 1 else 0
  {
    if towns != [] {
      var n := |towns| - 1;
      SumOverBump(c, t, towns[..n]);
      PutGet(c, t, Count(c, t) + 1, towns[n]);
      assert towns == towns[..n] + [towns[n]];
      assert towns[n] !in towns[..n];
    }
  }

  lemma {:induction false} SumOverNothing(towns: seq<Town>)
    ensures SumOver([], towns) == 0
  {
    if towns != [] {
      SumOverNothing(towns[..|towns| - 1]);
    }
  }

  /** The value of a zone is the number of active taxis whose town it allows. */
  lemma {:induction false} ZoneCountsItsTaxis(data: Data, towns: seq<Town>)
    requires DistinctTowns(towns)
    ensures SumOver(Tally(Towns(data)), towns) == ActiveIn(data, towns)
  {
    if data == [] {
      SumOverNothing(towns);
    } else {
      var n := |data| - 1;
      ZoneCountsItsTaxis(data[..n], towns);
      SumOverBump(Tally(Towns(data[..n])), data[n].0.insee, towns);
      TallyOfNext(Towns(data[..n]), data[n].0.insee);
    }
  }

  /** A zone is logged exactly when its value is not zero. */
  lemma {:induction false} CoveredZonesHaveTaxis(data: Data, zone: Zone)
    requires DistinctTowns(zone.allowed)
    ensures Covered(zone, Tally(Towns(data))) <==> ActiveIn(data, zone.allowed) > 0
  {
    if data != [] {
      var n := |data| - 1;
      CoveredZonesHaveTaxis(data[..n], zone);
      forall t
        ensures Get(Tally(Towns(data)), t).Some? <==>
                Get(Tally(Towns(data[..n])), t).Some? || t == data[n].0.insee
      {
        TallyOfNext(Towns(data[..n]), data[n].0.insee);
        var before := Tally(Towns(data[..n]));
        PutGet(before, data[n].0.insee, Count(before, data[n].0.insee) + 1, t);
      }
    }
  }

  function SumOfZones(c: Counter<Town>, zones: seq<Zone>): int {
    if zones == [] then 0
    else
      var n := |zones| - 1;
      SumOfZones(c, zones[..n]) + SumOver(c, zones[n].allowed)
  }

  /** How many of the zones allow a town. */
  function ZonesOf(zones: seq<Zone>, town: Town): nat {
    if zones == [] then 0
    else
      var n := |zones| - 1;
      ZonesOf(zones[..n], town) + (if town in zones[n].allowed then 1 else 0)
  }

  function ZonesOfTaxis(zones: seq<Zone>, data: Data): nat {
    if data == [] then 0
    else
      var n := |data| - 1;
      ZonesOfTaxis(zones, data[..n]) + ZonesOf(zones, data[n].0.insee)
  }

  lemma {:induction false} ZonesOfNext(zones: seq<Zone>, zone: Zone, data: Data)
    ensures ZonesOfTaxis(zones + [zone], data) == ZonesOfTaxis(zones, data) + ActiveIn(data, zone.allowed)
  {
    if data != [] {
      var n := |data| - 1;
      ZonesOfNext(zones, zone, data[..n]);
      assert (zones + [zone])[..|zones|] == zones;
    }
  }

  lemma {:induction false} NoZones(data: Data)
    ensures ZonesOfTaxis([], data) == 0
  {
    if data != [] {
      NoZones(data[..|data| - 1]);
    }
  }

  /** Over all zones, each taxi is counted once for every zone that allows its town. */
  lemma {:induction false} OverlapsAreCountedTwice(zones: seq<Zone>, data: Data)
    requires forall i | 0 <= i < |zones| :: DistinctTowns(zones[i].allowed)
    ensures SumOfZones(Tally(Towns(data)), zones) == ZonesOfTaxis(zones, data)
  {
    if zones == [] {
      NoZones(data);
    } else {
      var n := |zones| - 1;
      OverlapsAreCountedTwice(zones[..n], data);
      ZoneCountsItsTaxis(data, zones[n].allowed);
      ZonesOfNext(zones[..n], zones[n], data);
      assert zones == zones[..n] + [zones[n]];
    }
  }

  // ------------------------------------------------- operators in towns and zones

  /** The free descriptions of an operator whose place is one of these. */
  function FreeIn(keys: seq<(nat, Operator)>, places: seq<nat>, operator: Operator): nat {
    if keys == [] then 0
    else
      var n := |keys| - 1;
      FreeIn(keys[..n], places, operator) + (if keys[n].0 in places && keys[n].1 == operator then 1 else 0)
  }

  /** The values of an operator in these towns, added up. */
  function SumOfTowns(c: Counter<(Town, Operator)>, towns: seq<Town>, operator: Operator): int {
    if towns == [] then 0
    else
      var n := |towns| - 1;
      SumOfTowns(c, towns[..n], operator) + Count(c, (towns[n], operator))
  }

  lemma {:induction false} SumOfTownsBump(c: Counter<(Town, Operator)>, key: (Town, Operator), towns: seq<Town>,
                                          operator: Operator)
    requires DistinctTowns(towns)
    ensures SumOfTowns(Bump(c, key), towns, operator) ==
            SumOfTowns(c, towns, operator) + if key.0 in towns && key.1 == operator then 1 else 0
  {
    if towns != [] {
      var n := |towns| - 1;
      SumOfTownsBump(c, key, towns[..n], operator);
      PutGet(c, key, Count(c, key) + 1, (towns[n], operator));
      assert towns == towns[..n] + [towns[n]];
      assert towns[n] !in towns[..n];
    }
  }

  lemma {:induction false} SumOfTownsNothing(towns: seq<Town>, operator: Operator)
    ensures SumOfTowns([], towns, operator) == 0
  {
    if towns != [] {
      SumOfTownsNothing(towns[..|towns| - 1], operator);
    }
  }

  lemma {:induction false} SumOfTownsCounts(keys: seq<(Town, Operator)>, towns: seq<Town>, operator: Operator)
    requires DistinctTowns(towns)
    ensures SumOfTowns(Tally(keys), towns, operator) == FreeIn(keys, towns, operator)
  {
    if keys == [] {
      SumOfTownsNothing(towns, operator);
    } else {
      var n := |keys| - 1;
      SumOfTownsCounts(keys[..n], towns, operator);
      SumOfTownsBump(Tally(keys[..n]), keys[n], towns, operator);
    }
  }

  lemma {:induction false} FreeInOfSum(a: seq<(nat, Operator)>, b: seq<(nat, Operator)>, places: seq<nat>,
                                       operator: Operator)
    ensures FreeIn(a + b, places, operator) == FreeIn(a, places, operator) + FreeIn(b, places, operator)
  {
    if b == [] {
      assert a + b == a;
    } else {
      var n := |b| - 1;
      assert (a + b)[..|a| + n] == a + b[..n];
      FreeInOfSum(a, b[..n], places, operator);
    }
  }

  /** A place stands for all its descriptions. */
  lemma {:induction false} FreeAtOnePlace(place: nat, descriptions: seq<Description>, towns: seq<Town>, zone: ZoneId,
                                          operator: Operator)
    ensures FreeIn(FreeAt(place, descriptions), towns, operator) ==
            if place in towns then Occurrences(FreeAt(zone, descriptions), (zone, operator)) else 0
  {
    if descriptions != [] {
      var n := |descriptions| - 1;
      FreeAtOnePlace(place, descriptions[..n], towns, zone, operator);
      var a, b := FreeAt(place, descriptions[..n]), FreeAt(zone, descriptions[..n]);
      assert (a + [(place, descriptions[n].operator)])[..|a|] == a;
      assert (b + [(zone, descriptions[n].operator)])[..|b|] == b;
    }
  }

  lemma {:induction false} ZoneCountsItsDescriptions(zone: Zone, data: Data, operator: Operator)
    ensures Occurrences(ZoneOperatorsOf(zone, data), (zone.id, operator)) ==
            FreeIn(TownOperators(data), zone.allowed, operator)
  {
    if data != [] {
      var n := |data| - 1;
      ZoneCountsItsDescriptions(zone, data[..n], operator);
      FreeInOfSum(TownOperators(data[..n]), FreeAt(data[n].0.insee, data[n].1), zone.allowed, operator);
      FreeAtOnePlace(data[n].0.insee, data[n].1, zone.allowed, zone.id, operator);
      OccurrencesOfSum(ZoneOperatorsOf(zone, data[..n]), FreeAt(zone.id, data[n].1), (zone.id, operator));
    }
  }

  lemma {:induction false} FreeAtElsewhere(place: nat, descriptions: seq<Description>, other: nat, operator: Operator)
    requires place != other
    ensures Occurrences(FreeAt(place, descriptions), (other, operator)) == 0
  {
    if descriptions != [] {
      var n := |descriptions| - 1;
      FreeAtElsewhere(place, descriptions[..n], other, operator);
      var a := FreeAt(place, descriptions[..n]);
      assert (a + [(place, descriptions[n].operator)])[..|a|] == a;
    }
  }

  lemma {:induction false} OtherZoneCountsNothing(zone: Zone, data: Data, id: ZoneId, operator: Operator)
    requires zone.id != id
    ensures Occurrences(ZoneOperatorsOf(zone, data), (id, operator)) == 0
  {
    if data != [] {
      var n := |data| - 1;
      OtherZoneCountsNothing(zone, data[..n], id, operator);
      FreeAtElsewhere(zone.id, data[n].1, id, operator);
      OccurrencesOfSum(ZoneOperatorsOf(zone, data[..n]), FreeAt(zone.id, data[n].1), (id, operator));
    }
  }

  lemma {:induction false} ZoneOperatorsOfOne(zones: seq<Zone>, k: nat, data: Data, operator: Operator)
    requires k < |zones| && forall i, j | 0 <= i < j < |zones| :: zones[i].id != zones[j].id
    ensures Occurrences(ZoneOperators(zones, data), (zones[k].id, operator)) ==
            Occurrences(ZoneOperatorsOf(zones[k], data), (zones[k].id, operator))
  {
    var n := |zones| - 1;
    var key := (zones[k].id, operator);
    OccurrencesOfSum(ZoneOperators(zones[..n], data), ZoneOperatorsOf(zones[n], data), key);
    if k == n {
      OthersCountNothing(zones[..n], data, key.0, operator);
    } else {
      ZoneOperatorsOfOne(zones[..n], k, data, operator);
      OtherZoneCountsNothing(zones[n], data, key.0, operator);
    }
  }

  lemma {:induction false} OthersCountNothing(zones: seq<Zone>, data: Data, id: ZoneId, operator: Operator)
    requires forall i | 0 <= i < |zones| :: zones[i].id != id
    ensures Occurrences(ZoneOperators(zones, data), (id, operator)) == 0
  {
    if zones != [] {
      var n := |zones| - 1;
      OthersCountNothing(zones[..n], data, id, operator);
      OtherZoneCountsNothing(zones[n], data, id, operator);
      OccurrencesOfSum(ZoneOperators(zones[..n], data), ZoneOperatorsOf(zones[n], data), (id, operator));
    }
  }

  /** The value of an operator in a zone is the sum of its values in the zone's towns. */
  lemma {:induction false} ZonesAddUpTheirTowns(zones: seq<Zone>, k: nat, data: Data, operator: Operator)
    requires k < |zones| && DistinctZones(zones)
    ensures Count(Tally(ZoneOperators(zones, data)), (zones[k].id, operator)) ==
            SumOfTowns(Tally(TownOperators(data)), zones[k].allowed, operator)
  {
    TallyCounts(ZoneOperators(zones, data), (zones[k].id, operator));
    ZoneOperatorsOfOne(zones, k, data, operator);
    ZoneCountsItsDescriptions(zones[k], data, operator);
    SumOfTownsCounts(TownOperators(data), zones[k].allowed, operator);
  }

  // ------------------------------------------------- operators in all

  /** The descriptions of an operator that are not free. */
  function BusyOf(descriptions: seq<Description>, operator: Operator): nat {
    if descriptions == [] then 0
    else
      var n := |descriptions| - 1;
      BusyOf(descriptions[..n], operator)
      + (if descriptions[n].operator == operator && !descriptions[n].free then 1 else 0)
  }

  function Busy(data: Data, operator: Operator): nat {
    if data == [] then 0
    else
      var n := |data| - 1;
      Busy(data[..n], operator) + BusyOf(data[n].1, operator)
  }

  lemma {:induction false} FreeAndBusyOf(place: nat, descriptions: seq<Description>, towns: seq<Town>,
                                         operator: Operator)
    requires place in towns
    ensures Occurrences(OperatorsOf(descriptions), operator) ==
            FreeIn(FreeAt(place, descriptions), towns, operator) + BusyOf(descriptions, operator)
  {
    if descriptions != [] {
      var n := |descriptions| - 1;
      FreeAndBusyOf(place, descriptions[..n], towns, operator);
      var a, b := FreeAt(place, descriptions[..n]), OperatorsOf(descriptions[..n]);
      assert (a + [(place, descriptions[n].operator)])[..|a|] == a;
      assert (b + [descriptions[n].operator])[..|b|] == b;
    }
  }

  lemma {:induction false} FreeAndBusy(data: Data, towns: seq<Town>, operator: Operator)
    requires forall i | 0 <= i < |data| :: data[i].0.insee in towns
    ensures Occurrences(Operators(data), operator) ==
            FreeIn(TownOperators(data), towns, operator) + Busy(data, operator)
  {
    if data != [] {
      var n := |data| - 1;
      FreeAndBusy(data[..n], towns, operator);
      FreeAndBusyOf(data[n].0.insee, data[n].1, towns, operator);
      OccurrencesOfSum(Operators(data[..n]), OperatorsOf(data[n].1), operator);
      FreeInOfSum(TownOperators(data[..n]), FreeAt(data[n].0.insee, data[n].1), towns, operator);
    }
  }

  /**
   The value of an operator counts all its descriptions, its values in the
   towns only the free ones.
   */
  lemma {:induction false} OperatorIsMoreThanItsTowns(data: Data, towns: seq<Town>, operator: Operator)
    requires DistinctTowns(towns) && forall i | 0 <= i < |data| :: data[i].0.insee in towns
    ensures Count(Tally(Operators(data)), operator) ==
            SumOfTowns(Tally(TownOperators(data)), towns, operator) + Busy(data, operator)
  {
    TallyCounts(Operators(data), operator);
    FreeAndBusy(data, towns, operator);
    SumOfTownsCounts(TownOperators(data), towns, operator);
  }

  lemma {:induction false} NoneBusyOf(descriptions: seq<Description>, operator: Operator)
    ensures BusyOf(descriptions, operator) == 0 <==>
            forall k | 0 <= k < |descriptions| && descriptions[k].operator == operator :: descriptions[k].free
  {
    if descriptions != [] {
      var n := |descriptions| - 1;
      NoneBusyOf(descriptions[..n], operator);
      assert forall k | 0 <= k < n :: descriptions[..n][k] == descriptions[k];
    }
  }

  /** None of the operator's descriptions of active taxis is busy. */
  ghost predicate AllFree(data: Data, operator: Operator) {
    forall i, k | 0 <= i < |data| && 0 <= k < |data[i].1| ::
      data[i].1[k].operator == operator ==> data[i].1[k].free
  }

  lemma {:induction false} NoneBusy(data: Data, operator: Operator)
    ensures Busy(data, operator) == 0 <==> AllFree(data, operator)
  {
    if data != [] {
      var n := |data| - 1;
      NoneBusy(data[..n], operator);
      NoneBusyOf(data[n].1, operator);
      assert forall i | 0 <= i < n :: data[..n][i] == data[i];
    }
  }

  /** An operator's values in the towns add up to its own exactly when none of its descriptions is busy. */
  lemma {:induction false} OperatorAddsUpExactly(data: Data, towns: seq<Town>, operator: Operator)
    requires DistinctTowns(towns) && forall i | 0 <= i < |data| :: data[i].0.insee in towns
    ensures Count(Tally(Operators(data)), operator) == SumOfTowns(Tally(TownOperators(data)), towns, operator)
            <==> AllFree(data, operator)
  {
    OperatorIsMoreThanItsTowns(data, towns, operator);
    NoneBusy(data, operator);
  }

  const BUSY: Data := [(Taxi(0, 75056), [Description(1, false)])]

  /** One taxi with one busy description: its operator counts it, and no town does. */
  lemma {:induction false} BusyTaxiIsInNoTown()
    ensures
      && Count(Tally(Operators(BUSY)), 1) == 1
      && SumOfTowns(Tally(TownOperators(BUSY)), [75056], 1) == 0
  {
  }

  // ------------------------------------------------- every entry of a run

  lemma {:induction false} InsertedTowns(sorted: seq<Town>, t: Town)
    ensures forall x :: x in InsertTown(sorted, t) <==> x == t || x in sorted
  {
    if sorted != [] && !(t <= sorted[0]) {
      InsertedTowns(sorted[1..], t);
      assert sorted == [sorted[0]] + sorted[1..];
    }
  }

  lemma {:induction false} SortedTownsAreKeys(c: Counter<Town>, t: Town)
    ensures t in SortedTowns(c) <==> t in Keys(c)
  {
    if c != [] {
      SortedTownsAreKeys(c[1..], t);
      InsertedTowns(SortedTowns(c[1..]), c[0].0);
      assert c == [c[0]] + c[1..];
      KeysOfCons(c[0], c[1..]);
    }
  }

  lemma {:induction false} TownEntriesAre(c: Counter<Town>, towns: seq<Town>, e: Entry)
    ensures e in TownEntries(c, towns) <==> e.town.Some? && e.town.value in towns
                                            && e == Entry(e.town, None, None, Count(c, e.town.value))
  {
    if towns != [] {
      var n := |towns| - 1;
      TownEntriesAre(c, towns[..n], e);
      assert towns == towns[..n] + [towns[n]];
    }
  }

  /** The entry of a town with the number of its active taxis, and no other entry of a town alone. */
  lemma {:induction false} TownEntriesExactly(data: Data, e: Entry)
    requires e.town.Some? && e.operator.None?
    ensures
      var towns := Tally(Towns(data));
      e in TownEntries(towns, SortedTowns(towns)) <==>
      e.zone.None? && e.value == Occurrences(Towns(data), e.town.value) > 0
  {
    var towns := Tally(Towns(data));
    TownEntriesAre(towns, SortedTowns(towns), e);
    SortedTownsAreKeys(towns, e.town.value);
    GetIsMember(towns, e.town.value);
    TallyCounts(Towns(data), e.town.value);
  }

  lemma {:induction false} ZoneEntriesAre(c: Counter<Town>, zones: seq<Zone>, e: Entry)
    ensures e in ZoneEntries(c, zones) <==>
            exists z | z in zones :: e == Entry(None, Some(z.id), None, SumOver(c, z.allowed))
  {
    if zones != [] {
      var n := |zones| - 1;
      ZoneEntriesAre(c, zones[..n], e);
      assert zones == zones[..n] + [zones[n]];
    }
  }

  lemma {:induction false} CoveredZonesAre(zones: seq<Zone>, c: Counter<Town>, z: Zone)
    ensures z in CoveredZones(zones, c) <==> z in zones && Covered(z, c)
  {
    if zones != [] {
      var n := |zones| - 1;
      CoveredZonesAre(zones[..n], c, z);
      assert zones == zones[..n] + [zones[n]];
    }
  }

  /** The entry of each zone with the number of active taxis that it allows, unless there is none. */
  lemma {:induction false} ZoneEntriesExactly(data: Data, zones: seq<Zone>, e: Entry)
    requires forall z | z in zones :: DistinctTowns(z.allowed)
    ensures
      var towns := Tally(Towns(data));
      e in ZoneEntries(towns, CoveredZones(zones, towns)) <==>
      exists z | z in zones :: e == Entry(None, Some(z.id), None, ActiveIn(data, z.allowed)) && e.value > 0
  {
    var towns := Tally(Towns(data));
    var covered := CoveredZones(zones, towns);
    ZoneEntriesAre(towns, covered, e);
    forall z | z in zones
      ensures z in covered <==> ActiveIn(data, z.allowed) > 0
      ensures SumOver(towns, z.allowed) == ActiveIn(data, z.allowed)
    {
      CoveredZonesAre(zones, towns, z);
      CoveredZonesHaveTaxis(data, z);
      ZoneCountsItsTaxis(data, z.allowed);
    }
    forall z | z in covered
      ensures z in zones
    {
      CoveredZonesAre(zones, towns, z);
    }
  }
}
