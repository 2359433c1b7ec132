/**
 The statistics on active taxis: how many there are in all, in each town, in
 each zone, for each operator, and for each operator in a town or a zone.
 */
module ActivityStats {
  import opened Wrappers
  import opened OrderedDict
  import opened Counters

  type Town = nat
  type Operator = nat
  type ZoneId = nat

  datatype Taxi = Taxi(id: nat, insee: Town)

  datatype Description = Description(operator: Operator, free: bool)

  /** A zone and the towns whose taxis may work in it. */
  datatype Zone = Zone(id: ZoneId, allowed: seq<Town>)

  /** The active taxis, each with its descriptions. */
  type Data = seq<(Taxi, seq<Description>)>

  datatype Entry = Entry(town: Option<Town>, zone: Option<ZoneId>, operator: Option<Operator>, value: int)

  // ------------------------------------------------- what is counted

  function Towns(data: Data): (r: seq<Town>)
    ensures |r| == |data|
  {
    if data == [] then []
    else
      var n := |data| - 1;
      Towns(data[..n]) + [data[n].0.insee]
  }

  function OperatorsOf(descriptions: seq<Description>): seq<Operator> {
    if descriptions == [] then []
    else
      var n := |descriptions| - 1;
      OperatorsOf(descriptions[..n]) + [descriptions[n].operator]
  }

  function Operators(data: Data): seq<Operator> {
    if data == [] then []
    else
      var n := |data| - 1;
      Operators(data[..n]) + OperatorsOf(data[n].1)
  }

  /** Only free descriptions count here, each for the place given. */
  function FreeAt(place: nat, descriptions: seq<Description>): seq<(nat, Operator)> {
    if descriptions == [] then []
    else
      var n := |descriptions| - 1;
      var free := FreeAt(place, descriptions[..n]);
      if descriptions[n].free then free + [(place, descriptions[n].operator)] else free
  }

  function TownOperators(data: Data): seq<(Town, Operator)> {
    if data == [] then []
    else
      var n := |data| - 1;
      TownOperators(data[..n]) + FreeAt(data[n].0.insee, data[n].1)
  }

  function ZoneOperatorsOf(zone: Zone, data: Data): seq<(ZoneId, Operator)> {
    if data == [] then []
    else
      var n := |data| - 1;
      var keys := ZoneOperatorsOf(zone, data[..n]);
      if data[n].0.insee in zone.allowed then keys + FreeAt(zone.id, data[n].1) else keys
  }

  function ZoneOperators(zones: seq<Zone>, data: Data): seq<(ZoneId, Operator)> {
    if zones == [] then []
    else
      var n := |zones| - 1;
      ZoneOperators(zones[..n], data) + ZoneOperatorsOf(zones[n], data)
  }

  predicate Covered(zone: Zone, counter: Counter<Town>) {
    exists t | t in zone.allowed :: Get(counter, t).Some?
  }

  /** The zones that allow a town with an active taxi. */
  function CoveredZones(zones: seq<Zone>, counter: Counter<Town>): seq<Zone> {
    if zones == [] then []
    else
      var n := |zones| - 1;
      var covered := CoveredZones(zones[..n], counter);
      if Covered(zones[n], counter) then covered + [zones[n]] else covered
  }

  /** The taxis of the towns, by the counter of the towns. */
  function SumOver(counter: Counter<Town>, towns: seq<Town>): int {
    if towns == [] then 0
    else
      var n := |towns| - 1;
      SumOver(counter, towns[..n]) + Count(counter, towns[n])
  }

  // ------------------------------------------------- what is logged

  function InsertTown(sorted: seq<Town>, t: Town): seq<Town> {
    if sorted == [] || t <= sorted[0] then [t] + sorted else [sorted[0]] + InsertTown(sorted[1..], t)
  }

  function SortedTowns(counter: Counter<Town>): seq<Town> {
    if counter == [] then [] else InsertTown(SortedTowns(counter[1..]), counter[0].0)
  }

  function TownEntries(counter: Counter<Town>, towns: seq<Town>): seq<Entry> {
    if towns == [] then []
    else
      var n := |towns| - 1;
      TownEntries(counter, towns[..n]) + [Entry(Some(towns[n]), None, None, Count(counter, towns[n]))]
  }

  function ZoneEntries(counter: Counter<Town>, zones: seq<Zone>): seq<Entry> {
    if zones == [] then []
    else
      var n := |zones| - 1;
      ZoneEntries(counter, zones[..n]) + [Entry(None, Some(zones[n].id), None, SumOver(counter, zones[n].allowed))]
  }

  function OperatorEntries(counter: Counter<Operator>): seq<Entry> {
    seq(|counter|, i requires 0 <= i < |counter| => Entry(None, None, Some(counter[i].0), counter[i].1))
  }

  function TownOperatorEntries(counter: Counter<(Town, Operator)>): seq<Entry> {
    seq(|counter|, i requires 0 <= i < |counter| =>
      Entry(Some(counter[i].0.0), None, Some(counter[i].0.1), counter[i].1))
  }

  function ZoneOperatorEntries(counter: Counter<(ZoneId, Operator)>): seq<Entry> {
    seq(|counter|, i requires 0 <= i < |counter| =>
      Entry(None, Some(counter[i].0.0), Some(counter[i].0.1), counter[i].1))
  }

  /** The entries for the total, the towns and the zones. */
  function PlacesLogged(data: Data, zones: seq<Zone>): seq<Entry> {
    var towns := Tally(Towns(data));
    [Entry(None, None, None, |data|)] + TownEntries(towns, SortedTowns(towns))
    + ZoneEntries(towns, CoveredZones(zones, towns))
  }

  /** The entries for the operators. */
  function OperatorsLogged(data: Data, covered: seq<Zone>): seq<Entry> {
    OperatorEntries(Tally(Operators(data))) + TownOperatorEntries(Tally(TownOperators(data)))
    + ZoneOperatorEntries(Tally(ZoneOperators(covered, data)))
  }

  /** All entries of one run. */
  function Logged(data: Data, zones: seq<Zone>): seq<Entry> {
    PlacesLogged(data, zones) + OperatorsLogged(data, CoveredZones(zones, Tally(Towns(data))))
  }

  // ------------------------------------------------- the loops

  method CountTowns(data: Data) returns (counter: Counter<Town>)
    ensures counter == Tally(Towns(data))
  {
    counter := [];
    for i := 0 to |data|
      invariant counter == Tally(Towns(data[..i]))
    {
      assert data[..i + 1][..i] == data[..i];
      var before := Towns(data[..i]);
      assert (before + [data[i].0.insee])[..i] == before;
      counter := Bump(counter, data[i].0.insee);
    }
    assert data[..|data|] == data;
  }

  lemma {:induction false} TallyOfNext<K>(keys: seq<K>, key: K)
    ensures Tally(keys + [key]) == Bump(Tally(keys), key)
  {
  }

  method CountOperators(data: Data) returns (counter: Counter<Operator>)
    ensures counter == Tally(Operators(data))
  {
    counter := [];
    for i := 0 to |data|
      invariant counter == Tally(Operators(data[..i]))
    {
      assert data[..i + 1][..i] == data[..i];
      ghost var before := Operators(data[..i]);
      var descriptions := data[i].1;
      assert before + [] == before;
      for j := 0 to |descriptions|
        invariant counter == Tally(before + OperatorsOf(descriptions[..j]))
      {
        assert descriptions[..j + 1][..j] == descriptions[..j];
        TallyOfNext(before + OperatorsOf(descriptions[..j]), descriptions[j].operator);
        assert before + OperatorsOf(descriptions[..j + 1]) ==
               before + OperatorsOf(descriptions[..j]) + [descriptions[j].operator];
        counter := Bump(counter, descriptions[j].operator);
      }
      assert descriptions[..|descriptions|] == descriptions;
    }
    assert data[..|data|] == data;
  }

  lemma {:induction false} FreeOfNext(before: seq<(nat, Operator)>, place: nat, descriptions: seq<Description>, j: nat)
    requires j < |descriptions|
    ensures
      var keys := before + FreeAt(place, descriptions[..j]);
      before + FreeAt(place, descriptions[..j + 1]) ==
      if descriptions[j].free then keys + [(place, descriptions[j].operator)] else keys
  {
    assert descriptions[..j + 1][..j] == descriptions[..j];
  }

  /** Counts the free descriptions of one taxi for a place. */
  method CountFree(counter: Counter<(nat, Operator)>, ghost before: seq<(nat, Operator)>, place: nat,
                   descriptions: seq<Description>) returns (counter': Counter<(nat, Operator)>)
    requires counter == Tally(before)
    ensures counter' == Tally(before + FreeAt(place, descriptions))
  {
    counter' := counter;
    assert before + [] == before;
    for j := 0 to |descriptions|
      invariant counter' == Tally(before + FreeAt(place, descriptions[..j]))
    {
      FreeOfNext(before, place, descriptions, j);
      if descriptions[j].free {
        TallyOfNext(before + FreeAt(place, descriptions[..j]), (place, descriptions[j].operator));
        counter' := Bump(counter', (place, descriptions[j].operator));
      }
    }
    assert descriptions[..|descriptions|] == descriptions;
  }

  method CountTownOperators(data: Data) returns (counter: Counter<(Town, Operator)>)
    ensures counter == Tally(TownOperators(data))
  {
    counter := [];
    for i := 0 to |data|
      invariant counter == Tally(TownOperators(data[..i]))
    {
      assert data[..i + 1][..i] == data[..i];
      counter := CountFree(counter, TownOperators(data[..i]), data[i].0.insee, data[i].1);
    }
    assert data[..|data|] == data;
  }

  method CountZoneOperators(zones: seq<Zone>, data: Data) returns (counter: Counter<(ZoneId, Operator)>)
    ensures counter == Tally(ZoneOperators(zones, data))
  {
    counter := [];
    for k := 0 to |zones|
      invariant counter == Tally(ZoneOperators(zones[..k], data))
    {
      var zone := zones[k];
      ghost var before := ZoneOperators(zones[..k], data);
      assert zones[..k + 1][..k] == zones[..k];
      assert before + [] == before;
      for i := 0 to |data|
        invariant counter == Tally(before + ZoneOperatorsOf(zone, data[..i]))
      {
        assert data[..i + 1][..i] == data[..i];
        if data[i].0.insee !in zone.allowed {
          continue;
        }
        ghost var keys := before + ZoneOperatorsOf(zone, data[..i]);
        assert before + ZoneOperatorsOf(zone, data[..i + 1]) == keys + FreeAt(zone.id, data[i].1);
        counter := CountFree(counter, keys, zone.id, data[i].1);
      }
      assert data[..|data|] == data;
    }
    assert zones[..|zones|] == zones;
  }

  class Statistics {
    var entries: seq<Entry>

    constructor ()
      ensures entries == []
    {
      entries := [];
    }

    method LogValue(town: Option<Town>, zone: Option<ZoneId>, operator: Option<Operator>, value: int)
      modifies this
      ensures entries == old(entries) + [Entry(town, zone, operator, value)]
    {
      entries := entries + [Entry(town, zone, operator, value)];
    }

    method LogTowns(counter: Counter<Town>)
      modifies this
      ensures entries == old(entries) + TownEntries(counter, SortedTowns(counter))
    {
      var towns := SortedTowns(counter);
      for i := 0 to |towns|
        invariant entries == old(entries) + TownEntries(counter, towns[..i])
      {
        assert towns[..i + 1][..i] == towns[..i];
        LogValue(Some(towns[i]), None, None, Count(counter, towns[i]));
      }
      assert towns[..|towns|] == towns;
    }

    method LogZones(counter: Counter<Town>, zones: seq<Zone>)
      modifies this
      ensures entries == old(entries) + ZoneEntries(counter, zones)
    {
      for i := 0 to |zones|
        invariant entries == old(entries) + ZoneEntries(counter, zones[..i])
      {
        assert zones[..i + 1][..i] == zones[..i];
        var value := 0;
        var allowed := zones[i].allowed;
        for j := 0 to |allowed|
          invariant value == SumOver(counter, allowed[..j])
        {
          assert allowed[..j + 1][..j] == allowed[..j];
          value := value + Count(counter, allowed[j]);
        }
        assert allowed[..|allowed|] == allowed;
        LogValue(None, Some(zones[i].id), None, value);
      }
      assert zones[..|zones|] == zones;
    }

    method LogOperators(counter: Counter<Operator>)
      modifies this
      ensures entries == old(entries) + OperatorEntries(counter)
    {
      for i := 0 to |counter|
        invariant entries == old(entries) + OperatorEntries(counter)[..i]
      {
        LogValue(None, None, Some(counter[i].0), counter[i].1);
      }
    }

    method LogTownOperators(counter: Counter<(Town, Operator)>)
      modifies this
      ensures entries == old(entries) + TownOperatorEntries(counter)
    {
      for i := 0 to |counter|
        invariant entries == old(entries) + TownOperatorEntries(counter)[..i]
      {
        LogValue(Some(counter[i].0.0), None, Some(counter[i].0.1), counter[i].1);
      }
    }

    method LogZoneOperators(counter: Counter<(ZoneId, Operator)>)
      modifies this
      ensures entries == old(entries) + ZoneOperatorEntries(counter)
    {
      for i := 0 to |counter|
        invariant entries == old(entries) + ZoneOperatorEntries(counter)[..i]
      {
        LogValue(None, Some(counter[i].0.0), Some(counter[i].0.1), counter[i].1);
      }
    }

    method LogPlaces(data: Data, zones: seq<Zone>) returns (covered: seq<Zone>)
      modifies this
      ensures entries == old(entries) + PlacesLogged(data, zones)
      ensures covered == CoveredZones(zones, Tally(Towns(data)))
    {
      LogValue(None, None, None, |data|);
      var towns := CountTowns(data);
      LogTowns(towns);
      assert entries == old(entries) + ([Entry(None, None, None, |data|)] + TownEntries(towns, SortedTowns(towns)));
      covered := CoveredZones(zones, towns);
      LogZones(towns, covered);
    }

    method LogAllOperators(data: Data, covered: seq<Zone>)
      modifies this
      ensures entries == old(entries) + OperatorsLogged(data, covered)
    {
      var operators := CountOperators(data);
      LogOperators(operators);
      var townOperators := CountTownOperators(data);
      LogTownOperators(townOperators);
      ghost var first := OperatorEntries(operators) + TownOperatorEntries(townOperators);
      assert entries == old(entries) + first;
      var zoneOperators := CountZoneOperators(covered, data);
      LogZoneOperators(zoneOperators);
      assert entries == old(entries) + first + ZoneOperatorEntries(zoneOperators);
    }

    /** One run. */
    method LogActiveTaxis(data: Data, zones: seq<Zone>)
      modifies this
      ensures entries == old(entries) + Logged(data, zones)
    {
      var covered := LogPlaces(data, zones);
      LogAllOperators(data, covered);
    }
  }
}
