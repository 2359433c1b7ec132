/**
 What the index holds, told by the reports alone: the last one of each taxi, and of
 each taxi by each operator, and how long it is found.
 */
module PositionReports {
  import opened OrderedDict
  import opened PositionIndex
  import opened Wrappers

  // ------------------------------------------------- the last report

  ghost predicate IsOf(e: Event, m: Member) {
    e.Reported? && e.taxi == m.taxi && e.operator == m.operator
  }

  /** The last report of a taxi by an operator. */
  ghost function LastReport(events: seq<Event>, m: Member): (r: Option<Event>)
    ensures r.Some? ==> r.value in events && IsOf(r.value, m)
  {
    if events == [] then None
    else
      var n := |events| - 1;
      if IsOf(events[n], m) then Some(events[n]) else LastReport(events[..n], m)
  }

  /** The last report of a taxi by any operator. */
  ghost function LastOfTaxi(events: seq<Event>, taxi: Taxi): (r: Option<Event>)
    ensures r.Some? ==> r.value in events && r.value.Reported? && r.value.taxi == taxi
  {
    if events == [] then None
    else
      var n := |events| - 1;
      if events[n].Reported? && events[n].taxi == taxi then Some(events[n]) else LastOfTaxi(events[..n], taxi)
  }

  /** The whole seconds of a time that is not before the epoch. */
  ghost predicate IsWhole(timestamp: int, at: real) {
    timestamp as real <= at < timestamp as real + 1.0
  }

  ghost predicate MembersAreReported(s: Store, events: seq<Event>) {
    forall m {:trigger LastReport(events, m)} ::
      var last := LastReport(events, m);
      && (m in s.hash <==> last.Some?)
      && (last.Some? ==> IsWhole(s.hash[m].timestamp, last.value.at) && s.hash[m].position == last.value.position)
      && (m in s.geoindex2 ==> last.Some? && s.geoindex2[m] == last.value.position)
      && (m in s.timestamps ==> last.Some? && IsWhole(s.timestamps[m], last.value.at))
  }

  ghost predicate TaxisAreReported(s: Store, events: seq<Event>) {
    forall t {:trigger LastOfTaxi(events, t)} ::
      var last := LastOfTaxi(events, t);
      && (t in s.geoindex ==> last.Some? && s.geoindex[t] == last.value.position)
      && (t in s.timestampsId ==> last.Some? && IsWhole(s.timestampsId[t], last.value.at))
  }

  lemma {:induction false} HistoryOfNext(freshness: nat, s: System, events: seq<Event>, e: Event)
    ensures History(freshness, s, events + [e]) == Next(freshness, History(freshness, s, events), e)
    ensures
      AllInTime(freshness, s, events + [e]) <==>
      AllInTime(freshness, s, events) && InTime(freshness, History(freshness, s, events), e)
    decreases |events|
  {
    if events == [] {
      assert [e][1..] == [] && events + [e] == [e];
    } else {
      assert (events + [e])[1..] == events[1..] + [e];
      HistoryOfNext(freshness, Next(freshness, s, events[0]), events[1..], e);
    }
  }

  lemma {:induction false} NextKeepsMembers(freshness: nat, s: System, events: seq<Event>, e: Event)
    requires InTime(freshness, s, e) && MembersAreReported(s.store, events)
    ensures MembersAreReported(Next(freshness, s, e).store, events + [e])
  {
    assert (events + [e])[..|events|] == events;
    forall m
      ensures LastReport(events + [e], m) == if IsOf(e, m) then Some(e) else LastReport(events, m)
    {
    }
  }

  lemma {:induction false} NextKeepsTaxis(freshness: nat, s: System, events: seq<Event>, e: Event)
    requires InTime(freshness, s, e) && TaxisAreReported(s.store, events)
    ensures TaxisAreReported(Next(freshness, s, e).store, events + [e])
  {
    assert (events + [e])[..|events|] == events;
    forall t
      ensures
        LastOfTaxi(events + [e], t) == if e.Reported? && e.taxi == t then Some(e) else LastOfTaxi(events, t)
    {
    }
  }

  lemma {:induction false} HistoryIsReported(freshness: nat, clock: real, events: seq<Event>)
    requires AllInTime(freshness, System(EMPTY, clock, Idle), events)
    ensures
      var s := History(freshness, System(EMPTY, clock, Idle), events).store;
      MembersAreReported(s, events) && TaxisAreReported(s, events)
    decreases |events|
  {
    var s := System(EMPTY, clock, Idle);
    if events != [] {
      var n := |events| - 1;
      assert events == events[..n] + [events[n]];
      HistoryOfNext(freshness, s, events[..n], events[n]);
      HistoryIsReported(freshness, clock, events[..n]);
      NextKeepsMembers(freshness, History(freshness, s, events[..n]), events[..n], events[n]);
      NextKeepsTaxis(freshness, History(freshness, s, events[..n]), events[..n], events[n]);
    }
  }

  /**
   After any reports and commands of the cleaner, the hash holds exactly what was
   ever reported, with the place and the whole seconds of the last report of the taxi
   by that operator; the index with operators holds no other place, and the one
   without holds the place of the last report of the taxi by anyone.
   */
  lemma {:induction false} LastReportIsStored(freshness: nat, clock: real, events: seq<Event>, m: Member)
    requires AllInTime(freshness, System(EMPTY, clock, Idle), events)
    ensures
      var s := History(freshness, System(EMPTY, clock, Idle), events).store;
      var last, ofTaxi := LastReport(events, m), LastOfTaxi(events, m.taxi);
      && (m in s.hash <==> last.Some?)
      && (m in s.hash ==>
            && s.hash[m].position == last.value.position
            && s.hash[m].timestamp as real <= last.value.at < s.hash[m].timestamp as real + 1.0)
      && (m in s.geoindex2 ==> last.Some? && s.geoindex2[m] == last.value.position)
      && (m in s.timestamps ==>
            last.Some? && s.timestamps[m] as real <= last.value.at < s.timestamps[m] as real + 1.0)
      && (m.taxi in s.geoindex ==> ofTaxi.Some? && s.geoindex[m.taxi] == ofTaxi.value.position)
      && (m.taxi in s.timestampsId ==>
            && ofTaxi.Some?
            && s.timestampsId[m.taxi] as real <= ofTaxi.value.at < s.timestampsId[m.taxi] as real + 1.0)
  {
    HistoryIsReported(freshness, clock, events);
  }

  // ------------------------------------------------- how long a report is found

  lemma {:induction false} ReportsOfNext(events: seq<Event>, e: Event)
    ensures Reports(events + [e]) == Reports(events) + (if e.Reported? then [e] else [])
  {
    if events == [] {
      assert [e][1..] == [] && events + [e] == [e];
    } else {
      assert (events + [e])[1..] == events[1..] + [e];
      ReportsOfNext(events[1..], e);
    }
  }

  lemma {:induction false} LastOfReports(events: seq<Event>, m: Member)
    ensures LastReport(Reports(events), m) == LastReport(events, m)
  {
    if events != [] {
      var n := |events| - 1;
      assert events == events[..n] + [events[n]];
      ReportsOfNext(events[..n], events[n]);
      LastOfReports(events[..n], m);
      if !events[n].Reported? {
        assert Reports(events) == Reports(events[..n]);
      } else {
        assert (Reports(events[..n]) + [events[n]])[..|Reports(events[..n])|] == Reports(events[..n]);
      }
    }
  }

  /** Without cleaning, every report is in the index with its operator, and its time with it. */
  ghost predicate AllIndexed(s: Store, events: seq<Event>) {
    forall m {:trigger LastReport(events, m)} ::
      var last := LastReport(events, m);
      && (m in s.timestamps <==> last.Some?) && (m in s.geoindex2 <==> last.Some?)
      && (last.Some? ==> IsWhole(s.timestamps[m], last.value.at))
  }

  lemma {:induction false} UncleanedHoldsAll(freshness: nat, s: System, events: seq<Event>)
    requires s.store == EMPTY && forall e | e in events :: e.Reported? && 0.0 <= e.at
    ensures AllIndexed(History(freshness, s, events).store, events)
    decreases |events|
  {
    if events != [] {
      var n := |events| - 1;
      var e := events[n];
      assert events == events[..n] + [e];
      HistoryOfNext(freshness, s, events[..n], e);
      UncleanedHoldsAll(freshness, s, events[..n]);
      assert e in events;
      TruncBounds(e.at);
      forall m
        ensures LastReport(events, m) == if IsOf(e, m) then Some(e) else LastReport(events[..n], m)
      {
      }
    }
  }

  lemma {:induction false} ReportsAreAfterEpoch(freshness: nat, s: System, events: seq<Event>)
    requires AllInTime(freshness, s, events)
    ensures forall e | e in events :: e.Reported? ==> 0.0 <= e.at
    ensures forall e | e in Reports(events) :: e in events
    decreases |events|
  {
    if events != [] {
      ReportsAreAfterEpoch(freshness, Next(freshness, s, events[0]), events[1..]);
      assert events == [events[0]] + events[1..];
    }
  }

  /**
   However the cleaner's commands fall between the reports, at any later instant a
   taxi can be found with an operator if and only if the whole seconds of its last
   report by that operator and the freshness are not past; and it is found where that
   report placed it.
   */
  lemma {:induction false} FoundWhileFresh(freshness: nat, clock: real, events: seq<Event>, m: Member, now: real)
    requires 0 < freshness && 0.0 <= clock && AllInTime(freshness, System(EMPTY, clock, Idle), events)
    requires History(freshness, System(EMPTY, clock, Idle), events).clock < now
    ensures
      var s := History(freshness, System(EMPTY, clock, Idle), events).store;
      var last := LastReport(events, m);
      && (m in s.geoindex2 && m in s.timestamps && now <= s.timestamps[m] as real + freshness as real <==>
          last.Some? && now <= last.value.at.Floor as real + freshness as real)
      && (last.Some? && now <= last.value.at.Floor as real + freshness as real ==>
            m in s.geoindex2 && s.geoindex2[m] == last.value.position)
  {
    var s := System(EMPTY, clock, Idle);
    CleaningIsTransparent(freshness, clock, events, m, now);
    ReportsAreAfterEpoch(freshness, s, events);
    UncleanedHoldsAll(freshness, s, Reports(events));
    LastOfReports(events, m);
    HistoryIsReported(freshness, clock, events);
    var last, whole := LastReport(events, m), History(freshness, s, Reports(events)).store;
    if last.Some? {
      assert IsWhole(whole.timestamps[m], last.value.at);
      assert whole.timestamps[m] == last.value.at.Floor;
    }
  }

  // ------------------------------------------------- what a cleaning takes away

  /**
   A cleaning with nothing in between takes away, from both pairs of sets, exactly
   what is not later than the freshness before it began, and what has no timestamp;
   the rest stays as it was, and so does the hash.
   */
  lemma {:induction false} CleanedExactly(freshness: nat, s: Store, clock: real, now: real, m: Member)
    requires freshness as real <= now
    requires m in s.timestamps ==> 0 <= s.timestamps[m]
    requires m.taxi in s.timestampsId ==> 0 <= s.timestampsId[m.taxi]
    ensures
      var c := Cleaned(now);
      var s' := History(freshness, System(s, clock, Idle), [c, c, c, c]).store;
      var stays := m in s.timestamps && now < s.timestamps[m] as real + freshness as real;
      var taxiStays := m.taxi in s.timestampsId && now < s.timestampsId[m.taxi] as real + freshness as real;
      && s'.hash == s.hash
      && (m in s'.timestamps <==> stays)
      && (m in s'.geoindex2 <==> stays && m in s.geoindex2)
      && (stays ==> s'.timestamps[m] == s.timestamps[m])
      && (m in s'.geoindex2 ==> s'.geoindex2[m] == s.geoindex2[m])
      && (m.taxi in s'.timestampsId <==> taxiStays)
      && (m.taxi in s'.geoindex <==> taxiStays && m.taxi in s.geoindex)
      && (taxiStays ==> s'.timestampsId[m.taxi] == s.timestampsId[m.taxi])
      && (m.taxi in s'.geoindex ==> s'.geoindex[m.taxi] == s.geoindex[m.taxi])
  {
    FourCommandsClean(freshness, s, clock, now);
    TruncBounds(now - freshness as real);
  }

  // ------------------------------------------------- an accepted batch

  lemma {:induction false} PutAppends<K, V>(d: Dict<K, V>, key: K, value: V)
    requires key !in Keys(d)
    ensures Put(d, key, value) == d + [(key, value)]
  {
    if d != [] {
      KeysOfCons(d[0], d[1..]);
      assert d == [d[0]] + d[1..] && d[0].0 in Keys(d);
      PutAppends(d[1..], key, value);
    }
  }

  lemma {:induction false} PutKeepsPlaces<K, V>(d: Dict<K, V>, key: K, value: V, k: nat)
    requires k < |d|
    ensures k < |Put(d, key, value)| && Put(d, key, value)[k].0 == d[k].0
  {
    if d[0].0 != key && k > 0 {
      PutKeepsPlaces(d[1..], key, value, k - 1);
    }
  }

  lemma {:induction false} DistinctAreCounted<K, V>(d: Dict<K, V>)
    requires Distinct(d)
    ensures |Keys(d)| == |d|
  {
    if d != [] {
      DistinctAreCounted(d[1..]);
      KeysOfCons(d[0], d[1..]);
      assert d == [d[0]] + d[1..];
      assert d[0].0 !in Keys(d[1..]);
    }
  }

  /** A taxi has the place, in the batch, of the first position given for it. */
  lemma {:induction false} PlaceOfFirst(positions: seq<(Taxi, Position)>, i: nat)
    requires i < |positions| && forall k | 0 <= k < i :: positions[k].0 != positions[i].0
    ensures
      var place := |Keys(positions[..i])|;
      place < |FromPairs(positions)| && FromPairs(positions)[place].0 == positions[i].0
  {
    var n := |positions| - 1;
    if i == n {
      FromPairsIsLast(positions[..n], positions[n].0);
      DistinctAreCounted(FromPairs(positions[..n]));
      PutAppends(FromPairs(positions[..n]), positions[n].0, positions[n].1);
    } else {
      assert positions[..n][..i] == positions[..i];
      PlaceOfFirst(positions[..n], i);
      PutKeepsPlaces(FromPairs(positions[..n]), positions[n].0, positions[n].1, |Keys(positions[..i])|);
    }
  }

  lemma {:induction false} LastValueIsAt(positions: seq<(Taxi, Position)>, l: nat)
    requires l < |positions| && forall k | l < k < |positions| :: positions[k].0 != positions[l].0
    ensures LastValue(positions, positions[l].0) == Some(positions[l].1)
  {
    var n := |positions| - 1;
    if l < n {
      LastValueIsAt(positions[..n], l);
    }
  }

  /** What the writes of one report leave of a taxi and an operator. */
  ghost predicate Holds(s: Store, taxi: Taxi, operator: Operator, position: Position, timestamp: int) {
    var m := Member(taxi, operator);
    && m in s.hash && s.hash[m].timestamp == timestamp && s.hash[m].position == position
    && m in s.geoindex2 && s.geoindex2[m] == position && m in s.timestamps && s.timestamps[m] == timestamp
    && taxi in s.geoindex && s.geoindex[taxi] == position
    && taxi in s.timestampsId && s.timestampsId[taxi] == timestamp
  }

  ghost predicate SameOfMember(s: Store, s': Store, m: Member) {
    && (m in s'.hash <==> m in s.hash) && (m in s.hash ==> s'.hash[m] == s.hash[m])
    && (m in s'.geoindex2 <==> m in s.geoindex2) && (m in s.geoindex2 ==> s'.geoindex2[m] == s.geoindex2[m])
    && (m in s'.timestamps <==> m in s.timestamps) && (m in s.timestamps ==> s'.timestamps[m] == s.timestamps[m])
  }

  ghost predicate SameOfTaxi(s: Store, s': Store, t: Taxi) {
    && (t in s'.geoindex <==> t in s.geoindex) && (t in s.geoindex ==> s'.geoindex[t] == s.geoindex[t])
    && (t in s'.timestampsId <==> t in s.timestampsId)
    && (t in s.timestampsId ==> s'.timestampsId[t] == s.timestampsId[t])
  }

  lemma {:induction false} EachIsReported(s: Store, batch: seq<(Taxi, Position)>, operator: Operator,
                                          clock: nat -> real, i: nat)
    requires Distinct(batch) && i < |batch|
    ensures Holds(ReportEach(s, batch, operator, clock), batch[i].0, operator, batch[i].1, Trunc(clock(i)))
    decreases |batch|
  {
    var n := |batch| - 1;
    if i < n {
      EachIsReported(s, batch[..n], operator, clock, i);
    }
  }

  lemma {:induction false} OthersAreLeft(s: Store, batch: seq<(Taxi, Position)>, operator: Operator,
                                         clock: nat -> real, m: Member)
    ensures
      var s' := ReportEach(s, batch, operator, clock);
      && (m.operator != operator || m.taxi !in Keys(batch) ==> SameOfMember(s, s', m))
      && (m.taxi !in Keys(batch) ==> SameOfTaxi(s, s', m.taxi))
    decreases |batch|
  {
    if batch != [] {
      var n := |batch| - 1;
      assert batch[n].0 in Keys(batch);
      forall k | k in Keys(batch[..n])
        ensures k in Keys(batch)
      {
        var i :| 0 <= i < n && batch[..n][i].0 == k;
        assert batch[i].0 == k;
      }
      OthersAreLeft(s, batch[..n], operator, clock, m);
    }
  }

  /**
   An accepted batch leaves of each taxi that it names, at the first and at the last
   place given, the position of the last and the time at which the clock was read for
   the first; the clock is read once for each taxi, in the order of their first places.
   */
  lemma {:induction false} BatchIsStored(s: Store, positions: seq<(Taxi, Position)>, operator: Operator,
                                         clock: nat -> real, first: nat, last: nat)
    requires first <= last < |positions| && positions[first].0 == positions[last].0
    requires forall k | 0 <= k < first :: positions[k].0 != positions[first].0
    requires forall k | last < k < |positions| :: positions[k].0 != positions[last].0
    requires 0.0 <= clock(|Keys(positions[..first])|)
    ensures
      var s' := ReportEach(s, FromPairs(positions), operator, clock);
      var at := clock(|Keys(positions[..first])|);
      Holds(s', positions[last].0, operator, positions[last].1, at.Floor)
  {
    var batch, place := FromPairs(positions), |Keys(positions[..first])|;
    PlaceOfFirst(positions, first);
    LastValueIsAt(positions, last);
    FromPairsIsLast(positions, positions[last].0);
    GetIsMember(batch, positions[last].0);
    assert batch[place] in batch && batch[place] == (positions[last].0, batch[place].1);
    EachIsReported(s, batch, operator, clock, place);
  }

  /** An accepted batch leaves everything else as it was. */
  lemma {:induction false} BatchLeavesOthers(s: Store, positions: seq<(Taxi, Position)>, operator: Operator,
                                             clock: nat -> real, m: Member)
    ensures
      var s' := ReportEach(s, FromPairs(positions), operator, clock);
      var named := exists i | 0 <= i < |positions| :: positions[i].0 == m.taxi;
      && (m.operator != operator || !named ==> SameOfMember(s, s', m))
      && (!named ==> SameOfTaxi(s, s', m.taxi))
  {
    FromPairsIsLast(positions, m.taxi);
    OthersAreLeft(s, FromPairs(positions), operator, clock, m);
  }
}
