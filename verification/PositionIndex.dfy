/**
 The positions of taxis: one hash and four sorted sets that every report writes,
 and a cleaner made of four separate commands that runs between reports.
 */
module PositionIndex {
  import opened OrderedDict

  type Taxi = nat
  type Operator = nat

  /** A member of the sets that tell operators apart. */
  datatype Member = Member(taxi: Taxi, operator: Operator)

  datatype Position = Position(lon: real, lat: real)

  datatype Fix = Fix(timestamp: int, position: Position)

  datatype Store = Store(
    hash: map<Member, Fix>,
    geoindex: map<Taxi, Position>,
    geoindex2: map<Member, Position>,
    timestamps: map<Member, int>,
    timestampsId: map<Taxi, int>)

  /** Drops the fraction, towards zero on both sides. */
  function Trunc(x: real): int {
    if x >= 0.0 then x.Floor else -((-x).Floor)
  }

  function Report(s: Store, taxi: Taxi, position: Position, operator: Operator, timestamp: int): Store {
    var m := Member(taxi, operator);
    Store(s.hash[m := Fix(timestamp, position)],
          s.geoindex[taxi := position],
          s.geoindex2[m := position],
          s.timestamps[m := timestamp],
          s.timestampsId[taxi := timestamp])
  }

  /** The members whose score is not between zero and the limit. */
  function Unexpired<K>(scores: map<K, int>, limit: int): map<K, int> {
    map k | k in scores && !(0 <= scores[k] <= limit) :: scores[k]
  }

  /** The members that both sets have, with the scores of the spatial one. */
  function Common<K>(index: map<K, Position>, scores: map<K, int>): map<K, Position> {
    map k | k in index && k in scores :: index[k]
  }

  // ------------------------------------------------- reports and the cleaner, interleaved

  /** How far the cleaner has come, and the limit it computed when it began. */
  datatype Phase = Idle | Expired(limit: int) | Shrunk(limit: int) | ExpiredId(limit: int)

  datatype System = System(store: Store, clock: real, phase: Phase)

  datatype Event =
      // The clock was read at one time, the report is written at another.
    | Reported(taxi: Taxi, position: Position, operator: Operator, at: real, now: real)
    | Cleaned(now: real)

  /** One report, which is atomic, or the cleaner's next command. */
  function Next(freshness: nat, s: System, e: Event): System {
    match e
    case Reported(taxi, position, operator, at, now) =>
      System(Report(s.store, taxi, position, operator, Trunc(at)), now, s.phase)
    case Cleaned(now) =>
      var store := s.store;
      match s.phase
      case Idle =>
        var limit := Trunc(now - freshness as real);
        System(store.(timestamps := Unexpired(store.timestamps, limit)), now, Expired(limit))
      case Expired(limit) =>
        System(store.(geoindex2 := Common(store.geoindex2, store.timestamps)), now, Shrunk(limit))
      case Shrunk(limit) =>
        System(store.(timestampsId := Unexpired(store.timestampsId, limit)), now, ExpiredId(limit))
      case ExpiredId(limit) =>
        System(store.(geoindex := Common(store.geoindex, store.timestampsId)), now, Idle)
  }

  /**
   The clock never goes back, and is past the first seconds of its epoch; a
   report is written a second or more before it expires.
   */
  ghost predicate InTime(freshness: nat, s: System, e: Event) {
    && s.clock <= e.now && freshness as real <= e.now
    && (e.Reported? ==> 0.0 <= e.at <= e.now <= e.at + freshness as real - 1.0)
  }

  ghost predicate AllInTime(freshness: nat, s: System, events: seq<Event>)
    decreases |events|
  {
    events == [] ||
    (InTime(freshness, s, events[0]) && AllInTime(freshness, Next(freshness, s, events[0]), events[1..]))
  }

  function History(freshness: nat, s: System, events: seq<Event>): System
    decreases |events|
  {
    if events == [] then s else History(freshness, Next(freshness, s, events[0]), events[1..])
  }

  /** What the four commands do when nothing comes between them. */
  function CleanedStore(s: Store, limit: int): Store {
    var timestamps, timestampsId := Unexpired(s.timestamps, limit), Unexpired(s.timestampsId, limit);
    Store(s.hash, Common(s.geoindex, timestampsId), Common(s.geoindex2, timestamps), timestamps, timestampsId)
  }

  lemma {:induction false} FourSteps(freshness: nat, s: System, e: Event)
    ensures
      var s1 := Next(freshness, s, e);
      var s2 := Next(freshness, s1, e);
      var s3 := Next(freshness, s2, e);
      History(freshness, s, [e, e, e, e]) == Next(freshness, s3, e)
  {
    var s1 := Next(freshness, s, e);
    var s2 := Next(freshness, s1, e);
    var s3 := Next(freshness, s2, e);
    assert [e, e, e, e][1..] == [e, e, e] && [e, e, e][1..] == [e, e] && [e, e][1..] == [e];
    assert History(freshness, s3, [e]) == History(freshness, Next(freshness, s3, e), []);
    assert History(freshness, s2, [e, e]) == History(freshness, s3, [e]);
    assert History(freshness, s1, [e, e, e]) == History(freshness, s2, [e, e]);
  }

  lemma {:induction false} FourCommandsClean(freshness: nat, s: Store, clock: real, now: real)
    ensures
      var c := Cleaned(now);
      var end := History(freshness, System(s, clock, Idle), [c, c, c, c]);
      end.phase.Idle? && end.store == CleanedStore(s, Trunc(now - freshness as real))
  {
    var c, limit := Cleaned(now), Trunc(now - freshness as real);
    FourSteps(freshness, System(s, clock, Idle), c);
    var s1 := System(s.(timestamps := Unexpired(s.timestamps, limit)), now, Expired(limit));
    assert Next(freshness, System(s, clock, Idle), c) == s1;
    var s2 := System(s1.store.(geoindex2 := Common(s.geoindex2, s1.store.timestamps)), now, Shrunk(limit));
    assert Next(freshness, s1, c) == s2;
    var s3 := System(s2.store.(timestampsId := Unexpired(s.timestampsId, limit)), now, ExpiredId(limit));
    assert Next(freshness, s2, c) == s3;
  }

  // ------------------------------------------------- what always holds

  /** A taxi's timestamp is the one of an operator that reported it. */
  ghost predicate Witnessed(s: Store, taxi: Taxi)
    requires taxi in s.timestampsId
  {
    exists m | m in s.timestamps :: m.taxi == taxi && s.timestamps[m] == s.timestampsId[taxi]
  }

  ghost predicate StoreAgrees(s: Store, clock: real) {
    && s.timestamps.Keys <= s.geoindex2.Keys
    && s.timestampsId.Keys <= s.geoindex.Keys
    && (forall m | m in s.timestamps :: m in s.hash && s.hash[m].timestamp == s.timestamps[m])
    && (forall m | m in s.timestamps :: 0 <= s.timestamps[m])
    && (forall t | t in s.timestampsId :: 0 <= s.timestampsId[t] && s.timestampsId[t] as real <= clock)
    && (forall m | m in s.timestamps :: s.hash[m].position == s.geoindex2[m])
  }

  ghost predicate AllWitnessed(s: Store) {
    forall t | t in s.timestampsId :: Witnessed(s, t)
  }

  /** Between the two halves of a cleaning, a taxi may be left that is about to go. */
  ghost predicate WitnessedOrExpired(s: Store, limit: int) {
    && (forall m | m in s.timestamps :: limit < s.timestamps[m])
    && (forall t | t in s.timestampsId :: s.timestampsId[t] <= limit || Witnessed(s, t))
  }

  ghost predicate PhaseAgrees(s: Store, phase: Phase) {
    match phase
    case Idle =>
      s.timestamps.Keys == s.geoindex2.Keys && s.timestampsId.Keys == s.geoindex.Keys && AllWitnessed(s)
    case Expired(limit) =>
      s.timestampsId.Keys == s.geoindex.Keys && WitnessedOrExpired(s, limit)
    case Shrunk(limit) =>
      && s.timestamps.Keys == s.geoindex2.Keys && s.timestampsId.Keys == s.geoindex.Keys
      && WitnessedOrExpired(s, limit)
    case ExpiredId(limit) =>
      s.timestamps.Keys == s.geoindex2.Keys && AllWitnessed(s)
  }

  ghost predicate IndexInv(freshness: nat, s: System) {
    && 0.0 <= s.clock
    && StoreAgrees(s.store, s.clock)
    && PhaseAgrees(s.store, s.phase)
    && (!s.phase.Idle? ==> s.phase.limit as real + freshness as real <= s.clock)
  }

  /** What is dropped is less than a second, and the result is between zero and the time. */
  lemma {:induction false} TruncBounds(x: real)
    ensures 0.0 <= x ==> 0 <= Trunc(x) && Trunc(x) as real <= x < Trunc(x) as real + 1.0
    ensures x <= 0.0 ==> Trunc(x) <= 0 && Trunc(x) as real - 1.0 < x <= Trunc(x) as real
  {
  }

  /** A report that is written in time is later than anything a cleaning under way will remove. */
  lemma {:induction false} LimitIsPast(freshness: nat, limit: int, clock: real, at: real, now: real)
    requires limit as real + freshness as real <= clock <= now <= at + freshness as real - 1.0 && 0.0 <= at
    ensures limit < Trunc(at)
  {
  }

  lemma {:induction false} ReportKeepsStore(s: Store, clock: real, taxi: Taxi, position: Position, operator: Operator,
                                            at: real, now: real)
    requires StoreAgrees(s, clock) && clock <= now && 0.0 <= at <= now
    ensures StoreAgrees(Report(s, taxi, position, operator, Trunc(at)), now)
  {
  }

  lemma {:induction false} ReportKeepsWitnesses(s: Store, taxi: Taxi, position: Position, operator: Operator,
                                                timestamp: int)
    ensures Witnessed(Report(s, taxi, position, operator, timestamp), taxi)
    ensures forall t | t in s.timestampsId && Witnessed(s, t) ::
              Witnessed(Report(s, taxi, position, operator, timestamp), t)
  {
  }

  lemma {:induction false} ReportKeepsInv(freshness: nat, s: System, e: Event)
    requires 0 < freshness && IndexInv(freshness, s) && InTime(freshness, s, e) && e.Reported?
    ensures IndexInv(freshness, Next(freshness, s, e))
  {
    if !s.phase.Idle? {
      LimitIsPast(freshness, s.phase.limit, s.clock, e.at, e.now);
    }
    ReportKeepsStore(s.store, s.clock, e.taxi, e.position, e.operator, e.at, e.now);
    ReportKeepsWitnesses(s.store, e.taxi, e.position, e.operator, Trunc(e.at));
  }

  lemma {:induction false} CleanKeepsInv(freshness: nat, s: System, now: real)
    requires 0 < freshness && IndexInv(freshness, s) && InTime(freshness, s, Cleaned(now))
    ensures IndexInv(freshness, Next(freshness, s, Cleaned(now)))
  {
    var store, store' := s.store, Next(freshness, s, Cleaned(now)).store;
    match s.phase
    case Idle =>
      TruncBounds(now - freshness as real);
      var limit := Trunc(now - freshness as real);
      forall t | t in store'.timestampsId && limit < store'.timestampsId[t]
        ensures Witnessed(store', t)
      {
        assert Witnessed(store, t);
        var m :| m in store.timestamps && m.taxi == t && store.timestamps[m] == store.timestampsId[t];
        assert m in store'.timestamps;
      }
    case Shrunk(limit) =>
      forall t | t in store'.timestampsId
        ensures Witnessed(store', t)
      {
        assert Witnessed(store, t);
      }
    case Expired(limit) =>
      forall t | t in store.timestampsId && Witnessed(store, t)
        ensures Witnessed(store', t)
      {
      }
    case ExpiredId(limit) =>
      forall t | t in store.timestampsId
        ensures Witnessed(store', t)
      {
        assert Witnessed(store, t);
      }
  }

  /** Reports and the cleaner's commands, in any order, keep the sets in agreement. */
  lemma {:induction false} HistoryKeepsInv(freshness: nat, s: System, events: seq<Event>)
    requires 0 < freshness && IndexInv(freshness, s) && AllInTime(freshness, s, events)
    ensures IndexInv(freshness, History(freshness, s, events))
    decreases |events|
  {
    if events != [] {
      var e := events[0];
      if e.Reported? {
        ReportKeepsInv(freshness, s, e);
      } else {
        CleanKeepsInv(freshness, s, e.now);
      }
      HistoryKeepsInv(freshness, Next(freshness, s, e), events[1..]);
    }
  }

  const EMPTY := Store(map[], map[], map[], map[], map[])

  /**
   At every moment a live timestamp is the one in the hash and has its place in
   the index. Whenever the cleaner rests, both pairs of sets have the same
   members, and a taxi's timestamp is the one of an operator that reported it.
   */
  lemma {:induction false} IndexAgrees(freshness: nat, clock: real, events: seq<Event>)
    requires 0 < freshness && 0.0 <= clock && AllInTime(freshness, System(EMPTY, clock, Idle), events)
    ensures
      var s := History(freshness, System(EMPTY, clock, Idle), events);
      && s.store.timestamps.Keys <= s.store.geoindex2.Keys
      && s.store.timestampsId.Keys <= s.store.geoindex.Keys
      && (forall m | m in s.store.timestamps ::
            m in s.store.hash && s.store.hash[m] == Fix(s.store.timestamps[m], s.store.geoindex2[m]))
      && (s.phase.Idle? ==>
            && s.store.timestamps.Keys == s.store.geoindex2.Keys
            && s.store.timestampsId.Keys == s.store.geoindex.Keys
            && (forall t | t in s.store.timestampsId ::
                  (exists m | m in s.store.timestamps ::
                     m.taxi == t && s.store.timestamps[m] == s.store.timestampsId[t])))
  {
    HistoryKeepsInv(freshness, System(EMPTY, clock, Idle), events);
    var s := History(freshness, System(EMPTY, clock, Idle), events);
    if s.phase.Idle? {
      forall t | t in s.store.timestampsId
        ensures exists m | m in s.store.timestamps :: m.taxi == t && s.store.timestamps[m] == s.store.timestampsId[t]
      {
        assert Witnessed(s.store, t);
      }
    }
  }

  // ------------------------------------------------- reports out of order

  /** A taxi's timestamp is not older than those of its operators. */
  ghost predicate Topped(s: Store) {
    forall m | m in s.timestamps :: m.taxi in s.timestampsId && s.timestamps[m] <= s.timestampsId[m.taxi]
  }

  /** The report was not made before one of another operator of the taxi that is already written. */
  ghost predicate InOrder(s: Store, e: Event) {
    e.Reported? ==>
      forall m | m in s.timestamps && m.taxi == e.taxi && m.operator != e.operator :: s.timestamps[m] <= Trunc(e.at)
  }

  lemma {:induction false} ReportTops(s: Store, e: Event)
    requires Topped(s) && e.Reported?
    ensures Topped(Report(s, e.taxi, e.position, e.operator, Trunc(e.at))) <==> InOrder(s, e)
  {
  }

  lemma {:induction false} CleanTops(freshness: nat, s: System, now: real)
    requires IndexInv(freshness, s) && Topped(s.store)
    ensures Topped(Next(freshness, s, Cleaned(now)).store)
  {
  }

  /** At every moment of a run no timestamp of a taxi is older than those of its operators. */
  ghost predicate AlwaysTopped(freshness: nat, s: System, events: seq<Event>)
    decreases |events|
  {
    Topped(s.store) && (events == [] || AlwaysTopped(freshness, Next(freshness, s, events[0]), events[1..]))
  }

  ghost predicate AllInOrder(freshness: nat, s: System, events: seq<Event>)
    decreases |events|
  {
    events == [] ||
    (InOrder(s.store, events[0]) && AllInOrder(freshness, Next(freshness, s, events[0]), events[1..]))
  }

  /**
   A taxi's timestamp stays the latest of its operators' through a run exactly
   when no report is written after a later one of another operator.
   */
  lemma {:induction false} LatestExactlyInOrder(freshness: nat, s: System, events: seq<Event>)
    requires 0 < freshness && IndexInv(freshness, s) && AllInTime(freshness, s, events) && Topped(s.store)
    ensures AlwaysTopped(freshness, s, events) <==> AllInOrder(freshness, s, events)
    decreases |events|
  {
    if events != [] {
      var e := events[0];
      var s' := Next(freshness, s, e);
      if e.Reported? {
        ReportKeepsInv(freshness, s, e);
        ReportTops(s.store, e);
      } else {
        CleanKeepsInv(freshness, s, e.now);
        CleanTops(freshness, s, e.now);
      }
      if Topped(s'.store) {
        LatestExactlyInOrder(freshness, s', events[1..]);
      }
    }
  }

  /** Two operators report one taxi; the earlier report is written last. */
  const HERE := Position(2.0, 48.0)
  const LATER := Reported(7, HERE, 2, 300.0, 300.0)
  const EARLIER := Reported(7, HERE, 1, 299.0, 301.0)
  const CLEANED := Cleaned(419.0)

  lemma {:induction false} CleaningIsInTime(freshness: nat, s: System, now: real)
    requires s.clock <= now && freshness as real <= now
    ensures
      var c := Cleaned(now);
      AllInTime(freshness, s, [c, c, c, c])
  {
    var c := Cleaned(now);
    var s1 := Next(freshness, s, c);
    var s2 := Next(freshness, s1, c);
    assert [c, c, c, c][1..] == [c, c, c] && [c, c, c][1..] == [c, c] && [c, c][1..] == [c];
    assert AllInTime(freshness, Next(freshness, s2, c), [c]);
    assert AllInTime(freshness, s2, [c, c]) && AllInTime(freshness, s1, [c, c, c]);
  }

  /** Cleaning then drops the taxi, though the later report is still fresh and still found. */
  lemma {:induction false} LateWriteLosesATaxi()
    ensures
      var s := History(120, System(EMPTY, 200.0, Idle), [LATER, EARLIER]);
      var end := History(120, s, [CLEANED, CLEANED, CLEANED, CLEANED]);
      && AllInTime(120, System(EMPTY, 200.0, Idle), [LATER, EARLIER])
      && AllInTime(120, s, [CLEANED, CLEANED, CLEANED, CLEANED])
      && end.phase.Idle? && 7 !in end.store.geoindex && 7 !in end.store.timestampsId
      && Visible(120, end.store, Member(7, 2), 420.0)
  {
    var s0 := System(EMPTY, 200.0, Idle);
    var s1 := Next(120, s0, LATER);
    var s2 := Next(120, s1, EARLIER);
    assert [LATER, EARLIER][1..] == [EARLIER];
    assert History(120, s1, [EARLIER]) == History(120, s2, []);
    assert AllInTime(120, s1, [EARLIER]);
    assert s2 == System(s2.store, 301.0, Idle);
    FourCommandsClean(120, s2.store, 301.0, 419.0);
    CleaningIsInTime(120, s2, 419.0);
  }

  // ------------------------------------------------- cleaning changes no later search

  /** The member is in the index and its position is fresh enough at the time given. */
  predicate Visible(freshness: nat, s: Store, m: Member, now: real) {
    m in s.geoindex2 && m in s.timestamps && now <= s.timestamps[m] as real + freshness as real
  }

  /** The reports alone. */
  function Reports(events: seq<Event>): (r: seq<Event>)
    ensures forall e | e in r :: e.Reported?
  {
    if events == [] then []
    else (if events[0].Reported? then [events[0]] else []) + Reports(events[1..])
  }

  /** The store that was never cleaned has in addition only what is no longer fresh. */
  ghost predicate Shadows(freshness: nat, s: System, u: System) {
    && u.clock <= s.clock
    && (forall m | m in s.store.timestamps ::
          && m in u.store.timestamps && u.store.timestamps[m] == s.store.timestamps[m]
          && m in s.store.geoindex2)
    && (forall m | m in s.store.geoindex2 ::
          m in u.store.geoindex2 && u.store.geoindex2[m] == s.store.geoindex2[m])
    && (forall m | m in u.store.timestamps && m !in s.store.timestamps ::
          u.store.timestamps[m] as real + freshness as real <= s.clock)
  }

  lemma {:induction false} CleanKeepsShadow(freshness: nat, s: System, u: System, now: real)
    requires IndexInv(freshness, s) && InTime(freshness, s, Cleaned(now)) && Shadows(freshness, s, u)
    ensures Shadows(freshness, Next(freshness, s, Cleaned(now)), u)
  {
    if s.phase.Idle? {
      TruncBounds(now - freshness as real);
    }
  }

  lemma {:induction false} HistoryKeepsShadow(freshness: nat, s: System, u: System, events: seq<Event>)
    requires 0 < freshness && IndexInv(freshness, s) && AllInTime(freshness, s, events) && Shadows(freshness, s, u)
    ensures Shadows(freshness, History(freshness, s, events), History(freshness, u, Reports(events)))
    decreases |events|
  {
    if events != [] {
      var e := events[0];
      var s' := Next(freshness, s, e);
      if e.Reported? {
        ReportKeepsInv(freshness, s, e);
        assert Reports(events)[1..] == Reports(events[1..]);
        assert Shadows(freshness, s', Next(freshness, u, e));
        HistoryKeepsShadow(freshness, s', Next(freshness, u, e), events[1..]);
      } else {
        CleanKeepsInv(freshness, s, e.now);
        CleanKeepsShadow(freshness, s, u, e.now);
        assert Reports(events) == Reports(events[1..]);
        HistoryKeepsShadow(freshness, s', u, events[1..]);
      }
    }
  }

  /**
   However the cleaner's commands fall between the reports, at any later
   instant the members that pass the freshness filter, and their positions,
   are those of the same reports without any cleaning.
   */
  lemma {:induction false} CleaningIsTransparent(freshness: nat, clock: real, events: seq<Event>, m: Member,
                                                 now: real)
    requires 0 < freshness && 0.0 <= clock && AllInTime(freshness, System(EMPTY, clock, Idle), events)
    requires History(freshness, System(EMPTY, clock, Idle), events).clock < now
    ensures
      var cleaned := History(freshness, System(EMPTY, clock, Idle), events).store;
      var whole := History(freshness, System(EMPTY, clock, Idle), Reports(events)).store;
      && (Visible(freshness, cleaned, m, now) <==> Visible(freshness, whole, m, now))
      && (Visible(freshness, cleaned, m, now) ==> cleaned.geoindex2[m] == whole.geoindex2[m])
  {
    var s := System(EMPTY, clock, Idle);
    HistoryKeepsShadow(freshness, s, s, events);
    UncleanedIsIndexed(freshness, s, Reports(events));
  }

  /** Without cleaning, every timestamp has its place in the index. */
  lemma {:induction false} UncleanedIsIndexed(freshness: nat, s: System, events: seq<Event>)
    requires s.store.timestamps.Keys <= s.store.geoindex2.Keys && forall e | e in events :: e.Reported?
    ensures History(freshness, s, events).store.timestamps.Keys <= History(freshness, s, events).store.geoindex2.Keys
    decreases |events|
  {
    if events != [] {
      UncleanedIsIndexed(freshness, Next(freshness, s, events[0]), events[1..]);
    }
  }

  // ------------------------------------------------- with a limit on the number of hits

  /** The hits of a cleaned index, in the order they had. */
  function Kept(hits: seq<Member>, kept: set<Member>): (r: seq<Member>)
    ensures |r| <= |hits|
  {
    if hits == [] then []
    else (if hits[0] in kept then [hits[0]] else []) + Kept(hits[1..], kept)
  }

  function Nearest(hits: seq<Member>, count: nat): seq<Member> {
    if |hits| <= count then hits else hits[..count]
  }

  /**
   With a limit on the number of hits, a hit that was among the nearest and
   that cleaning keeps is still among the nearest afterwards.
   */
  lemma {:induction false} CleaningKeepsNearest(hits: seq<Member>, kept: set<Member>, count: nat, m: Member)
    requires m in Nearest(hits, count) && m in kept
    ensures m in Nearest(Kept(hits, kept), count)
  {
    var rest := Kept(hits[1..], kept);
    if hits[0] == m {
      assert Kept(hits, kept)[0] == m;
    } else if hits[0] !in kept {
      assert Kept(hits, kept) == rest;
      assert m in Nearest(hits[1..], count);
      CleaningKeepsNearest(hits[1..], kept, count, m);
    } else {
      assert Kept(hits, kept)[1..] == rest;
      assert m in Nearest(hits[1..], count - 1);
      CleaningKeepsNearest(hits[1..], kept, count - 1, m);
      assert m in Nearest(rest, count - 1);
      var i :| 0 <= i < |Nearest(rest, count - 1)| && Nearest(rest, count - 1)[i] == m;
      assert Nearest(Kept(hits, kept), count)[i + 1] == m;
    }
  }

  /**
   A search that looks only at the nearest members misses, after any cleaning,
   none of the fresh ones that it would have found without: what stands
   between it and the customer can only have become less.
   */
  lemma {:induction false} CleanedSearchFindsAsMuch(freshness: nat, clock: real, events: seq<Event>, hits: seq<Member>,
                                                    count: nat, m: Member, now: real)
    requires 0 < freshness && 0.0 <= clock && AllInTime(freshness, System(EMPTY, clock, Idle), events)
    requires History(freshness, System(EMPTY, clock, Idle), events).clock < now
    requires
      var whole := History(freshness, System(EMPTY, clock, Idle), Reports(events)).store;
      m in Nearest(hits, count) && Visible(freshness, whole, m, now)
    ensures
      var cleaned := History(freshness, System(EMPTY, clock, Idle), events).store;
      m in Nearest(Kept(hits, cleaned.geoindex2.Keys), count) && Visible(freshness, cleaned, m, now)
  {
    CleaningIsTransparent(freshness, clock, events, m, now);
    var cleaned := History(freshness, System(EMPTY, clock, Idle), events).store;
    CleaningKeepsNearest(hits, cleaned.geoindex2.Keys, count, m);
  }

  // ------------------------------------------------- the commands as they run

  class Redis {
    var hash: map<Member, Fix>
    var geoindex: map<Taxi, Position>
    var geoindex2: map<Member, Position>
    var timestamps: map<Member, int>
    var timestampsId: map<Taxi, int>

    ghost function Stored(): Store
      reads this
    {
      Store(hash, geoindex, geoindex2, timestamps, timestampsId)
    }

    constructor ()
      ensures Stored() == EMPTY
    {
      hash, geoindex, geoindex2, timestamps, timestampsId := map[], map[], map[], map[], map[];
    }

    /** The five writes of one report. */
    method UpdatePosition(taxi: Taxi, position: Position, operator: Operator, at: real)
      modifies this
      ensures Stored() == Report(old(Stored()), taxi, position, operator, Trunc(at))
    {
      var timestamp := Trunc(at);
      var m := Member(taxi, operator);
      hash := hash[m := Fix(timestamp, position)];
      geoindex := geoindex[taxi := position];
      geoindex2 := geoindex2[m := position];
      timestamps := timestamps[m := timestamp];
      timestampsId := timestampsId[taxi := timestamp];
    }

    /**
     A batch names each taxi once in the end, with its last position, and reads
     the clock for each. One taxi that is not the operator's refuses the whole
     batch.
     */
    method Batch(operator: Operator, positions: seq<(Taxi, Position)>, owned: set<Taxi>, clock: nat -> real)
      returns (accepted: bool)
      modifies this
      ensures accepted <==> Keys(positions) <= owned
      ensures Stored() == if accepted then ReportEach(old(Stored()), FromPairs(positions), operator, clock)
                          else old(Stored())
    {
      var requested: seq<(Taxi, Position)> := [];
      for i := 0 to |positions|
        invariant requested == FromPairs(positions[..i])
      {
        assert positions[..i + 1][..i] == positions[..i];
        requested := Put(requested, positions[i].0, positions[i].1);
      }
      assert positions[..|positions|] == positions;
      BatchReportsLastPositions(positions, 0);
      accepted := Keys(requested) <= owned;
      if accepted {
        ReportRequested(requested, operator, clock);
      }
    }

    method ReportRequested(requested: seq<(Taxi, Position)>, operator: Operator, clock: nat -> real)
      modifies this
      ensures Stored() == ReportEach(old(Stored()), requested, operator, clock)
    {
      for i := 0 to |requested|
        invariant Stored() == ReportEach(old(Stored()), requested[..i], operator, clock)
      {
        assert requested[..i + 1][..i] == requested[..i];
        UpdatePosition(requested[i].0, requested[i].1, operator, clock(i));
      }
      assert requested[..|requested|] == requested;
    }

    /** The cleaner's four commands, with nothing in between. */
    method CleanGeoindexTimestamps(freshness: nat, now: real)
      modifies this
      ensures Stored() == CleanedStore(old(Stored()), Trunc(now - freshness as real))
    {
      var limit := Trunc(now - freshness as real);
      timestamps := Unexpired(timestamps, limit);
      geoindex2 := Common(geoindex2, timestamps);
      timestampsId := Unexpired(timestampsId, limit);
      geoindex := Common(geoindex, timestampsId);
    }
  }

  /** The reports of a batch, one after the other; the clock tells the time of each. */
  function ReportEach(s: Store, batch: seq<(Taxi, Position)>, operator: Operator, clock: nat -> real): Store {
    if batch == [] then s
    else
      var n := |batch| - 1;
      Report(ReportEach(s, batch[..n], operator, clock), batch[n].0, batch[n].1, operator, Trunc(clock(n)))
  }

  /**
   A batch that is accepted reports each taxi it names once, with the last
   position that it gives for it.
   */
  lemma {:induction false} BatchReportsLastPositions(positions: seq<(Taxi, Position)>, taxi: Taxi)
    ensures
      var batch := FromPairs(positions);
      && Distinct(batch) && Keys(batch) == Keys(positions)
      && (taxi in Keys(positions) ==>
            LastValue(positions, taxi).Some? && (taxi, LastValue(positions, taxi).value) in batch)
  {
    FromPairsIsLast(positions, taxi);
    GetIsMember(FromPairs(positions), taxi);
  }
}
