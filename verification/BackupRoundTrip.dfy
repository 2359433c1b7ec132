/** What a pull guarantees: against any server, with an honest one, and the second time. */
module BackupRoundTrip {
  import opened Wrappers
  import opened BackupArchives
  import opened BackupServer
  import opened BackupPull

  // ------------------------------------------------- against any server

  /** The archive is what the proof says. */
  predicate Verified(sha: Hash, proof: Proof, content: Bytes) {
    proof.bytes == |content| && proof.digest == sha(content)
  }

  ghost predicate Extends(a: map<Stamp, Bytes>, b: map<Stamp, Bytes>) {
    forall n | n in a :: n in b && b[n] == a[n]
  }

  /** The row announced this archive, which is an age file and what the row's proof says. */
  ghost predicate Announces(sha: Hash, row: Row, n: Stamp, content: Bytes) {
    row.Row? && row.name == n && row.transfer && Verified(sha, row.proof, content) && MAGIC <= content
  }

  /** Every archive that came came with a row that announced it. */
  ghost predicate NewAreAnnounced(sha: Hash, before: map<Stamp, Bytes>, after: map<Stamp, Bytes>, rows: seq<Row>) {
    forall n | n in after && n !in before :: exists i | 0 <= i < |rows| :: Announces(sha, rows[i], n, after[n])
  }

  /** What is told about the archives that are here is true. */
  ghost predicate Truthful(sha: Hash, known: Known, archives: map<Stamp, Bytes>) {
    forall n | n in known :: n in archives && known[n] == InfoOf(sha, archives[n])
  }

  lemma {:induction false} RowIsSafe(sha: Hash, known: Known, p: Progress, row: Row)
    ensures
      var p' := AfterRow(sha, known, p, row);
      && Extends(p.local.archives, p'.local.archives)
      && (forall n | n in p'.local.archives && n !in p.local.archives :: Announces(sha, row, n, p'.local.archives[n]))
  {
  }

  lemma {:induction false} RowsExtend(sha: Hash, known: Known, p: Progress, rows: seq<Row>)
    ensures Extends(p.local.archives, AfterRows(sha, known, p, rows).local.archives)
    decreases |rows|
  {
    if rows != [] && p.error.None? {
      RowIsSafe(sha, known, p, rows[0]);
      RowsExtend(sha, known, AfterRow(sha, known, p, rows[0]), rows[1..]);
    }
  }

  lemma {:induction false} RowsAreAnnounced(sha: Hash, known: Known, p: Progress, rows: seq<Row>)
    ensures NewAreAnnounced(sha, p.local.archives, AfterRows(sha, known, p, rows).local.archives, rows)
    decreases |rows|
  {
    if rows != [] && p.error.None? {
      RowIsSafe(sha, known, p, rows[0]);
      var p1 := AfterRow(sha, known, p, rows[0]);
      RowsExtend(sha, known, p1, rows[1..]);
      RowsAreAnnounced(sha, known, p1, rows[1..]);
      var archives := AfterRows(sha, known, p1, rows[1..]).local.archives;
      forall n | n in archives && n !in p.local.archives
        ensures exists i | 0 <= i < |rows| :: Announces(sha, rows[i], n, archives[n])
      {
        if n in p1.local.archives {
          assert Announces(sha, rows[0], n, archives[n]);
        } else {
          var i :| 0 <= i < |rows[1..]| && Announces(sha, rows[1..][i], n, archives[n]);
          assert Announces(sha, rows[i + 1], n, archives[n]);
        }
      }
    }
  }

  /** The inventory that the server answers to what is here, when it passes the checks. */
  ghost function Inventory(sha: Hash, local: Local, server: Known -> Reply): (rows: seq<Row>)
    ensures AllAccepted(rows) && DistinctNames(rows)
  {
    var header := server(KnownOf(sha, local.archives)).header;
    if HeaderAccepted(header) then header.rows.value else []
  }

  /** The bytes that follow it. */
  ghost function Payload(sha: Hash, local: Local, server: Known -> Reply): Bytes {
    server(KnownOf(sha, local.archives)).payload
  }

  /**
   Whatever the server sends and however the pull ends, every archive that was
   here is still here with the same bytes, and every other one that is here now
   is an age file with the size and the digest that the inventory announced.
   */
  lemma {:induction false} PullIsSafe(sha: Hash, local: Local, server: Known -> Reply)
    ensures
      var after := Pulled(sha, local, server).local;
      && Extends(local.archives, after.archives)
      && NewAreAnnounced(sha, local.archives, after.archives, Inventory(sha, local, server))
  {
    var known, begin := KnownOf(sha, local.archives), Begin(local, Payload(sha, local, server));
    RowsExtend(sha, known, begin, Inventory(sha, local, server));
    RowsAreAnnounced(sha, known, begin, Inventory(sha, local, server));
  }

  // ------------------------------------------------- after success

  ghost function Names(rows: seq<Row>): set<Stamp> {
    if rows == [] then {} else NamesOf(rows[0]) + Names(rows[1..])
  }

  ghost function NamesOf(row: Row): set<Stamp> {
    if row.Row? && row.transfer then {row.name} else {}
  }

  /** The archives that the inventory announced, one after the other. */
  ghost function Together(archives: map<Stamp, Bytes>, rows: seq<Row>): Bytes {
    if rows == [] then [] else Taken(archives, rows[0]) + Together(archives, rows[1..])
  }

  ghost function Taken(archives: map<Stamp, Bytes>, row: Row): Bytes {
    if row.Row? && row.transfer && row.name in archives then archives[row.name] else []
  }

  /** The row's archive is here, with its proof beside it. */
  ghost predicate Held(sha: Hash, local: Local, row: Row) {
    && row.Row? && row.name in local.archives && Verified(sha, row.proof, local.archives[row.name])
    && row.name in local.proofs && local.proofs[row.name] == row.proof
  }

  /** An error ends the pull. */
  lemma {:induction false} SuccessSoFar(sha: Hash, known: Known, p: Progress, rows: seq<Row>)
    requires AfterRows(sha, known, p, rows).error.None?
    ensures p.error.None?
    ensures rows != [] ==> AfterRow(sha, known, p, rows[0]).error.None?
  {
  }

  /** A successful pull adds exactly the announced archives, none of which was here. */
  lemma {:induction false} RowsGrow(sha: Hash, known: Known, p: Progress, rows: seq<Row>)
    requires AfterRows(sha, known, p, rows).error.None?
    ensures AfterRows(sha, known, p, rows).local.archives.Keys == p.local.archives.Keys + Names(rows)
    ensures p.local.archives.Keys !! Names(rows)
    decreases |rows|
  {
    SuccessSoFar(sha, known, p, rows);
    if rows != [] {
      RowsGrow(sha, known, AfterRow(sha, known, p, rows[0]), rows[1..]);
    }
  }

  lemma {:induction false} RowConserves(sha: Hash, known: Known, p: Progress, row: Row)
    requires p.error.None? && AfterRow(sha, known, p, row).error.None?
    ensures
      var p' := AfterRow(sha, known, p, row);
      && p.rest == Taken(p'.local.archives, row) + p'.rest
      && p'.bytes - p.bytes == |p.rest| - |p'.rest| == Weight(row)
      && p'.copied - p.copied == (if row.transfer then 1 else 0)
      && (row.transfer ==> row.name in p'.local.archives)
  {
  }

  /** What was taken from the stream is counted. */
  lemma {:induction false} RowsCount(sha: Hash, known: Known, p: Progress, rows: seq<Row>)
    requires AfterRows(sha, known, p, rows).error.None?
    ensures
      var p' := AfterRows(sha, known, p, rows);
      && p'.bytes - p.bytes == |p.rest| - |p'.rest| == Announced(rows)
      && p'.copied - p.copied == |Names(rows)|
    decreases |rows|
  {
    SuccessSoFar(sha, known, p, rows);
    if rows != [] {
      var p1 := AfterRow(sha, known, p, rows[0]);
      RowConserves(sha, known, p, rows[0]);
      RowsCount(sha, known, p1, rows[1..]);
      RowsGrow(sha, known, p1, rows[1..]);
    }
  }

  /** What was taken from the stream is what was added. */
  lemma {:induction false} RowsConserve(sha: Hash, known: Known, p: Progress, rows: seq<Row>)
    requires AfterRows(sha, known, p, rows).error.None?
    ensures
      var p' := AfterRows(sha, known, p, rows);
      p.rest == Together(p'.local.archives, rows) + p'.rest
    decreases |rows|
  {
    SuccessSoFar(sha, known, p, rows);
    if rows != [] {
      var p1 := AfterRow(sha, known, p, rows[0]);
      RowConserves(sha, known, p, rows[0]);
      RowsConserve(sha, known, p1, rows[1..]);
      RowsExtend(sha, known, p1, rows[1..]);
      var archives := AfterRows(sha, known, p1, rows[1..]).local.archives;
      var one, more := Taken(archives, rows[0]), Together(archives, rows[1..]);
      assert Taken(p1.local.archives, rows[0]) == one;
      assert Together(archives, rows) == one + more;
    }
  }

  lemma {:induction false} RowsKeepProofs(sha: Hash, known: Known, p: Progress, rows: seq<Row>, n: Stamp)
    requires forall i | 0 <= i < |rows| :: rows[i].Row? ==> rows[i].name != n
    requires n in p.local.proofs
    ensures
      var proofs := AfterRows(sha, known, p, rows).local.proofs;
      n in proofs && proofs[n] == p.local.proofs[n]
    decreases |rows|
  {
    if rows != [] && p.error.None? {
      RowsKeepProofs(sha, known, AfterRow(sha, known, p, rows[0]), rows[1..], n);
    }
  }

  /** After a successful pull every archive of the inventory is held, whether it was sent or skipped. */
  lemma {:induction false} RowsAreHeld(sha: Hash, known: Known, p: Progress, rows: seq<Row>, i: nat)
    requires AllAccepted(rows) && DistinctNames(rows) && Truthful(sha, known, p.local.archives)
    requires AfterRows(sha, known, p, rows).error.None? && i < |rows|
    ensures Held(sha, AfterRows(sha, known, p, rows).local, rows[i])
    decreases |rows|
  {
    SuccessSoFar(sha, known, p, rows);
    var p1 := AfterRow(sha, known, p, rows[0]);
    if i == 0 {
      assert Held(sha, p1.local, rows[0]);
      RowsExtend(sha, known, p1, rows[1..]);
      RowsKeepProofs(sha, known, p1, rows[1..], rows[0].name);
    } else {
      RowsAreHeld(sha, known, p1, rows[1..], i - 1);
    }
  }

  /**
   After a successful pull, from whatever server, every archive of the
   inventory is here with the size and the digest of its proof, which is
   beside it.
   */
  lemma {:induction false} SuccessfulPullHoldsAll(sha: Hash, local: Local, server: Known -> Reply, i: nat)
    requires Pulled(sha, local, server).result.Ok? && i < |Inventory(sha, local, server)|
    ensures Held(sha, Pulled(sha, local, server).local, Inventory(sha, local, server)[i])
  {
    var known := KnownOf(sha, local.archives);
    RowsAreHeld(sha, known, Begin(local, Payload(sha, local, server)), Inventory(sha, local, server), i);
  }

  /**
   After a successful pull, what was added is exactly what was announced and
   byte for byte the stream, and the count of bytes is what was announced,
   what was sent and what was added.
   */
  lemma {:induction false} SuccessfulPullConserves(sha: Hash, local: Local, server: Known -> Reply)
    requires Pulled(sha, local, server).result.Ok?
    ensures
      var after, summary := Pulled(sha, local, server).local, Pulled(sha, local, server).result.value;
      var rows, payload := Inventory(sha, local, server), Payload(sha, local, server);
      && after.archives.Keys == local.archives.Keys + Names(rows) && local.archives.Keys !! Names(rows)
      && payload == Together(after.archives, rows)
      && summary.bytes == |payload| == Announced(rows)
      && summary.copied == |Names(rows)| && summary.verified == |rows|
  {
    var known, rows := KnownOf(sha, local.archives), Inventory(sha, local, server);
    var begin := Begin(local, Payload(sha, local, server));
    RowsGrow(sha, known, begin, rows);
    RowsConserve(sha, known, begin, rows);
    RowsCount(sha, known, begin, rows);
    var after := AfterRows(sha, known, begin, rows);
    assert after.rest == [] && Together(after.local.archives, rows) + [] == Together(after.local.archives, rows);
  }

  // ------------------------------------------------- with an honest server

  /** Every archive is what its proof says, and no name occurs twice. */
  ghost predicate Honest(sha: Hash, stored: seq<Stored>) {
    && AllStored(stored)
    && (forall i | 0 <= i < |stored| :: Verified(sha, stored[i].proof, stored[i].content) && MAGIC <= stored[i].content)
    && (forall i, j | 0 <= i < j < |stored| :: stored[i].name != stored[j].name)
  }

  /** No archive of the server is here unless the server was told so, and told the same. */
  ghost predicate NoneInTheWay(known: Known, archives: map<Stamp, Bytes>, stored: seq<Stored>) {
    forall i | 0 <= i < |stored| && stored[i].name in archives :: !Missing(known, stored[i])
  }

  lemma {:induction false} RowsOfRest(known: Known, stored: seq<Stored>)
    requires stored != []
    ensures RowsOf(known, stored)[0] == RowOf(known, stored[0])
    ensures RowsOf(known, stored)[1..] == RowsOf(known, stored[1..])
  {
  }

  /** The row of the first archive, then those of the others. */
  lemma {:induction false} ServedRows(sha: Hash, known: Known, p: Progress, stored: seq<Stored>)
    requires stored != [] && p.error.None?
    ensures AfterRows(sha, known, p, RowsOf(known, stored)) ==
            AfterRows(sha, known, AfterRow(sha, known, p, RowOf(known, stored[0])), RowsOf(known, stored[1..]))
  {
  }

  lemma {:induction false} HonestRest(sha: Hash, stored: seq<Stored>)
    requires Honest(sha, stored) && stored != []
    ensures Honest(sha, stored[1..])
    ensures StoredAccepted(stored[0]) && Verified(sha, stored[0].proof, stored[0].content) && MAGIC <= stored[0].content
    ensures forall i | 0 < i < |stored| :: stored[i].name != stored[0].name
  {
  }

  lemma {:induction false} HonestRow(sha: Hash, known: Known, p: Progress, s: Stored, tail: Bytes)
    requires StoredAccepted(s) && Verified(sha, s.proof, s.content) && MAGIC <= s.content
    requires p.rest == Sent(known, s) + tail && p.error.None?
    ensures
      var p' := AfterRow(sha, known, p, RowOf(known, s));
      && (p'.error.None? <==> Missing(known, s) ==> s.name !in p.local.archives)
      && (p'.error.None? ==> p'.rest == tail)
      && (p'.error.None? ==> p'.local.archives == if Missing(known, s) then p.local.archives[s.name := s.content]
                                                  else p.local.archives)
  {
  }

  lemma {:induction false} NoneInTheWayOfRest(known: Known, a: map<Stamp, Bytes>, stored: seq<Stored>, content: Bytes)
    requires stored != []
    requires forall i | 0 < i < |stored| :: stored[i].name != stored[0].name
    ensures
      var b := if Missing(known, stored[0]) then a[stored[0].name := content] else a;
      var rest := NoneInTheWay(known, b, stored[1..]);
      NoneInTheWay(known, a, stored) <==> rest && (Missing(known, stored[0]) ==> stored[0].name !in a)
  {
  }

  /** With an honest server, all rows succeed exactly when no archive is in the way. */
  lemma {:induction false} HonestRows(sha: Hash, known: Known, p: Progress, stored: seq<Stored>)
    requires Honest(sha, stored) && p.rest == PayloadOf(known, stored) && p.error.None?
    ensures
      var p' := AfterRows(sha, known, p, RowsOf(known, stored));
      && (p'.error.None? <==> NoneInTheWay(known, p.local.archives, stored))
      && (p'.error.None? ==> p'.rest == [])
    decreases |stored|
  {
    if stored != [] {
      var s, others := stored[0], stored[1..];
      HonestRest(sha, stored);
      ServedRows(sha, known, p, stored);
      HonestRow(sha, known, p, s, PayloadOf(known, others));
      NoneInTheWayOfRest(known, p.local.archives, stored, s.content);
      var p1 := AfterRow(sha, known, p, RowOf(known, s));
      if p1.error.None? {
        HonestRows(sha, known, p1, others);
      }
    }
  }

  lemma {:induction false} HonestContents(sha: Hash, known: Known, p: Progress, stored: seq<Stored>, i: nat)
    requires Honest(sha, stored) && p.rest == PayloadOf(known, stored)
    requires AfterRows(sha, known, p, RowsOf(known, stored)).error.None?
    requires i < |stored| && Missing(known, stored[i])
    ensures
      var archives := AfterRows(sha, known, p, RowsOf(known, stored)).local.archives;
      stored[i].name in archives && archives[stored[i].name] == stored[i].content
    decreases |stored|
  {
    var s, others := stored[0], stored[1..];
    HonestRest(sha, stored);
    SuccessSoFar(sha, known, p, RowsOf(known, stored));
    ServedRows(sha, known, p, stored);
    var p1 := AfterRow(sha, known, p, RowOf(known, s));
    HonestRow(sha, known, p, s, PayloadOf(known, others));
    assert p1.error.None? && p1.rest == PayloadOf(known, others);
    if i == 0 {
      RowsExtend(sha, known, p1, RowsOf(known, others));
    } else {
      assert others[i - 1] == stored[i];
      HonestContents(sha, known, p1, others, i - 1);
    }
  }

  ghost predicate Runs(server: Known -> Reply, stored: seq<Stored>, size: seq<Row> -> nat) {
    forall known: Known :: server(known) == Answer(stored, size, known)
  }

  /** What is asked of the server is never more than it takes. */
  lemma {:induction false} RequestIsTaken(sha: Hash, archives: map<Stamp, Bytes>)
    ensures |KnownOf(sha, archives)| <= MAX_ARCHIVES
  {
    NewestAreFew(archives.Keys);
    assert KnownOf(sha, archives).Keys == Newest(archives.Keys);
    assert |KnownOf(sha, archives)| == |KnownOf(sha, archives).Keys|;
  }

  /** The inventory of an honest server within its limits passes the checks of the other side. */
  lemma {:induction false} HonestInventory(sha: Hash, stored: seq<Stored>, size: seq<Row> -> nat, known: Known)
    requires Honest(sha, stored) && Serves(stored, size, known)
    ensures HeaderAccepted(Answer(stored, size, known).header)
  {
    RowsOfEach(known, stored);
  }

  /** No archive of the server is here, but for those among the newest that are the same. */
  ghost predicate NoOldOrOther(sha: Hash, archives: map<Stamp, Bytes>, stored: seq<Stored>) {
    forall i | 0 <= i < |stored| && stored[i].name in archives ::
      stored[i].name in Newest(archives.Keys) && Verified(sha, stored[i].proof, archives[stored[i].name])
  }

  lemma {:induction false} InTheWay(sha: Hash, archives: map<Stamp, Bytes>, stored: seq<Stored>)
    requires Honest(sha, stored)
    ensures NoneInTheWay(KnownOf(sha, archives), archives, stored) <==> NoOldOrOther(sha, archives, stored)
  {
  }

  lemma {:induction false} HonestAnswer(sha: Hash, local: Local, known: Known, stored: seq<Stored>,
                                        size: seq<Row> -> nat)
    requires Honest(sha, stored) && Serves(stored, size, known)
    ensures
      var reply := Answer(stored, size, known);
      && HeaderAccepted(reply.header)
      && (PulledFrom(sha, local, known, reply).result.Ok? <==> NoneInTheWay(known, local.archives, stored))
  {
    HonestInventory(sha, stored, size, known);
    var reply := Answer(stored, size, known);
    assert reply.header.rows.value == RowsOf(known, stored) && reply.payload == PayloadOf(known, stored);
    var begin := Begin(local, reply.payload);
    HonestRows(sha, known, begin, stored);
    var p := AfterRows(sha, known, begin, RowsOf(known, stored));
    assert PulledFrom(sha, local, known, reply).result ==
           if p.error.Some? then Err(p.error.value) else Ok(Summary(|RowsOf(known, stored)|, p.copied, p.bytes));
  }

  /**
   A pull from an honest server succeeds exactly when the limits are kept and
   none of the server's archives is here except unchanged and among the newest.
   */
  lemma {:induction false} HonestPullSucceeds(sha: Hash, local: Local, server: Known -> Reply, stored: seq<Stored>,
                                              size: seq<Row> -> nat)
    requires Honest(sha, stored) && Runs(server, stored, size)
    ensures Pulled(sha, local, server).result.Ok? <==>
            && NewestAreSmall(local.archives) && Serves(stored, size, KnownOf(sha, local.archives))
            && NoOldOrOther(sha, local.archives, stored)
  {
    var known := KnownOf(sha, local.archives);
    if Serves(stored, size, known) {
      HonestAnswer(sha, local, known, stored, size);
      InTheWay(sha, local.archives, stored);
    }
  }

  lemma {:induction false} ServedInventory(sha: Hash, local: Local, server: Known -> Reply, stored: seq<Stored>,
                                           size: seq<Row> -> nat)
    requires Honest(sha, stored) && Runs(server, stored, size) && Pulled(sha, local, server).result.Ok?
    ensures Inventory(sha, local, server) == RowsOf(KnownOf(sha, local.archives), stored)
    ensures Payload(sha, local, server) == PayloadOf(KnownOf(sha, local.archives), stored)
    ensures 1 <= |stored| <= MAX_ARCHIVES && Dated(stored)
  {
  }

  /** Then every archive of the server is here; those that were missing, byte for byte. */
  lemma {:induction false} HonestPullDelivers(sha: Hash, local: Local, server: Known -> Reply, stored: seq<Stored>,
                                              size: seq<Row> -> nat, i: nat)
    requires Honest(sha, stored) && Runs(server, stored, size) && i < |stored|
    requires Pulled(sha, local, server).result.Ok?
    ensures
      var after, s := Pulled(sha, local, server).local.archives, stored[i];
      && s.name in after && Verified(sha, s.proof, after[s.name])
      && after[s.name] == if s.name in local.archives then local.archives[s.name] else s.content
  {
    var known := KnownOf(sha, local.archives);
    ServedInventory(sha, local, server, stored, size);
    HonestPullSucceeds(sha, local, server, stored, size);
    if stored[i].name in local.archives {
      PullIsSafe(sha, local, server);
    } else {
      HonestContents(sha, known, Begin(local, PayloadOf(known, stored)), stored, i);
    }
  }

  // ------------------------------------------------- the second time

  lemma {:induction false} NothingAnnounced(known: Known, stored: seq<Stored>)
    requires forall i | 0 <= i < |stored| :: !Missing(known, stored[i])
    ensures Announced(RowsOf(known, stored)) == 0 && Names(RowsOf(known, stored)) == {}
  {
    if stored != [] {
      RowsOfRest(known, stored);
      NothingAnnounced(known, stored[1..]);
    }
  }

  lemma {:induction false} NewestStaySmall(sha: Hash, local: Local, server: Known -> Reply)
    requires Pulled(sha, local, server).result.Ok?
    ensures NewestAreSmall(Pulled(sha, local, server).local.archives)
  {
    var after := Pulled(sha, local, server).local;
    var rows := Inventory(sha, local, server);
    PullIsSafe(sha, local, server);
    forall n | n in Newest(after.archives.Keys)
      ensures |after.archives[n]| <= MAX_ARCHIVE_BYTES
    {
      if n in local.archives {
        NewestBefore(local.archives.Keys, after.archives.Keys, n);
      } else {
        var i :| 0 <= i < |rows| && Announces(sha, rows[i], n, after.archives[n]);
        assert RowAccepted(rows[i]);
      }
    }
  }

  lemma {:induction false} NothingMoves(sha: Hash, local: Local, server: Known -> Reply)
    requires Pulled(sha, local, server).result.Ok?
    requires Announced(Inventory(sha, local, server)) == 0 && Names(Inventory(sha, local, server)) == {}
    ensures
      var outcome := Pulled(sha, local, server);
      outcome.result.value.copied == 0 && outcome.result.value.bytes == 0 && outcome.local.archives == local.archives
  {
    SuccessfulPullConserves(sha, local, server);
    var after := Pulled(sha, local, server).local;
    assert after.archives.Keys == local.archives.Keys;
    assert Extends(local.archives, after.archives) by {
      PullIsSafe(sha, local, server);
    }
  }

  lemma {:induction false} NothingIsMissing(sha: Hash, local: Local, server: Known -> Reply, stored: seq<Stored>,
                                            size: seq<Row> -> nat)
    requires Honest(sha, stored) && Runs(server, stored, size)
    requires 1 <= |stored| <= MAX_ARCHIVES && Dated(stored) && NewestAreSmall(local.archives)
    requires size(RowsOf(KnownOf(sha, local.archives), stored)) <= MAX_HEADER_BYTES
    requires forall i | 0 <= i < |stored| ::
               stored[i].name in Newest(local.archives.Keys)
               && Verified(sha, stored[i].proof, local.archives[stored[i].name])
    ensures
      var outcome := Pulled(sha, local, server);
      && outcome.result.Ok? && outcome.result.value.copied == 0 && outcome.result.value.bytes == 0
      && outcome.local.archives == local.archives
  {
    var known := KnownOf(sha, local.archives);
    RequestIsTaken(sha, local.archives);
    NothingAnnounced(known, stored);
    HonestPullSucceeds(sha, local, server, stored, size);
    ServedInventory(sha, local, server, stored, size);
    NothingMoves(sha, local, server);
  }

  /**
   After a successful pull from an honest server, a second one succeeds exactly
   when the server's second inventory, which announces nothing any more, is
   within the limit and every archive of the server is among the newest here.
   Then it transfers nothing and changes no archive; otherwise the server
   refuses, or it sends again what is already here and the pull is refused.
   */
  lemma {:induction false} SecondPull(sha: Hash, local: Local, server: Known -> Reply, stored: seq<Stored>,
                                      size: seq<Row> -> nat)
    requires Honest(sha, stored) && Runs(server, stored, size) && Pulled(sha, local, server).result.Ok?
    ensures
      var after := Pulled(sha, local, server).local;
      var again := Pulled(sha, after, server);
      && (again.result.Ok? <==>
            && size(RowsOf(KnownOf(sha, after.archives), stored)) <= MAX_HEADER_BYTES
            && forall i | 0 <= i < |stored| :: stored[i].name in Newest(after.archives.Keys))
      && (again.result.Ok? ==> again.result.value.copied == 0 && again.result.value.bytes == 0)
      && (again.result.Ok? ==> again.local.archives == after.archives)
  {
    var after := Pulled(sha, local, server).local;
    NewestStaySmall(sha, local, server);
    forall i | 0 <= i < |stored|
      ensures stored[i].name in after.archives && Verified(sha, stored[i].proof, after.archives[stored[i].name])
    {
      HonestPullDelivers(sha, local, server, stored, size, i);
    }
    if
      && size(RowsOf(KnownOf(sha, after.archives), stored)) <= MAX_HEADER_BYTES
      && forall i | 0 <= i < |stored| :: stored[i].name in Newest(after.archives.Keys)
    {
      ServedInventory(sha, local, server, stored, size);
      NothingIsMissing(sha, after, server, stored, size);
    } else {
      HonestPullSucceeds(sha, after, server, stored, size);
    }
  }

  function NamesIn(stored: seq<Stored>): set<Stamp> {
    set i | 0 <= i < |stored| :: stored[i].name
  }

  lemma {:induction false} NamesAreFew(stored: seq<Stored>)
    ensures |NamesIn(stored)| <= |stored|
  {
    if stored != [] {
      NamesAreFew(stored[1..]);
      assert NamesIn(stored) <= {stored[0].name} + NamesIn(stored[1..]) by {
        forall i | 0 < i < |stored|
          ensures stored[i].name in NamesIn(stored[1..])
        {
          assert stored[1..][i - 1] == stored[i];
        }
      }
      Subset(NamesIn(stored), {stored[0].name} + NamesIn(stored[1..]));
    }
  }

  lemma {:induction false} NamesOfRows(known: Known, stored: seq<Stored>)
    ensures Names(RowsOf(known, stored)) <= NamesIn(stored)
  {
    if stored != [] {
      RowsOfRest(known, stored);
      NamesOfRows(known, stored[1..]);
      assert forall i | 0 <= i < |stored[1..]| :: stored[1..][i] == stored[i + 1];
    }
  }

  /**
   For a machine that holds nothing but archives of the server, the second pull
   succeeds exactly when the second inventory is within the limit; then it
   transfers nothing.
   */
  lemma {:induction false} SecondPullOfMirror(sha: Hash, local: Local, server: Known -> Reply, stored: seq<Stored>,
                                              size: seq<Row> -> nat)
    requires Honest(sha, stored) && Runs(server, stored, size) && Pulled(sha, local, server).result.Ok?
    requires local.archives.Keys <= NamesIn(stored)
    ensures
      var after := Pulled(sha, local, server).local;
      var again := Pulled(sha, after, server);
      && (again.result.Ok? <==> size(RowsOf(KnownOf(sha, after.archives), stored)) <= MAX_HEADER_BYTES)
      && (again.result.Ok? ==> again.result.value.copied == 0 && again.result.value.bytes == 0)
      && (again.result.Ok? ==> again.local.archives == after.archives)
  {
    var after := Pulled(sha, local, server).local;
    FewAfterMirror(sha, local, server, stored, size);
    forall i | 0 <= i < |stored|
      ensures stored[i].name in Newest(after.archives.Keys)
    {
      HonestPullDelivers(sha, local, server, stored, size, i);
      FewAreNewest(after.archives.Keys, stored[i].name);
    }
    SecondPull(sha, local, server, stored, size);
  }

  lemma {:induction false} FewAfterMirror(sha: Hash, local: Local, server: Known -> Reply, stored: seq<Stored>,
                                          size: seq<Row> -> nat)
    requires Honest(sha, stored) && Runs(server, stored, size) && Pulled(sha, local, server).result.Ok?
    requires local.archives.Keys <= NamesIn(stored)
    ensures |Pulled(sha, local, server).local.archives.Keys| <= MAX_ARCHIVES
  {
    ServedInventory(sha, local, server, stored, size);
    SuccessfulPullConserves(sha, local, server);
    NamesOfRows(KnownOf(sha, local.archives), stored);
    NamesAreFew(stored);
    Subset(Pulled(sha, local, server).local.archives.Keys, NamesIn(stored));
  }

  // ------------------------------------------------- an old archive is asked for twice

  const OLD: Stamp := 20250101000000

  /** The names of so many newer archives. */
  function Newer(count: nat): set<Stamp> {
    if count == 0 then {} else Newer(count - 1) + {OLD + count}
  }

  lemma {:induction false} NewerAreMany(count: nat)
    ensures |Newer(count)| == count
    ensures forall n | n in Newer(count) :: OLD < n <= OLD + count
  {
    if count > 0 {
      NewerAreMany(count - 1);
      assert OLD + count !in Newer(count - 1);
    }
  }

  const CONTENT: Bytes := MAGIC + seq(1024, _ => 0)

  function OneOld(sha: Hash): seq<Stored> {
    [Stored(OLD, true, Proof(true, OLD, |CONTENT|, sha(CONTENT)), CONTENT)]
  }

  lemma {:induction false} OneOldIsHonest(sha: Hash, known: Known, size: seq<Row> -> nat)
    requires IsDigest(sha(CONTENT)) && |known| <= MAX_ARCHIVES && size(RowsOf(known, OneOld(sha))) <= MAX_HEADER_BYTES
    ensures Honest(sha, OneOld(sha)) && Serves(OneOld(sha), size, known)
  {
  }

  lemma {:induction false} OldIsNotNewest(sha: Hash, local: Local, server: Known -> Reply, count: nat)
    requires local.archives.Keys == Newer(count) && MAX_ARCHIVES <= count
    ensures OLD !in Newest(Pulled(sha, local, server).local.archives.Keys)
  {
    var after := Pulled(sha, local, server).local;
    PullIsSafe(sha, local, server);
    NewerAreMany(count);
    Subset(Newer(count), Later(after.archives.Keys, OLD));
  }

  /** With as many newer archives here, the server's old one comes once, and the second pull is refused. */
  lemma {:induction false} OldArchiveIsRefusedTheSecondTime(sha: Hash, server: Known -> Reply, size: seq<Row> -> nat,
                                                            count: nat)
    requires IsDigest(sha(CONTENT)) && Runs(server, OneOld(sha), size) && count == MAX_ARCHIVES
    requires forall known: Known :: size(RowsOf(known, OneOld(sha))) <= MAX_HEADER_BYTES
    ensures
      var local := Local(map n | n in Newer(count) :: [], map[]);
      var first := Pulled(sha, local, server);
      first.result.Ok? && OLD in first.local.archives && Pulled(sha, first.local, server).result.Err?
  {
    var local, stored := Local(map n | n in Newer(count) :: [], map[]), OneOld(sha);
    NewerAreMany(count);
    assert local.archives.Keys == Newer(count);
    RequestIsTaken(sha, local.archives);
    OneOldIsHonest(sha, KnownOf(sha, local.archives), size);
    HonestPullSucceeds(sha, local, server, stored, size);
    HonestPullDelivers(sha, local, server, stored, size, 0);
    SecondPull(sha, local, server, stored, size);
    OldIsNotNewest(sha, local, server, count);
    assert stored[0].name == OLD;
  }

  // ------------------------------------------------- an inventory that grows

  /** The rows that say that their archive does not follow. */
  function Unannounced(rows: seq<Row>): nat {
    if rows == [] then 0 else (if rows[0].Row? && !rows[0].transfer then 1 else 0) + Unannounced(rows[1..])
  }

  lemma {:induction false} HeldIsUnannounced(known: Known, stored: seq<Stored>)
    requires stored != [] && !Missing(known, stored[0])
    ensures Unannounced(RowsOf(known, stored)) > 0
  {
  }

  /** After a pull into an empty machine the server has nothing left to announce. */
  lemma {:induction false} FilledHoldsEach(sha: Hash, server: Known -> Reply, stored: seq<Stored>,
                                           size: seq<Row> -> nat, i: nat)
    requires Honest(sha, stored) && Runs(server, stored, size) && i < |stored|
    requires Pulled(sha, Local(map[], map[]), server).result.Ok?
    ensures
      var after := Pulled(sha, Local(map[], map[]), server).local.archives;
      stored[i].name in after && !Missing(KnownOf(sha, after), stored[i])
  {
    var local := Local(map[], map[]);
    FewAfterMirror(sha, local, server, stored, size);
    HonestPullDelivers(sha, local, server, stored, size, i);
    FewAreNewest(Pulled(sha, local, server).local.archives.Keys, stored[i].name);
  }

  lemma {:induction false} FilledHoldsNoOther(sha: Hash, server: Known -> Reply, stored: seq<Stored>,
                                              size: seq<Row> -> nat)
    requires Honest(sha, stored) && Runs(server, stored, size)
    requires Pulled(sha, Local(map[], map[]), server).result.Ok?
    ensures Pulled(sha, Local(map[], map[]), server).local.archives.Keys <= NamesIn(stored)
  {
    var local := Local(map[], map[]);
    ServedInventory(sha, local, server, stored, size);
    SuccessfulPullConserves(sha, local, server);
    NamesOfRows(KnownOf(sha, local.archives), stored);
  }

  /**
   A server whose inventory fills the limit when it announces everything, each
   row that does not being a letter longer, fills an empty machine; the second
   inventory is too long, and the second pull is refused.
   */
  lemma {:induction false} FullInventoryIsRefusedTheSecondTime(sha: Hash, server: Known -> Reply, stored: seq<Stored>,
                                                               size: seq<Row> -> nat)
    requires Honest(sha, stored) && Runs(server, stored, size) && Serves(stored, size, map[])
    requires forall known: Known ::
               size(RowsOf(known, stored)) == MAX_HEADER_BYTES + Unannounced(RowsOf(known, stored))
    ensures
      var first := Pulled(sha, Local(map[], map[]), server);
      && first.result.Ok? && first.local.archives.Keys == NamesIn(stored)
      && Pulled(sha, first.local, server).result.Err?
  {
    var local := Local(map[], map[]);
    assert KnownOf(sha, local.archives) == map[];
    HonestPullSucceeds(sha, local, server, stored, size);
    var after := Pulled(sha, local, server).local;
    forall i | 0 <= i < |stored|
      ensures stored[i].name in after.archives && !Missing(KnownOf(sha, after.archives), stored[i])
    {
      FilledHoldsEach(sha, server, stored, size, i);
    }
    FilledHoldsNoOther(sha, server, stored, size);
    HeldIsUnannounced(KnownOf(sha, after.archives), stored);
    SecondPullOfMirror(sha, local, server, stored, size);
  }
}
