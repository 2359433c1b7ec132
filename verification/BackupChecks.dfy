/**
 What both sides of a pull accept and what they refuse, written out: the proofs, the
 dates, the limits, and the one reason for each way in which a pull may fail.
 */
module BackupChecks {
  import opened Wrappers
  import opened BackupArchives
  import opened BackupServer
  import opened BackupPull

  // ------------------------------------------------- proofs and dates

  /** Sixty-four hexadecimal digits in small letters. */
  ghost predicate Hexadecimal(digest: string) {
    |digest| == 64 && forall i | 0 <= i < 64 :: digest[i] in "0123456789abcdef"
  }

  /** The proof of a whole database, made when the name says, with a size and a digest that can be. */
  ghost predicate Proven(name: Stamp, proof: Proof) {
    proof.complete && proof.createdAt == name && 1024 <= proof.bytes <= 536870912 && Hexadecimal(proof.digest)
  }

  lemma {:induction false} DigestsAreHexadecimal(digest: string)
    ensures IsDigest(digest) <==> Hexadecimal(digest)
  {
    if IsDigest(digest) {
      forall i | 0 <= i < 64
        ensures digest[i] in "0123456789abcdef"
      {
        assert digest[i] in digest;
        HexadecimalDigit(digest[i]);
      }
    } else if Hexadecimal(digest) {
      forall c | c in digest
        ensures '0' <= c <= '9' || 'a' <= c <= 'f'
      {
        HexadecimalDigit(c);
      }
    }
  }

  lemma {:induction false} HexadecimalDigit(c: char)
    ensures c in "0123456789abcdef" <==> '0' <= c <= '9' || 'a' <= c <= 'f'
  {
    var digits := "0123456789abcdef";
    assert forall i | 0 <= i < 10 :: digits[i] as int == '0' as int + i;
    assert forall i | 10 <= i < 16 :: digits[i] as int == 'a' as int + i - 10;
    if '0' <= c <= '9' {
      assert digits[c as int - '0' as int] == c;
    } else if 'a' <= c <= 'f' {
      assert digits[c as int - 'a' as int + 10] == c;
    }
  }

  lemma {:induction false} AcceptedIsProven(name: Stamp, proof: Proof)
    ensures ProofAccepted(name, proof) <==> Proven(name, proof)
  {
    DigestsAreHexadecimal(proof.digest);
  }

  /** How many days a month has. */
  ghost function MonthLength(year: int, month: int): int {
    if month in {1, 3, 5, 7, 8, 10, 12} then 31
    else if month != 2 then 30
    else if year % 4 != 0 || (year % 100 == 0 && year % 400 != 0) then 28
    else 29
  }

  /** The stamp of a day and a time. */
  ghost function StampOf(year: nat, month: nat, day: nat, hour: nat, minute: nat, second: nat): Stamp {
    100 * (100 * (100 * (100 * (100 * year + month) + day) + hour) + minute) + second
  }

  ghost predicate InCalendar(year: nat, month: nat, day: nat, hour: nat, minute: nat, second: nat) {
    && 1 <= year <= 9999 && 1 <= month <= 12 && 1 <= day <= MonthLength(year, month)
    && hour < 24 && minute < 60 && second < 60
  }

  /** Two digits less, however they are taken off. */
  lemma {:induction false} TwoDigitsLess(x: nat)
    ensures x == 100 * (x / 100) + x % 100
    ensures x / 10000 == x / 100 / 100 && x / 1000000 == x / 10000 / 100 && x / 100000000 == x / 1000000 / 100
    ensures x / 10000000000 == x / 100000000 / 100
  {
  }

  lemma {:induction false} LastTwoDigits(rest: nat, low: nat)
    requires low < 100
    ensures (100 * rest + low) / 100 == rest && (100 * rest + low) % 100 == low
  {
  }

  lemma {:induction false} StampOfDigits(stamp: Stamp)
    ensures stamp == StampOf(stamp / 10000000000, stamp / 100000000 % 100, stamp / 1000000 % 100,
                             stamp / 10000 % 100, stamp / 100 % 100, stamp % 100)
  {
    TwoDigitsLess(stamp);
    TwoDigitsLess(stamp / 100);
    TwoDigitsLess(stamp / 10000);
    TwoDigitsLess(stamp / 1000000);
    TwoDigitsLess(stamp / 100000000);
  }

  lemma {:induction false} DigitsOfStamp(year: nat, month: nat, day: nat, hour: nat, minute: nat, second: nat)
    requires month < 100 && day < 100 && hour < 100 && minute < 100 && second < 100
    ensures
      var stamp := StampOf(year, month, day, hour, minute, second);
      && stamp % 100 == second && stamp / 100 % 100 == minute && stamp / 10000 % 100 == hour
      && stamp / 1000000 % 100 == day && stamp / 100000000 % 100 == month && stamp / 10000000000 == year
  {
    var months := 100 * year + month;
    var days := 100 * months + day;
    var hours := 100 * days + hour;
    var minutes := 100 * hours + minute;
    LastTwoDigits(year, month);
    LastTwoDigits(months, day);
    LastTwoDigits(days, hour);
    LastTwoDigits(hours, minute);
    LastTwoDigits(minutes, second);
    TwoDigitsLess(100 * minutes + second);
  }

  /** The stamp is that of a day and a time that there are. */
  ghost predicate IsStampOfADay(stamp: Stamp) {
    exists year: nat, month: nat, day: nat, hour: nat, minute: nat, second: nat ::
      InCalendar(year, month, day, hour, minute, second) && stamp == StampOf(year, month, day, hour, minute, second)
  }

  lemma {:induction false} MonthsAreThose(year: nat, month: nat)
    requires 1 <= month <= 12
    ensures MonthLength(year, month) == DaysIn(year, month)
  {
  }

  lemma {:induction false} DateHasADay(stamp: Stamp)
    requires IsDate(stamp)
    ensures IsStampOfADay(stamp)
  {
    var year, month, day: nat := stamp / 10000000000, stamp / 100000000 % 100, stamp / 1000000 % 100;
    var hour, minute, second: nat := stamp / 10000 % 100, stamp / 100 % 100, stamp % 100;
    assert InCalendar(year, month, day, hour, minute, second) by {
      MonthsAreThose(year, month);
    }
    assert stamp == StampOf(year, month, day, hour, minute, second) by {
      StampOfDigits(stamp);
    }
  }

  lemma {:induction false} DayHasADate(year: nat, month: nat, day: nat, hour: nat, minute: nat, second: nat)
    requires InCalendar(year, month, day, hour, minute, second)
    ensures IsDate(StampOf(year, month, day, hour, minute, second))
  {
    DigitsOfStamp(year, month, day, hour, minute, second);
    MonthsAreThose(year, month);
  }

  lemma {:induction false} DatesAreInCalendar(stamp: Stamp)
    ensures IsDate(stamp) <==> IsStampOfADay(stamp)
  {
    if IsDate(stamp) {
      DateHasADay(stamp);
    }
    if year: nat, month: nat, day: nat, hour: nat, minute: nat, second: nat :|
      InCalendar(year, month, day, hour, minute, second) && stamp == StampOf(year, month, day, hour, minute, second)
    {
      DayHasADate(year, month, day, hour, minute, second);
    }
  }

  // ------------------------------------------------- the inventory

  /** The bytes of the rows that a pull is to take, from the last row to the first. */
  ghost function ToTake(rows: seq<Row>): int {
    if rows == [] then 0
    else
      var n := |rows| - 1;
      ToTake(rows[..n]) + (if rows[n].Row? && rows[n].transfer then rows[n].proof.bytes else 0)
  }

  ghost predicate AllProven(rows: seq<Row>) {
    forall i | 0 <= i < |rows| :: rows[i].Row? && Proven(rows[i].name, rows[i].proof) && IsDate(rows[i].name)
  }

  /** The inventory that a pull goes by. */
  ghost predicate Sound(header: Header) {
    && header.size <= 1048576 && header.ended && header.rows.Some?
    && var rows := header.rows.value;
    && 1 <= |rows| <= 64 && AllProven(rows)
    && (forall i, j | 0 <= i < j < |rows| :: rows[i].name != rows[j].name)
    && ToTake(rows) <= 2147483648
  }

  lemma {:induction false} AnnouncedIsToTake(rows: seq<Row>)
    requires AllProven(rows)
    ensures Announced(rows) == ToTake(rows)
  {
    if rows != [] {
      var n := |rows| - 1;
      AnnouncedIsToTake(rows[..n]);
      AnnouncedOfNext(rows, n);
      assert rows[..n + 1] == rows;
    }
  }

  lemma {:induction false} AcceptedIsSound(header: Header)
    ensures HeaderAccepted(header) <==> Sound(header)
  {
    if header.rows.Some? {
      var rows := header.rows.value;
      forall i | 0 <= i < |rows| && rows[i].Row?
        ensures RowAccepted(rows[i]) <==> Proven(rows[i].name, rows[i].proof)
      {
        AcceptedIsProven(rows[i].name, rows[i].proof);
      }
      if AllProven(rows) {
        AnnouncedIsToTake(rows);
      }
    }
  }

  lemma {:induction false} CheckedRowsAreNotBad(sha: Hash, known: Known, p: Progress, rows: seq<Row>)
    requires AllAccepted(rows) && p.error != Some(BadInventory)
    ensures AfterRows(sha, known, p, rows).error != Some(BadInventory)
    decreases |rows|
  {
    if rows != [] && p.error.None? {
      CheckedRowsAreNotBad(sha, known, AfterRow(sha, known, p, rows[0]), rows[1..]);
    }
  }

  /**
   A pull refuses the inventory, and leaves everything as it was, if and only if the
   inventory is too long, broken off, not one at all, not of one to sixty-four rows
   with different names, or has a row without the proof of a whole database, or asks
   for more than two gibibytes.
   */
  lemma {:induction false} InventoriesAreRefusedExactly(sha: Hash, local: Local, server: Known -> Reply)
    requires forall n | n in Newest(local.archives.Keys) :: |local.archives[n]| <= 536870912
    ensures
      var outcome := Pulled(sha, local, server);
      && (outcome.result == Err(BadInventory) <==> !Sound(server(KnownOf(sha, local.archives)).header))
      && (outcome.result == Err(BadInventory) ==> outcome.local == local)
  {
    var known := KnownOf(sha, local.archives);
    var header := server(known).header;
    AcceptedIsSound(header);
    if Sound(header) {
      CheckedRowsAreNotBad(sha, known, Begin(local, server(known).payload), header.rows.value);
    }
  }

  /** A pull gives up, before it asks anything, if and only if one of the newest archives here is too large. */
  lemma {:induction false} LargeArchivesStopAPull(sha: Hash, local: Local, server: Known -> Reply)
    ensures
      var outcome := Pulled(sha, local, server);
      (exists n | n in Newest(local.archives.Keys) :: |local.archives[n]| > 536870912) ==>
        outcome == Outcome(local, Err(LocalTooLarge))
  {
  }

  /** After a successful pull every row of the server's inventory has the proof of a whole database. */
  lemma {:induction false} SuccessfulPullIsProven(sha: Hash, local: Local, server: Known -> Reply, i: nat)
    requires Pulled(sha, local, server).result.Ok?
    ensures
      var rows := server(KnownOf(sha, local.archives)).header.rows;
      && rows.Some?
      && (i < |rows.value| ==>
            var row := rows.value[i];
            && row.Row? && row.proof.complete && row.proof.createdAt == row.name
            && 1024 <= row.proof.bytes <= 536870912 && Hexadecimal(row.proof.digest))
  {
    AcceptedIsSound(server(KnownOf(sha, local.archives)).header);
  }

  // ------------------------------------------------- the archives

  /** The first line of an age file. */
  const FIRST_LINE := "age-encryption.org/v1\n"

  ghost predicate IsAgeFile(content: Bytes) {
    |content| >= |FIRST_LINE| && forall i | 0 <= i < |FIRST_LINE| :: content[i] as int == FIRST_LINE[i] as int
  }

  lemma {:induction false} MagicIsFirstLine()
    ensures |MAGIC| == |FIRST_LINE| == 22 && forall i | 0 <= i < 22 :: MAGIC[i] as int == FIRST_LINE[i] as int
  {
    var first, second := "age-encryption", ".org/v1\n";
    assert FIRST_LINE == first + second;
    assert forall i | 0 <= i < 14 :: MAGIC[i] as int == first[i] as int;
    assert forall i | 0 <= i < 8 :: MAGIC[14 + i] as int == second[i] as int;
  }

  lemma {:induction false} MagicIsAge(content: Bytes)
    ensures MAGIC <= content <==> IsAgeFile(content)
  {
    MagicIsFirstLine();
  }

  /** Why a row of the inventory ends a pull: one reason each, in the order in which they are looked at. */
  ghost predicate RowFails(sha: Hash, known: Known, p: Progress, row: Row, e: PullError)
    requires row.Row? && 0 <= row.proof.bytes
  {
    var name, size := row.name, row.proof.bytes;
    var here, long := name in p.local.archives, |p.rest| >= size;
    match e
    case AlreadyThere => row.transfer && here
    case Interrupted => row.transfer && !here && !long
    case NotAge => row.transfer && !here && long && !IsAgeFile(p.rest[..size])
    case ChecksumDiffers =>
      row.transfer && !here && long && IsAgeFile(p.rest[..size]) && sha(p.rest[..size]) != row.proof.digest
    case Unverified =>
      !row.transfer && !(name in known && known[name].digest == row.proof.digest && known[name].bytes == size)
    case _ => false
  }

  /** A row ends a pull for its one reason; else its archive, if it came, and its proof are here. */
  lemma {:induction false} RowsFailExactly(sha: Hash, known: Known, p: Progress, row: Row, e: PullError)
    requires row.Row? && 0 <= row.proof.bytes && p.error == None
    ensures
      var p' := AfterRow(sha, known, p, row);
      && (p'.error == Some(e) <==> RowFails(sha, known, p, row, e))
      && (p'.error.Some? ==> p'.local == p.local && p'.copied == p.copied && p'.bytes == p.bytes)
      && (p'.error.None? ==>
            && p'.local.proofs == p.local.proofs[row.name := row.proof]
            && p'.local.archives == (if row.transfer
                                     then p.local.archives[row.name := p.rest[..row.proof.bytes]]
                                     else p.local.archives)
            && p'.rest == (if row.transfer then p.rest[row.proof.bytes..] else p.rest)
            && p'.copied == p.copied + (if row.transfer then 1 else 0)
            && p'.bytes == p.bytes + (if row.transfer then row.proof.bytes else 0))
  {
    if |p.rest| >= row.proof.bytes {
      MagicIsAge(p.rest[..row.proof.bytes]);
      assert row.proof.bytes == 0 ==> p.rest[..0] == [] && p.rest[0..] == p.rest;
    }
  }

  /** With a sound inventory and no row that fails, a pull fails if and only if more bytes come or the server does. */
  lemma {:induction false} UnfinishedExactly(sha: Hash, local: Local, server: Known -> Reply)
    requires forall n | n in Newest(local.archives.Keys) :: |local.archives[n]| <= 536870912
    requires Sound(server(KnownOf(sha, local.archives)).header)
    ensures
      var known := KnownOf(sha, local.archives);
      var reply := server(known);
      var p := AfterRows(sha, known, Begin(local, reply.payload), reply.header.rows.value);
      p.error.None? ==>
        && (Pulled(sha, local, server).result.Err? <==> p.rest != [] || reply.exit != 0)
        && (Pulled(sha, local, server).result.Err? ==> Pulled(sha, local, server).result == Err(UnfinishedStream))
  {
    AcceptedIsSound(server(KnownOf(sha, local.archives)).header);
  }

  // ------------------------------------------------- the server

  /** The other side does not have this archive with this digest and size. */
  ghost predicate Wanted(known: Known, s: Stored) {
    !(s.name in known && known[s.name].digest == s.proof.digest && known[s.name].bytes == |s.content|)
  }

  /** The bytes that the other side does not have. */
  ghost function WantedBytes(known: Known, stored: seq<Stored>): nat {
    if stored == [] then 0
    else
      var n := |stored| - 1;
      WantedBytes(known, stored[..n]) + (if Wanted(known, stored[n]) then |stored[n].content| else 0)
  }

  /** The archive is private and whole, of a day that there is, and has the proof of a whole database. */
  ghost predicate WellStored(s: Stored) {
    s.intact && IsDate(s.name) && Proven(s.name, s.proof) && s.proof.bytes == |s.content|
  }

  lemma {:induction false} AnnouncedIsWanted(known: Known, stored: seq<Stored>)
    requires forall i | 0 <= i < |stored| :: WellStored(stored[i])
    ensures Announced(RowsOf(known, stored)) == WantedBytes(known, stored)
  {
    if stored != [] {
      var n := |stored| - 1;
      var rows := RowsOf(known, stored);
      AnnouncedIsWanted(known, stored[..n]);
      RowsOfEach(known, stored);
      RowsOfEach(known, stored[..n]);
      AnnouncedOfNext(rows, n);
      assert rows[..n + 1] == rows && rows[..n] == RowsOf(known, stored[..n]);
    }
  }

  lemma {:induction false} StoredIsWell(s: Stored)
    ensures StoredAccepted(s) && IsDate(s.name) <==> WellStored(s)
  {
    AcceptedIsProven(s.name, s.proof);
  }

  /**
   The server answers if and only if it is asked about sixty-four archives at most,
   has one to sixty-four, each well stored, and keeps the limits of what it sends;
   else it says nothing and fails. A proof of an incomplete database stops it.
   */
  lemma {:induction false} ServersRefuseExactly(stored: seq<Stored>, size: seq<Row> -> nat, known: Known)
    ensures
      var reply := Answer(stored, size, known);
      var answers :=
        && |known| <= 64 && 1 <= |stored| <= 64 && (forall i | 0 <= i < |stored| :: WellStored(stored[i]))
        && WantedBytes(known, stored) <= 2147483648 && size(RowsOf(known, stored)) <= 1048576;
      && (reply.exit == 0 <==> answers)
      && (!answers ==> reply == Reply(Header(0, false, None), [], 1))
  {
    forall i | 0 <= i < |stored|
      ensures StoredAccepted(stored[i]) && IsDate(stored[i].name) <==> WellStored(stored[i])
    {
      StoredIsWell(stored[i]);
    }
    if forall i | 0 <= i < |stored| :: WellStored(stored[i]) {
      AnnouncedIsWanted(known, stored);
    }
  }

  /** The rows of an answer: each archive with its proof, marked exactly when the other side does not have it. */
  lemma {:induction false} RowsTellWhatIsWanted(known: Known, stored: seq<Stored>, i: nat)
    requires i < |stored|
    ensures RowsOf(known, stored)[i] == Row(stored[i].name, stored[i].proof, Wanted(known, stored[i]))
  {
    RowsOfEach(known, stored);
  }
}
