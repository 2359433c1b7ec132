/**
 What the backup server and the operator's machine say to each other: the names
 and proofs of archives, the inventory, and the checks that both sides make.
 */
module BackupArchives {
  import opened Wrappers

  newtype Byte = x: int | 0 <= x < 256

  type Bytes = seq<Byte>

  /** The fourteen digits in the name of an archive, which order archives by age. */
  type Stamp = nat

  const MAX_ARCHIVES := 64
  const MIN_ARCHIVE_BYTES := 1024
  const MAX_ARCHIVE_BYTES := 512 * 1024 * 1024
  const MAX_TOTAL_BYTES := 2 * 1024 * 1024 * 1024
  const MAX_HEADER_BYTES := 1024 * 1024
  const BLOCK := 65536

  /** The first line of a file that age encrypted. */
  const MAGIC: Bytes :=
    [97, 103, 101, 45, 101, 110, 99, 114, 121, 112, 116, 105, 111, 110, 46, 111, 114, 103, 47, 118, 49, 10]

  function DaysIn(year: nat, month: nat): nat {
    if month == 2 then (if year % 4 == 0 && (year % 100 != 0 || year % 400 == 0) then 29 else 28)
    else if month in {4, 6, 9, 11} then 30
    else 31
  }

  /** The digits are a year, a month, a day and a time of day. */
  predicate IsDate(stamp: Stamp) {
    var year, month, day := stamp / 10000000000, stamp / 100000000 % 100, stamp / 1000000 % 100;
    && 1 <= year <= 9999 && 1 <= month <= 12 && 1 <= day <= DaysIn(year, month)
    && stamp / 10000 % 100 < 24 && stamp / 100 % 100 < 60 && stamp % 100 < 60
  }

  predicate IsDigest(digest: string) {
    |digest| == 64 && forall c | c in digest :: '0' <= c <= '9' || 'a' <= c <= 'f'
  }

  /** The proof that goes with an archive. */
  datatype Proof = Proof(complete: bool, createdAt: Stamp, bytes: int, digest: string)

  /** A row of the inventory; one with a field that is missing or of another kind is malformed. */
  datatype Row = Malformed | Row(name: Stamp, proof: Proof, transfer: bool)

  /** The first line of the stream: its size, whether it ended, and the inventory that it holds, if any. */
  datatype Header = Header(size: nat, ended: bool, rows: Option<seq<Row>>)

  /** All that the server sends, and how its program ends. */
  datatype Reply = Reply(header: Header, payload: Bytes, exit: int)

  /** What a machine tells about an archive that it holds. */
  datatype Info = Info(digest: string, bytes: int)

  type Known = map<Stamp, Info>

  // ------------------------------------------------- the inventory

  predicate ProofAccepted(name: Stamp, proof: Proof) {
    && proof.complete && proof.createdAt == name
    && MIN_ARCHIVE_BYTES <= proof.bytes <= MAX_ARCHIVE_BYTES && IsDigest(proof.digest)
  }

  predicate RowAccepted(row: Row) {
    row.Row? && ProofAccepted(row.name, row.proof)
  }

  /** What a row adds to the stream. */
  function Weight(row: Row): nat {
    if row.Row? && row.transfer && 0 < row.proof.bytes then row.proof.bytes else 0
  }

  ghost predicate AllAccepted(rows: seq<Row>) {
    forall i | 0 <= i < |rows| :: RowAccepted(rows[i])
  }

  /** Every name is that of a day and a time that exist. */
  ghost predicate AllDated(rows: seq<Row>) {
    forall i | 0 <= i < |rows| :: rows[i].Row? ==> IsDate(rows[i].name)
  }

  ghost predicate DistinctNames(rows: seq<Row>) {
    forall i, j | 0 <= i < j < |rows| :: rows[i].Row? && rows[j].Row? ==> rows[i].name != rows[j].name
  }

  /** The bytes that an inventory announces. */
  ghost function Announced(rows: seq<Row>): nat {
    if rows == [] then 0 else Weight(rows[0]) + Announced(rows[1..])
  }

  ghost predicate InventoryAccepted(rows: seq<Row>) {
    && 1 <= |rows| <= MAX_ARCHIVES && AllAccepted(rows) && AllDated(rows) && DistinctNames(rows)
    && Announced(rows) <= MAX_TOTAL_BYTES
  }

  ghost predicate HeaderAccepted(header: Header) {
    header.size <= MAX_HEADER_BYTES && header.ended && header.rows.Some? && InventoryAccepted(header.rows.value)
  }

  lemma {:induction false} AnnouncedOfNext(rows: seq<Row>, i: nat)
    requires i < |rows|
    ensures Announced(rows[..i + 1]) == Announced(rows[..i]) + Weight(rows[i])
  {
    if i > 0 {
      assert rows[..i + 1][1..] == rows[1..][..i] && rows[..i][1..] == rows[1..][..i - 1];
      AnnouncedOfNext(rows[1..], i - 1);
    }
  }

  ghost predicate Named(rows: seq<Row>, i: nat, n: Stamp)
    requires i <= |rows|
  {
    exists k | 0 <= k < i :: rows[k].Row? && rows[k].name == n
  }

  /** The first rows have passed: these are their names, and this is what they announce. */
  ghost predicate Passed(rows: seq<Row>, i: nat, names: set<Stamp>, total: int)
    requires i <= |rows|
  {
    && (forall k | 0 <= k < i :: RowAccepted(rows[k]) && IsDate(rows[k].name) && rows[k].name in names)
    && (forall n | n in names :: Named(rows, i, n))
    && (forall j, k | 0 <= j < k < i :: rows[j].name != rows[k].name)
    && total == Announced(rows[..i])
  }

  lemma {:induction false} PassedNext(rows: seq<Row>, i: nat, names: set<Stamp>, total: int)
    requires i < |rows| && Passed(rows, i, names, total)
    requires RowAccepted(rows[i]) && IsDate(rows[i].name) && rows[i].name !in names
    ensures Passed(rows, i + 1, names + {rows[i].name}, total + Weight(rows[i]))
  {
    AnnouncedOfNext(rows, i);
    forall n | n in names + {rows[i].name}
      ensures Named(rows, i + 1, n)
    {
      assert n in names ==> Named(rows, i, n);
    }
  }

  /** The checks on an inventory, row by row. */
  method ValidateHeader(header: Header) returns (valid: bool)
    ensures valid <==> HeaderAccepted(header)
  {
    if header.size > MAX_HEADER_BYTES || !header.ended || header.rows.None? {
      return false;
    }
    var rows := header.rows.value;
    if !(1 <= |rows| <= MAX_ARCHIVES) {
      return false;
    }
    var names: set<Stamp> := {};
    var total := 0;
    for i := 0 to |rows|
      invariant Passed(rows, i, names, total)
    {
      var row := rows[i];
      if row.Malformed? {
        return false;
      }
      if row.name in names || !IsDate(row.name) {
        assert row.name in names ==> Named(rows, i, row.name);
        return false;
      }
      if !ProofAccepted(row.name, row.proof) {
        return false;
      }
      PassedNext(rows, i, names, total);
      names := names + {row.name};
      if row.transfer {
        total := total + row.proof.bytes;
      }
    }
    assert rows[..|rows|] == rows;
    return total <= MAX_TOTAL_BYTES;
  }

  // ------------------------------------------------- the newest archives

  function Later(names: set<Stamp>, n: Stamp): set<Stamp> {
    set m | m in names && n < m
  }

  /** The newest archives, up to as many as the server wants to hear of. */
  function Newest(names: set<Stamp>): set<Stamp> {
    set n | n in names && |Later(names, n)| < MAX_ARCHIVES
  }

  lemma {:induction false} Subset<T>(a: set<T>, b: set<T>)
    requires a <= b
    ensures |a| <= |b|
    decreases a
  {
    if a != {} {
      var x :| x in a;
      Subset(a - {x}, b - {x});
    }
  }

  lemma {:induction false} Least(s: set<Stamp>) returns (m: Stamp)
    requires s != {}
    ensures m in s && forall x | x in s :: m <= x
    decreases s
  {
    var first :| first in s;
    m := first;
    if s != {first} {
      var rest := Least(s - {first});
      assert forall x | x in s :: x == first || x in s - {first};
      m := if rest < first then rest else first;
    }
  }

  /** The request never has more entries than the server takes. */
  lemma {:induction false} NewestAreFew(names: set<Stamp>)
    ensures |Newest(names)| <= MAX_ARCHIVES
  {
    var newest := Newest(names);
    if newest != {} {
      var m := Least(newest);
      Subset(newest - {m}, Later(names, m));
    }
  }

  /** An archive among the newest was among the newest before others came. */
  lemma {:induction false} NewestBefore(names: set<Stamp>, more: set<Stamp>, n: Stamp)
    requires names <= more && n in names && n in Newest(more)
    ensures n in Newest(names)
  {
    Subset(Later(names, n), Later(more, n));
  }

  /** As long as there are no more archives than the limit, all are among the newest. */
  lemma {:induction false} FewAreNewest(names: set<Stamp>, n: Stamp)
    requires |names| <= MAX_ARCHIVES && n in names
    ensures n in Newest(names)
  {
    Subset(Later(names, n), names - {n});
  }
}
