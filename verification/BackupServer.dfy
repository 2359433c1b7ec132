/** The program that runs on the backup server: it checks its archives and sends those that are missing. */
module BackupServer {
  import opened Wrappers
  import opened BackupArchives

  /** An archive and its proof, and whether both are the administrator's private files and the proof can be read. */
  datatype Stored = Stored(name: Stamp, intact: bool, proof: Proof, content: Bytes)

  predicate StoredAccepted(s: Stored) {
    && s.intact && ProofAccepted(s.name, s.proof)
    && s.proof.bytes == |s.content|
  }

  /** The other machine does not hold this archive, or not as the proof describes it. */
  predicate Missing(known: Known, s: Stored) {
    s.name !in known || known[s.name] != Info(s.proof.digest, |s.content|)
  }

  function RowOf(known: Known, s: Stored): Row {
    Row(s.name, s.proof, Missing(known, s))
  }

  function Sent(known: Known, s: Stored): Bytes {
    if Missing(known, s) then s.content else []
  }

  ghost predicate AllStored(stored: seq<Stored>) {
    forall i | 0 <= i < |stored| :: StoredAccepted(stored[i])
  }

  ghost predicate Dated(stored: seq<Stored>) {
    forall i | 0 <= i < |stored| :: IsDate(stored[i].name)
  }

  ghost function RowsOf(known: Known, stored: seq<Stored>): (rows: seq<Row>)
    ensures |rows| == |stored|
  {
    if stored == [] then [] else [RowOf(known, stored[0])] + RowsOf(known, stored[1..])
  }

  lemma {:induction false} RowsOfEach(known: Known, stored: seq<Stored>)
    ensures forall i | 0 <= i < |stored| :: RowsOf(known, stored)[i] == RowOf(known, stored[i])
  {
    if stored != [] {
      RowsOfEach(known, stored[1..]);
    }
  }

  /** The archives that are missing, one after the other. */
  ghost function PayloadOf(known: Known, stored: seq<Stored>): Bytes {
    if stored == [] then [] else Sent(known, stored[0]) + PayloadOf(known, stored[1..])
  }

  const REFUSAL := Reply(Header(0, false, None), [], 1)

  ghost predicate Serves(stored: seq<Stored>, size: seq<Row> -> nat, known: Known) {
    && |known| <= MAX_ARCHIVES && AllStored(stored) && Dated(stored) && 1 <= |stored| <= MAX_ARCHIVES
    && Announced(RowsOf(known, stored)) <= MAX_TOTAL_BYTES
    && size(RowsOf(known, stored)) <= MAX_HEADER_BYTES
  }

  /** What the server answers to a request; size is the length of an inventory once encoded. */
  ghost function Answer(stored: seq<Stored>, size: seq<Row> -> nat, known: Known): Reply {
    if Serves(stored, size, known) then
      var rows := RowsOf(known, stored);
      Reply(Header(size(rows), true, Some(rows)), PayloadOf(known, stored), 0)
    else REFUSAL
  }

  lemma {:induction false} PayloadOfNext(known: Known, stored: seq<Stored>, i: nat)
    requires i < |stored|
    ensures PayloadOf(known, stored[..i + 1]) == PayloadOf(known, stored[..i]) + Sent(known, stored[i])
  {
    if i > 0 {
      assert stored[..i + 1][1..] == stored[1..][..i] && stored[..i][1..] == stored[1..][..i - 1];
      PayloadOfNext(known, stored[1..], i - 1);
    }
  }

  /** One read of a file: something of what is left, as long as something is. */
  method ReadBlock(content: Bytes, offset: nat, limit: nat) returns (block: Bytes)
    requires offset <= |content| && 0 < limit
    ensures |block| <= limit && offset + |block| <= |content| && block == content[offset..offset + |block|]
    ensures block == [] <==> offset == |content|
  {
    if offset == |content| {
      return [];
    }
    var n: nat :| 0 < n <= limit && offset + n <= |content|;
    block := content[offset..offset + n];
  }

  method SendArchive(content: Bytes) returns (sent: Bytes)
    ensures sent == content
  {
    sent := [];
    var remaining := |content|;
    while remaining > 0
      invariant 0 <= remaining <= |content|
      invariant sent == content[..|content| - remaining]
    {
      var block := ReadBlock(content, |content| - remaining, if remaining < BLOCK then remaining else BLOCK);
      sent := sent + block;
      remaining := remaining - |block|;
    }
  }

  /** The inventory of the first archives, and the bytes that it announces. */
  ghost predicate Made(known: Known, stored: seq<Stored>, i: nat, rows: seq<Row>, total: nat)
    requires i <= |stored|
  {
    rows == RowsOf(known, stored[..i]) && total == Announced(rows)
  }

  lemma {:induction false} MadeNext(known: Known, stored: seq<Stored>, i: nat, rows: seq<Row>, total: nat)
    requires i < |stored| && Made(known, stored, i, rows, total) && StoredAccepted(stored[i])
    ensures Made(known, stored, i + 1, rows + [RowOf(known, stored[i])], total + |Sent(known, stored[i])|)
  {
    var more := rows + [RowOf(known, stored[i])];
    RowsOfEach(known, stored[..i]);
    RowsOfEach(known, stored[..i + 1]);
    assert more == RowsOf(known, stored[..i + 1]);
    AnnouncedOfNext(more, i);
    assert more[..i + 1] == more && more[..i] == rows;
  }

  /** Checks every archive, makes the inventory and counts the bytes to send. */
  method MakeInventory(stored: seq<Stored>, known: Known) returns (accepted: bool, rows: seq<Row>, total: nat)
    ensures accepted <==> AllStored(stored) && Dated(stored)
    ensures accepted ==> rows == RowsOf(known, stored) && total == Announced(rows)
  {
    rows, total := [], 0;
    for i := 0 to |stored|
      invariant forall k | 0 <= k < i :: StoredAccepted(stored[k])
      invariant forall k | 0 <= k < i :: IsDate(stored[k].name)
      invariant Made(known, stored, i, rows, total)
    {
      var s := stored[i];
      if !IsDate(s.name) || !StoredAccepted(s) {
        return false, [], 0;
      }
      MadeNext(known, stored, i, rows, total);
      rows := rows + [RowOf(known, s)];
      total := total + |Sent(known, s)|;
    }
    assert stored[..|stored|] == stored;
    return true, rows, total;
  }

  /** Sends the archives that the inventory marks. */
  method SendMissing(stored: seq<Stored>, known: Known, rows: seq<Row>) returns (payload: Bytes)
    requires rows == RowsOf(known, stored)
    ensures payload == PayloadOf(known, stored)
  {
    payload := [];
    RowsOfEach(known, stored);
    for i := 0 to |rows|
      invariant payload == PayloadOf(known, stored[..i])
    {
      PayloadOfNext(known, stored, i);
      if rows[i].transfer {
        var sent := SendArchive(stored[i].content);
        payload := payload + sent;
      }
    }
    assert stored[..|stored|] == stored;
  }

  /** The whole program: the inventory, then the missing archives block by block, or a refusal. */
  method Serve(stored: seq<Stored>, size: seq<Row> -> nat, known: Known) returns (reply: Reply)
    ensures reply == Answer(stored, size, known)
  {
    if |known| > MAX_ARCHIVES {
      return REFUSAL;
    }
    var accepted, rows, total := MakeInventory(stored, known);
    if !accepted {
      return REFUSAL;
    }
    if rows == [] || |rows| > MAX_ARCHIVES || total > MAX_TOTAL_BYTES || size(rows) > MAX_HEADER_BYTES {
      return REFUSAL;
    }
    var payload := SendMissing(stored, known, rows);
    return Reply(Header(size(rows), true, Some(rows)), payload, 0);
  }
}
