/**
 The program that pulls encrypted backups to the operator's machine: it says
 which archives it holds, reads the server's inventory and then the archives
 from one stream, and publishes each archive only once it is verified.
 */
module BackupPull {
  import opened Wrappers
  import opened BackupArchives

  /** The hash of a file, of which only this is known: it is a function of the bytes. */
  type Hash = Bytes -> string

  /** The archives on the operator's machine, and the proofs beside them. */
  datatype Local = Local(archives: map<Stamp, Bytes>, proofs: map<Stamp, Proof>)

  datatype PullError =
    | LocalTooLarge | BadInventory | AlreadyThere | Interrupted | NotAge | ChecksumDiffers | Unverified
    | UnfinishedStream

  datatype Summary = Summary(verified: nat, copied: nat, bytes: nat)

  // ------------------------------------------------- what a pull does, whatever the pieces of the stream

  function InfoOf(sha: Hash, content: Bytes): Info {
    Info(sha(content), |content|)
  }

  function KnownOf(sha: Hash, archives: map<Stamp, Bytes>): Known {
    map n | n in Newest(archives.Keys) :: InfoOf(sha, archives[n])
  }

  /** The error that an archive from the stream makes, if any. */
  function ReceiveError(sha: Hash, archives: map<Stamp, Bytes>, rest: Bytes, name: Stamp, size: nat, digest: string)
    : Option<PullError>
  {
    if name in archives then Some(AlreadyThere)
    else if |rest| < size then Some(Interrupted)
    else if !(MAGIC <= rest[..size]) then Some(NotAge)
    else if sha(rest[..size]) != digest then Some(ChecksumDiffers)
    else None
  }

  /** What remains of the stream after an archive. */
  function RestAfter(archives: map<Stamp, Bytes>, rest: Bytes, name: Stamp, size: nat): Bytes {
    if name in archives then rest else if |rest| < size then [] else rest[size..]
  }

  /** How far a pull has come: what is here, what remains of the stream, the counts, and the error that ended it. */
  datatype Progress = Progress(local: Local, rest: Bytes, copied: nat, bytes: nat, error: Option<PullError>)

  function Begin(local: Local, payload: Bytes): Progress {
    Progress(local, payload, 0, 0, None)
  }

  function AfterTransfer(sha: Hash, p: Progress, name: Stamp, proof: Proof, size: nat): Progress {
    var error := ReceiveError(sha, p.local.archives, p.rest, name, size, proof.digest);
    var rest := RestAfter(p.local.archives, p.rest, name, size);
    if error.Some? then p.(rest := rest, error := error)
    else
      var local := Local(p.local.archives[name := p.rest[..size]], p.local.proofs[name := proof]);
      Progress(local, rest, p.copied + 1, p.bytes + size, None)
  }

  /** One row of the inventory, which has been checked. */
  function AfterRow(sha: Hash, known: Known, p: Progress, row: Row): Progress {
    if row.Malformed? then p.(error := Some(BadInventory))
    else if row.transfer then AfterTransfer(sha, p, row.name, row.proof, Weight(row))
    else if row.name !in known || known[row.name] != Info(row.proof.digest, row.proof.bytes) then
      p.(error := Some(Unverified))
    else p.(local := p.local.(proofs := p.local.proofs[row.name := row.proof]))
  }

  /** All rows, up to the first error. */
  function AfterRows(sha: Hash, known: Known, p: Progress, rows: seq<Row>): Progress
    decreases |rows|
  {
    if rows == [] || p.error.Some? then p else AfterRows(sha, known, AfterRow(sha, known, p, rows[0]), rows[1..])
  }

  ghost predicate NewestAreSmall(archives: map<Stamp, Bytes>) {
    forall n | n in Newest(archives.Keys) :: |archives[n]| <= MAX_ARCHIVE_BYTES
  }

  /** What a pull leaves behind, and what it returns. */
  datatype Outcome = Outcome(local: Local, result: Result<Summary, PullError>)

  /** What a pull does with an inventory that passed the checks, and with the rest of the stream. */
  ghost function PulledFrom(sha: Hash, local: Local, known: Known, reply: Reply): Outcome
    requires HeaderAccepted(reply.header)
  {
    var rows := reply.header.rows.value;
    var p := AfterRows(sha, known, Begin(local, reply.payload), rows);
    Outcome(p.local,
            if p.error.Some? then Err(p.error.value)
            else if p.rest != [] || reply.exit != 0 then Err(UnfinishedStream)
            else Ok(Summary(|rows|, p.copied, p.bytes)))
  }

  /** What a pull does, for whatever the server answers. */
  ghost function Pulled(sha: Hash, local: Local, server: Known -> Reply): Outcome {
    if !NewestAreSmall(local.archives) then Outcome(local, Err(LocalTooLarge))
    else
      var known := KnownOf(sha, local.archives);
      if !HeaderAccepted(server(known).header) then Outcome(local, Err(BadInventory))
      else PulledFrom(sha, local, known, server(known))
  }

  // ------------------------------------------------- the program

  class Stream {
    var rest: Bytes

    constructor (payload: Bytes)
      ensures rest == payload
    {
      rest := payload;
    }

    /** Gives some of the bytes that are left, and none only at the end. */
    method Read(limit: nat) returns (block: Bytes)
      requires 0 < limit
      modifies this
      ensures block + rest == old(rest) && |block| <= limit
      ensures block == [] <==> old(rest) == []
    {
      if rest == [] {
        return [];
      }
      var n: nat :| 0 < n <= limit && n <= |rest|;
      block := rest[..n];
      rest := rest[n..];
    }
  }

  class Destination {
    var archives: map<Stamp, Bytes>
    var proofs: map<Stamp, Proof>

    ghost function Contents(): Local
      reads this
    {
      Local(archives, proofs)
    }

    constructor (local: Local)
      ensures Contents() == local
    {
      archives, proofs := local.archives, local.proofs;
    }

    /** Gives a complete temporary file its name, unless the name is taken. */
    method Link(name: Stamp, content: Bytes) returns (published: bool)
      modifies this`archives
      ensures published <==> name !in old(archives)
      ensures archives == if published then old(archives)[name := content] else old(archives)
    {
      published := name !in archives;
      if published {
        archives := archives[name := content];
      }
    }

    /** Reads an archive block by block into a temporary file, checks it and publishes it. */
    method ReceiveArchive(sha: Hash, stream: Stream, name: Stamp, size: nat, digest: string)
      returns (error: Option<PullError>)
      modifies this`archives, stream
      ensures error == ReceiveError(sha, old(archives), old(stream.rest), name, size, digest)
      ensures stream.rest == RestAfter(old(archives), old(stream.rest), name, size)
      ensures archives == if error.None? then old(archives)[name := old(stream.rest)[..size]] else old(archives)
    {
      if name in archives {
        return Some(AlreadyThere);
      }
      var output: Bytes, hashed: Bytes, prefix: Bytes := [], [], [];
      var remaining := size;
      while remaining > 0
        invariant archives == old(archives)
        invariant 0 <= remaining <= size && |output| == size - remaining
        invariant output + stream.rest == old(stream.rest)
        invariant hashed == output
        invariant prefix == output[..if |output| < 32 then |output| else 32]
      {
        var block := stream.Read(if remaining < BLOCK then remaining else BLOCK);
        if block == [] {
          return Some(Interrupted);
        }
        if |prefix| < 32 {
          prefix := prefix + block[..if |block| < 32 - |prefix| then |block| else 32 - |prefix|];
        }
        output := output + block;
        hashed := hashed + block;
        remaining := remaining - |block|;
      }
      assert output == old(stream.rest)[..size] && stream.rest == old(stream.rest)[size..];
      PrefixSuffices(output, prefix);
      if !(MAGIC <= prefix) {
        return Some(NotAge);
      }
      if sha(hashed) != digest {
        return Some(ChecksumDiffers);
      }
      var published := Link(name, output);
      return if published then None else Some(AlreadyThere);
    }

    /** One row of the inventory. */
    method TakeRow(sha: Hash, known: Known, stream: Stream, row: Row,
                   ghost p: Progress) returns (error: Option<PullError>)
      requires RowAccepted(row) && p.local == Contents() && p.rest == stream.rest && p.error.None?
      modifies this, stream
      ensures
        var p' := AfterRow(sha, known, p, row);
        Contents() == p'.local && stream.rest == p'.rest && error == p'.error
    {
      var name, proof := row.name, row.proof;
      if row.transfer {
        error := ReceiveArchive(sha, stream, name, proof.bytes, proof.digest);
        if error.Some? {
          return;
        }
      } else if name !in known || known[name] != Info(proof.digest, proof.bytes) {
        return Some(Unverified);
      }
      proofs := proofs[name := proof];
      return None;
    }

    /** Hashes the newest archives, to tell the server about them. */
    method HashNewest(sha: Hash) returns (known: Option<Known>)
      ensures known == if NewestAreSmall(archives) then Some(KnownOf(sha, archives)) else None
    {
      var done: Known := map[];
      var left := Newest(archives.Keys);
      while left != {}
        invariant left <= Newest(archives.Keys)
        invariant done == map n | n in Newest(archives.Keys) - left :: InfoOf(sha, archives[n])
        invariant forall n | n in Newest(archives.Keys) - left :: |archives[n]| <= MAX_ARCHIVE_BYTES
      {
        var n :| n in left;
        if |archives[n]| > MAX_ARCHIVE_BYTES {
          return None;
        }
        done := done[n := Info(sha(archives[n]), |archives[n]|)];
        left := left - {n};
      }
      assert Newest(archives.Keys) - left == Newest(archives.Keys);
      assert NewestAreSmall(archives) && done == KnownOf(sha, archives);
      return Some(done);
    }

    /** The rows of the inventory, one after the other. */
    method TakeRows(sha: Hash, known: Known, stream: Stream, rows: seq<Row>)
      returns (error: Option<PullError>, copied: nat, bytes: nat)
      requires AllAccepted(rows)
      modifies this, stream
      ensures
        var p := AfterRows(sha, known, Begin(old(Contents()), old(stream.rest)), rows);
        && error == p.error && Contents() == p.local && stream.rest == p.rest
        && (error.None? ==> copied == p.copied && bytes == p.bytes)
    {
      error, copied, bytes := None, 0, 0;
      ghost var p := Begin(Contents(), stream.rest);
      for i := 0 to |rows|
        invariant p == Progress(Contents(), stream.rest, copied, bytes, None)
        invariant AfterRows(sha, known, p, rows[i..]) ==
                  old(AfterRows(sha, known, Begin(Contents(), stream.rest), rows))
      {
        assert rows[i..][1..] == rows[i + 1..];
        error := TakeRow(sha, known, stream, rows[i], p);
        p := AfterRow(sha, known, p, rows[i]);
        if error.Some? {
          return;
        }
        if rows[i].transfer {
          copied := copied + 1;
          bytes := bytes + rows[i].proof.bytes;
        }
      }
      return None, copied, bytes;
    }

    /** One pull. */
    method Pull(sha: Hash, server: Known -> Reply) returns (result: Result<Summary, PullError>)
      modifies this
      ensures Outcome(Contents(), result) == Pulled(sha, old(Contents()), server)
    {
      var known := HashNewest(sha);
      if known.None? {
        return Err(LocalTooLarge);
      }
      var reply := server(known.value);
      var valid := ValidateHeader(reply.header);
      if !valid {
        return Err(BadInventory);
      }
      var rows := reply.header.rows.value;
      var stream := new Stream(reply.payload);
      var error, copied, bytes := TakeRows(sha, known.value, stream, rows);
      if error.Some? {
        return Err(error.value);
      }
      var extra := stream.Read(1);
      if extra != [] || reply.exit != 0 {
        return Err(UnfinishedStream);
      }
      return Ok(Summary(|rows|, copied, bytes));
    }
  }

  /** The first bytes are enough to recognise an archive. */
  lemma {:induction false} PrefixSuffices(content: Bytes, prefix: Bytes)
    requires prefix == content[..if |content| < 32 then |content| else 32]
    ensures MAGIC <= prefix <==> MAGIC <= content
  {
  }
}
