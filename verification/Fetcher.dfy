/** The download as it runs, over a file that is written in place. */
module Fetcher {
  import opened Snapshots
  import opened FetchModel

  /** The staged file: what is on disk, and the position the next read or write uses. */
  class StagedFile {
    var data: seq<Byte>
    var pos: nat

    ghost predicate Valid()
      reads this
    {
      pos <= |data|
    }

    function Value(): Disk
      requires Valid()
      reads this
    {
      Disk(data, pos)
    }

    /** Opening does not move the position from the start, whatever is there already. */
    constructor (onDisk: seq<Byte>)
      ensures Valid() && Value() == Disk(onDisk, 0)
    {
      data, pos := onDisk, 0;
    }

    method Write(buf: seq<Byte>)
      requires Valid()
      modifies this
      ensures Valid() && Value() == FetchModel.Write(old(Value()), buf)
    {
      var end := pos + |buf|;
      data := data[..pos] + buf + (if end < |data| then data[end..] else []);
      pos := end;
    }

    method Truncate(to: nat)
      requires Valid()
      modifies this
      ensures Valid() && Value() == FetchModel.Truncate(old(Value()), to)
    {
      data := if to <= |data| then data[..to] else data + Zeros(to - |data|);
      pos := to;
    }

    /** Replays bytes already on disk; reading them moves the position past them. */
    method SeedDigest(offset: nat, length: nat) returns (digest: seq<Byte>)
      requires offset + length <= |data|
      modifies this`pos
      ensures digest == data[offset..offset + length] && pos == offset + length
    {
      pos := offset;
      digest := data[pos..pos + length];
      pos := pos + length;
    }
  }

  /** Moves the body onto the disk, a read at a time: written first, hashed next, counted last. */
  method CopyWatched(file: StagedFile, digest: seq<Byte>, limit: nat, body: seq<Chunk>)
    returns (fed: seq<Byte>, written: nat, error: Error)
    requires file.Valid()
    modifies file
    ensures file.Valid()
    ensures Copied(file.Value(), fed, written, error) == Copy(old(file.Value()), digest, limit, body)
  {
    fed, written, error := digest, 0, NoError;
    ghost var disk, taken := file.Value(), [];
    WriteNothing(disk);
    var i, ended := 0, false;
    while !ended
      invariant file.Valid() && i <= |body| && written == |taken| <= limit
      invariant file.Value() == FetchModel.Write(disk, taken) && fed == digest + taken
      invariant AcceptedSoFar(limit, body, taken, i, ended, error)
      decreases |body| - i, !ended
    {
      AcceptNext(limit, body, taken, i);
      if i == |body| || body[i].cancelled || written == limit {
        ended := true;
        error := if i < |body| && body[i].cancelled then Cancelled else if written == limit then NoError else Transient;
      } else {
        var got := Limited(body[i].data, limit - written);
        if got != [] && body[i].writeFails {
          ended, error := true, Transient;
        } else {
          fed, written := WriteThenHash(file, fed, written, got, disk, digest, taken);
          taken := taken + got;
          ended := body[i].end != More;
          error := if body[i].end == ReadFailed then Transient else NoError;
          i := i + 1;
        }
      }
    }
  }

  /** One read's bytes: written, then hashed, then counted. */
  method WriteThenHash(file: StagedFile, fed0: seq<Byte>, written0: nat, got: seq<Byte>,
                       ghost disk: Disk, ghost digest: seq<Byte>, ghost taken: seq<Byte>)
    returns (fed: seq<Byte>, written: nat)
    requires file.Valid() && file.Value() == FetchModel.Write(disk, taken) && fed0 == digest + taken
    modifies file
    ensures file.Valid() && file.Value() == FetchModel.Write(disk, taken + got)
    ensures fed == digest + (taken + got) && written == written0 + |got|
  {
    fed, written := fed0, written0;
    WriteTwice(disk, taken, got);
    if got != [] {
      file.Write(got);
      fed, written := fed + got, written + |got|;
    }
    assert taken + [] == taken;
  }

  /** The bytes already taken and the reads still to come make up what the whole body yields. */
  ghost predicate AcceptedSoFar(limit: nat, body: seq<Chunk>, taken: seq<Byte>, i: nat, ended: bool, error: Error) {
    && i <= |body| && |taken| <= limit
    && if ended then Accept(limit, body).0 == taken && Accept(limit, body).1 == error
       else && Accept(limit, body).0 == taken + Accept(limit - |taken|, body[i..]).0
            && Accept(limit, body).1 == Accept(limit - |taken|, body[i..]).1
  }

  lemma AcceptNext(limit: nat, body: seq<Chunk>, taken: seq<Byte>, i: nat)
    requires AcceptedSoFar(limit, body, taken, i, false, NoError)
    ensures var left := limit - |taken|;
            if i == |body| || body[i].cancelled || left == 0 then
              AcceptedSoFar(limit, body, taken, i, true,
                            if i < |body| && body[i].cancelled then Cancelled else if left == 0 then NoError else Transient)
            else
              var got := Limited(body[i].data, left);
              if got != [] && body[i].writeFails then
                AcceptedSoFar(limit, body, taken, i, true, Transient)
              else
                AcceptedSoFar(limit, body, taken + got, i + 1, body[i].end != More,
                              if body[i].end == ReadFailed then Transient else NoError)
  {
    if i < |body| {
      assert body[i..][1..] == body[i + 1..];
      var got := Limited(body[i].data, limit - |taken|);
      var rest := Accept(limit - |taken| - |got|, body[i + 1..]).0;
      assert (taken + got) + rest == taken + (got + rest);
    }
  }

  method StreamPart(file: StagedFile, digest: seq<Byte>, part: Part, within: nat, reply: Reply)
    returns (fed: seq<Byte>, written: nat, error: Error)
    requires file.Valid() && within <= part.bytes
    modifies file
    ensures file.Valid()
    ensures Copied(file.Value(), fed, written, error) == Stream(old(file.Value()), digest, part, within, reply)
  {
    WriteNothing(file.Value());
    match reply
    case Unreachable =>
      return digest, 0, Transient;
    case Response(status, rangeTotal, body) =>
      var refusal := StatusOKFor(status, within);
      if refusal != NoError {
        return digest, 0, refusal;
      }
      if rangeTotal > 0 && rangeTotal != part.bytes {
        return digest, 0, PublishedFileChanged;
      }
      fed, written, error := CopyWatched(file, digest, part.bytes - within, body);
  }

  /** One pass of the loop: a request, its effect on the file, and what to do next. */
  method RunPass(s: Snapshot, hash: Hash, file: StagedFile, index0: nat, within0: nat, size0: nat,
                 attempts0: nat, digest0: seq<Byte>, ghost asked: nat, turn: Turn)
    returns (stopped: bool, why: Outcome, index: nat, within: nat, size: nat, attempts: nat, digest: seq<Byte>)
    requires file.Valid() && Sensible(s, State(file.Value(), index0, within0, size0, attempts0, digest0, asked))
    requires index0 < |s.parts|
    modifies file
    ensures file.Valid()
    ensures Pass(s, hash, State(old(file.Value()), index0, within0, size0, attempts0, digest0, asked), turn) ==
            if stopped then Done(why, file.Value())
            else Again(State(file.Value(), index, within, size, attempts, digest, asked + 1))
  {
    stopped, why := false, Stopped;
    index, within, size, attempts, digest := index0, within0, size0, attempts0, digest0;
    var part := s.parts[index];
    var n, error;
    digest, n, error := StreamPart(file, digest, part, within, turn.reply);
    within := within + n;
    size := size + n;

    if error != NoError && (turn.cancelled || error == Cancelled) {
      stopped := true;
      return;
    }
    if error == PublishedFileChanged {
      stopped, why := true, Replaced;
      return;
    }
    if error == RangeIgnored {
      attempts := attempts + 1;
      if attempts >= MAX_ATTEMPTS {
        stopped, why := true, GaveUp(error);
        return;
      }
      within, size, digest := ResetPart(s, file, index);
      stopped := turn.cancelledAsleep;
      return;
    }
    if error == Transient {
      attempts := attempts + 1;
      if attempts >= MAX_ATTEMPTS {
        stopped, why := true, GaveUp(error);
        return;
      }
      stopped := turn.cancelledAsleep;
      return;
    }
    if within < part.bytes {
      attempts := attempts + 1;
      if attempts >= MAX_ATTEMPTS {
        stopped, why := true, EndedEarly;
        return;
      }
      stopped := turn.cancelledAsleep;
      return;
    }
    if hash(digest) != part.sha256 {
      attempts := attempts + 1;
      if attempts >= MAX_ATTEMPTS {
        stopped, why := true, Corrupted;
        return;
      }
      within, size, digest := ResetPart(s, file, index);
      return;
    }
    index := index + 1;
    within, attempts, digest := 0, 0, [];
  }

  /** Discards a part that arrived wrong. */
  method ResetPart(s: Snapshot, file: StagedFile, index: nat) returns (within: nat, size: nat, digest: seq<Byte>)
    requires file.Valid()
    modifies file
    ensures file.Valid() && file.Value() == FetchModel.Truncate(old(file.Value()), BytesBefore(s, index))
    ensures within == 0 && size == BytesBefore(s, index) && digest == []
  {
    size := ComputeBytesBefore(s, index);
    file.Truncate(size);
    within, digest := 0, [];
  }

  /** Opens whatever is on disk: a file too long is emptied, and a partial part is read back. */
  method Resume(s: Snapshot, file: StagedFile) returns (index: nat, within: nat, size: nat, digest: seq<Byte>)
    requires file.Valid() && file.pos == 0
    modifies file
    ensures file.Valid()
    ensures var kept := Kept(s, old(file.data));
            && Position(s, index, within)
            && BytesBefore(s, index) + within == |kept|
            && State(file.Value(), index, within, size, 0, digest, 0) == Opened(s, kept, index, within)
  {
    var total := ComputeTotalBytes(s);
    size := |file.data|;
    if size > total {
      file.Truncate(0);
      size := 0;
    }
    var at, ok;
    index, at, ok := PartAt(s, size);
    within := at;
    var before := ComputeBytesBefore(s, index);
    digest := [];
    if within > 0 {
      digest := file.SeedDigest(before, within);
    }
  }

  /**
    A whole run over whatever is on disk. It does exactly what the loop over the server's
    answers says, from the position at which it finds the file.
   */
  method Fetch(s: Snapshot, hash: Hash, server: Server, cancelledAtEnd: bool, file: StagedFile)
    returns (outcome: Outcome, asked: nat, ghost start: State)
    requires file.Valid() && file.pos == 0
    modifies file
    ensures file.Valid()
    ensures Starts(s, old(file.data), start)
    ensures Result(outcome, file.Value(), asked) == Loop(s, hash, server, cancelledAtEnd, start)
  {
    var index, within, size, digest := Resume(s, file);
    asked := 0;
    var attempts := 0;
    start := State(file.Value(), index, within, size, attempts, digest, asked);

    while index < |s.parts|
      invariant file.Valid() && Sensible(s, State(file.Value(), index, within, size, attempts, digest, asked))
      invariant Loop(s, hash, server, cancelledAtEnd, start) ==
                Loop(s, hash, server, cancelledAtEnd, State(file.Value(), index, within, size, attempts, digest, asked))
      decreases |s.parts| - index, MAX_ATTEMPTS - attempts
    {
      var stopped, why;
      stopped, why, index, within, size, attempts, digest :=
        RunPass(s, hash, file, index, within, size, attempts, digest, asked, server(index, within, asked));
      asked := asked + 1;
      if stopped {
        return why, asked, start;
      }
    }
    outcome := VerifyWhole(s, hash, file.data, cancelledAtEnd);
  }
}
