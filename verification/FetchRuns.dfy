/** What the resumable download guarantees, run after run, against any server. */
module FetchRuns {
  import opened Snapshots
  import opened FetchModel

  // ---- the loop's invariant

  /** The next write goes at the end of the file, and the digest has consumed exactly the current part so far. */
  ghost predicate Aligned(s: Snapshot, st: State) {
    && st.disk.pos == |st.disk.data| == st.size
    && BytesBefore(s, st.index) <= st.size
    && st.digest == st.disk.data[BytesBefore(s, st.index)..]
  }

  /** The invariant at the head of the loop; a run that finds the file complete never writes. */
  ghost predicate Ready(s: Snapshot, st: State) {
    && Sensible(s, st)
    && |st.disk.data| == st.size
    && (st.index < |s.parts| ==> Aligned(s, st))
  }

  /** Part j lies in the file and matches its compiled-in checksum. */
  ghost predicate PartVerified(s: Snapshot, hash: Hash, data: seq<Byte>, j: nat) {
    && j < |s.parts|
    && BytesBefore(s, j) <= BytesBefore(s, j + 1) <= |data|
    && hash(data[BytesBefore(s, j)..BytesBefore(s, j + 1)]) == s.parts[j].sha256
  }

  ghost predicate Verified(s: Snapshot, hash: Hash, data: seq<Byte>, from: nat, to: nat) {
    forall j: nat :: from <= j < to ==> PartVerified(s, hash, data, j)
  }

  /** A file length that falls between two parts. */
  ghost predicate InteriorBoundary(s: Snapshot, length: nat) {
    0 < length < TotalBytes(s) && exists i: nat :: i <= |s.parts| && BytesBefore(s, i) == length
  }

  lemma BoundaryMeansNothingWithin(s: Snapshot, index: nat, within: nat)
    requires Position(s, index, within)
    requires 0 < BytesBefore(s, index) + within < TotalBytes(s)
    ensures InteriorBoundary(s, BytesBefore(s, index) + within) <==> within == 0
  {
    var length := BytesBefore(s, index) + within;
    if i: nat :| i <= |s.parts| && BytesBefore(s, i) == length {
      if i <= index {
        BytesBeforeGrows(s, i, index);
      } else {
        BytesBeforeNext(s, index);
        BytesBeforeGrows(s, index + 1, i);
      }
    }
  }

  /** A run starts ready to write at the end of what it keeps exactly when that does not end between two parts. */
  lemma StartsReadyIff(s: Snapshot, found: seq<Byte>, st: State)
    requires Starts(s, found, st)
    ensures Ready(s, st) <==> !InteriorBoundary(s, |Kept(s, found)|)
  {
    var kept := Kept(s, found);
    if st.index < |s.parts| {
      BytesBeforeNext(s, st.index);
      BytesBeforeGrows(s, st.index + 1, |s.parts|);
      if |kept| > 0 {
        BoundaryMeansNothingWithin(s, st.index, st.within);
      }
    }
  }

  // ---- one pass

  lemma AppendAtEnd(d: Disk, buf: seq<Byte>)
    ensures Write(d, buf).data == d.data + buf <==> d.pos == |d.data| || buf == []
  {}

  /** What a stream attempt adds. */
  ghost function Taken(part: Part, within: nat, reply: Reply): seq<Byte>
    requires within <= part.bytes
  {
    match reply
    case Unreachable => []
    case Response(status, rangeTotal, body) =>
      if StatusOKFor(status, within) != NoError || (rangeTotal > 0 && rangeTotal != part.bytes) then []
      else Accept(part.bytes - within, body).0
  }

  lemma StreamTakes(disk: Disk, digest: seq<Byte>, part: Part, within: nat, reply: Reply)
    requires within <= part.bytes
    ensures var got := Stream(disk, digest, part, within, reply);
            var taken := Taken(part, within, reply);
            && got.disk == Write(disk, taken) && got.digest == digest + taken && got.written == |taken|
            && within + |taken| <= part.bytes
  {
    WriteNothing(disk);
    assert digest + [] == digest;
  }

  /** The state right after the request, before it is decided what follows. */
  ghost function Grown(s: Snapshot, st: State, turn: Turn): State
    requires Sensible(s, st) && st.index < |s.parts|
  {
    var taken := Taken(s.parts[st.index], st.within, turn.reply);
    st.(disk := Write(st.disk, taken), digest := st.digest + taken,
        within := st.within + |taken|, size := st.size + |taken|, asked := st.asked + 1)
  }

  lemma GrownStaysAligned(s: Snapshot, st: State, turn: Turn)
    requires Ready(s, st) && st.index < |s.parts|
    ensures var g := Grown(s, st, turn);
            && Aligned(s, g)
            && g.disk.data == st.disk.data + Taken(s.parts[st.index], st.within, turn.reply)
            && g.within <= s.parts[st.index].bytes
            && g.size == BytesBefore(s, st.index) + g.within <= BytesBefore(s, st.index + 1)
  {
    var taken := Taken(s.parts[st.index], st.within, turn.reply);
    StreamTakes(st.disk, st.digest, s.parts[st.index], st.within, turn.reply);
    AppendAtEnd(st.disk, taken);
    BytesBeforeNext(s, st.index);
  }

  /** What becomes of the grown state: kept as it is, cut back to the part's start, or moved on to the next part. */
  lemma PassCases(s: Snapshot, hash: Hash, st: State, turn: Turn)
    requires Sensible(s, st) && st.index < |s.parts|
    ensures var g := Grown(s, st, turn);
            match Pass(s, hash, st, turn)
            case Done(outcome, disk) =>
              outcome != Complete && (disk == g.disk || disk == Truncate(g.disk, BytesBefore(s, st.index)))
            case Again(next) =>
              || next == g.(attempts := st.attempts + 1)
              || next == Restarted(s, g.(attempts := st.attempts + 1))
              || (next == g.(index := st.index + 1, within := 0, attempts := 0, digest := [])
                  && g.within == s.parts[st.index].bytes && hash(g.digest) == s.parts[st.index].sha256)
  {
    StreamTakes(st.disk, st.digest, s.parts[st.index], st.within, turn.reply);
  }

  lemma VerifiedKept(s: Snapshot, hash: Hash, data: seq<Byte>, data': seq<Byte>, from: nat, to: nat, upTo: nat)
    requires Verified(s, hash, data, from, to)
    requires to <= |s.parts| && BytesBefore(s, to) <= upTo <= |data| && data[..upTo] <= data'
    ensures Verified(s, hash, data', from, to)
  {
    forall j: nat | from <= j < to ensures PartVerified(s, hash, data', j) {
      assert PartVerified(s, hash, data, j);
      BytesBeforeGrows(s, j + 1, to);
      assert data'[BytesBefore(s, j)..BytesBefore(s, j + 1)] == data[BytesBefore(s, j)..BytesBefore(s, j + 1)];
    }
  }

  /** A completed part, once in the file and hashed, is verified with the ones before it. */
  lemma GrownVerifies(s: Snapshot, hash: Hash, st: State, turn: Turn, from: nat)
    requires Ready(s, st) && st.index < |s.parts| && from <= st.index
    requires Verified(s, hash, st.disk.data, from, st.index)
    ensures var g := Grown(s, st, turn);
            && Verified(s, hash, g.disk.data, from, st.index)
            && (g.within == s.parts[st.index].bytes && hash(g.digest) == s.parts[st.index].sha256 ==>
                  Verified(s, hash, g.disk.data, from, st.index + 1))
  {
    var g := Grown(s, st, turn);
    GrownStaysAligned(s, st, turn);
    VerifiedKept(s, hash, st.disk.data, g.disk.data, from, st.index, BytesBefore(s, st.index));
    if g.within == s.parts[st.index].bytes && hash(g.digest) == s.parts[st.index].sha256 {
      BytesBeforeNext(s, st.index);
      assert g.disk.data[BytesBefore(s, st.index)..BytesBefore(s, st.index + 1)] == g.digest;
      assert PartVerified(s, hash, g.disk.data, st.index);
    }
  }

  lemma CutBackVerifies(s: Snapshot, hash: Hash, st: State, turn: Turn, from: nat)
    requires Ready(s, st) && st.index < |s.parts| && from <= st.index
    requires Verified(s, hash, st.disk.data, from, st.index)
    ensures var cut := Truncate(Grown(s, st, turn).disk, BytesBefore(s, st.index));
            && cut.data == st.disk.data[..BytesBefore(s, st.index)]
            && |cut.data| == BytesBefore(s, st.index)
            && Verified(s, hash, cut.data, from, st.index)
  {
    var start := BytesBefore(s, st.index);
    GrownStaysAligned(s, st, turn);
    var cut := Truncate(Grown(s, st, turn).disk, start);
    assert cut.data == st.disk.data[..start];
    VerifiedKept(s, hash, st.disk.data, st.disk.data[..start], from, st.index, start);
  }

  /** One pass keeps the invariant, never touches a part already complete, and verifies the part it completes. */
  lemma PassKeepsReady(s: Snapshot, hash: Hash, st: State, turn: Turn, from: nat)
    requires Ready(s, st) && st.index < |s.parts| && from <= st.index
    requires Verified(s, hash, st.disk.data, from, st.index)
    ensures var start := BytesBefore(s, st.index);
            match Pass(s, hash, st, turn)
            case Done(_, disk) =>
              |disk.data| <= TotalBytes(s) && st.disk.data[..start] <= disk.data
            case Again(next) =>
              && Ready(s, next)
              && st.disk.data[..start] <= next.disk.data
              && Verified(s, hash, next.disk.data, from, next.index)
  {
    GrownStaysAligned(s, st, turn);
    GrownVerifies(s, hash, st, turn, from);
    CutBackVerifies(s, hash, st, turn, from);
    PassCases(s, hash, st, turn);
    BytesBeforeGrows(s, st.index + 1, |s.parts|);
    BytesBeforeNext(s, st.index);
  }

  /**
    A server that answers a resumed request with the whole file adds nothing, whatever it
    sends: the file is left as it was or cut back to the part's start, every complete part
    stays, and what goes on asks for the same part from its beginning.
   */
  lemma IgnoredRangeAddsNothing(s: Snapshot, hash: Hash, st: State, turn: Turn)
    requires Ready(s, st) && st.index < |s.parts| && st.within > 0
    requires turn.reply.Response? && turn.reply.status == STATUS_OK
    ensures var start := BytesBefore(s, st.index);
            match Pass(s, hash, st, turn)
            case Done(outcome, disk) =>
              outcome in {Stopped, GaveUp(RangeIgnored)} && (disk == st.disk || disk.data == st.disk.data[..start])
            case Again(next) =>
              && Ready(s, next) && next.index == st.index && next.within == 0
              && next.attempts == st.attempts + 1 && next.disk.data == st.disk.data[..start]
  {
    var part := s.parts[st.index];
    assert Stream(st.disk, st.digest, part, st.within, turn.reply) == Copied(st.disk, st.digest, 0, RangeIgnored);
    BytesBeforeNext(s, st.index);
  }

  // ---- whole runs, any server

  /** Whatever the file holds to begin with, a run that reports success left a file with the compiled-in digest. */
  lemma {:induction false} CompleteMeansTheDigestMatches(s: Snapshot, hash: Hash, server: Server, cancelledAtEnd: bool, st: State)
    requires Sensible(s, st)
    ensures var r := Loop(s, hash, server, cancelledAtEnd, st);
            r.outcome == Complete ==> hash(r.disk.data) == s.sha256
    decreases PartsLeft(s, st), MAX_ATTEMPTS - st.attempts
  {
    if st.index < |s.parts| {
      var turn := server(st.index, st.within, st.asked);
      PassCases(s, hash, st, turn);
      match Pass(s, hash, st, turn)
      case Done(_, _) =>
      case Again(next) => CompleteMeansTheDigestMatches(s, hash, server, cancelledAtEnd, next);
    }
  }

  /**
    From a sound start, however the run ends: the file never outgrows the snapshot, parts
    complete at the start are untouched, and success means every part finished in this run
    matched its checksum and the file is whole.
   */
  lemma {:induction false} RunKeepsItsWord(s: Snapshot, hash: Hash, server: Server, cancelledAtEnd: bool, st: State, from: nat)
    requires Ready(s, st) && from <= st.index && Verified(s, hash, st.disk.data, from, st.index)
    ensures var r := Loop(s, hash, server, cancelledAtEnd, st);
            && |r.disk.data| <= TotalBytes(s)
            && st.disk.data[..BytesBefore(s, st.index)] <= r.disk.data
            && (r.outcome == Complete ==>
                  |r.disk.data| == TotalBytes(s) && Verified(s, hash, r.disk.data, from, |s.parts|))
    decreases PartsLeft(s, st), MAX_ATTEMPTS - st.attempts
  {
    BytesBeforeGrows(s, st.index, |s.parts|);
    if st.index < |s.parts| {
      var turn := server(st.index, st.within, st.asked);
      PassKeepsReady(s, hash, st, turn, from);
      PassCases(s, hash, st, turn);
      match Pass(s, hash, st, turn)
      case Done(_, _) =>
      case Again(next) =>
        RunKeepsItsWord(s, hash, server, cancelledAtEnd, next, from);
        BytesBeforeGrows(s, st.index, next.index);
    }
  }

  // ---- whole runs, a server that sends what it is asked for

  /** Every reply accepted as an answer carries the published bytes from the point asked for, possibly cut short. */
  ghost predicate Faithful(s: Snapshot, server: Server, published: seq<Byte>) {
    && |published| == TotalBytes(s)
    && forall i: nat, w: nat, k: nat :: i < |s.parts| && w <= s.parts[i].bytes ==>
         Delivers(s, published, i, w, server(i, w, k))
  }

  ghost predicate Delivers(s: Snapshot, published: seq<Byte>, i: nat, w: nat, turn: Turn)
    requires i < |s.parts| && w <= s.parts[i].bytes
  {
    BytesBefore(s, i) + w <= |published| && Taken(s.parts[i], w, turn.reply) <= published[BytesBefore(s, i) + w..]
  }

  lemma PassKeepsPrefix(s: Snapshot, hash: Hash, st: State, turn: Turn, published: seq<Byte>)
    requires Ready(s, st) && st.index < |s.parts| && st.disk.data <= published
    requires Delivers(s, published, st.index, st.within, turn)
    ensures match Pass(s, hash, st, turn)
            case Done(_, disk) => disk.data <= published
            case Again(next) => next.disk.data <= published
  {
    var g := Grown(s, st, turn);
    GrownStaysAligned(s, st, turn);
    PassCases(s, hash, st, turn);
    assert g.disk.data <= published;
    assert Truncate(g.disk, BytesBefore(s, st.index)).data == st.disk.data[..BytesBefore(s, st.index)];
  }

  /** Whatever interrupts it, a run against a faithful server leaves a prefix of the published file; success leaves all of it. */
  lemma {:induction false} RunKeepsPrefix(s: Snapshot, hash: Hash, server: Server, cancelledAtEnd: bool, st: State,
                                          published: seq<Byte>)
    requires Ready(s, st) && st.disk.data <= published && Faithful(s, server, published)
    ensures var r := Loop(s, hash, server, cancelledAtEnd, st);
            && r.disk.data <= published
            && (r.outcome == Complete ==> r.disk.data == published)
    decreases PartsLeft(s, st), MAX_ATTEMPTS - st.attempts
  {
    if st.index < |s.parts| {
      var turn := server(st.index, st.within, st.asked);
      assert Delivers(s, published, st.index, st.within, turn);
      PassKeepsPrefix(s, hash, st, turn, published);
      PassKeepsReady(s, hash, st, turn, st.index);
      PassCases(s, hash, st, turn);
      match Pass(s, hash, st, turn)
      case Done(_, _) =>
      case Again(next) => RunKeepsPrefix(s, hash, server, cancelledAtEnd, next, published);
    }
  }

  /** One run of the downloader over the file found on disk, and the file it leaves. */
  datatype Session = Session(server: Server, cancelledAtEnd: bool, start: State)

  ghost predicate Ran(s: Snapshot, hash: Hash, found: seq<Byte>, run: Session, left: seq<Byte>) {
    && Starts(s, found, run.start)
    && Loop(s, hash, run.server, run.cancelledAtEnd, run.start).disk.data == left
  }

  /**
    Crash and resume is lossless. Start from nothing and run again and again, each run cut
    off wherever it may be, each finding the file as the last one left it: as long as no
    run starts between two parts, the file is always a prefix of what was published.
   */
  lemma {:induction false} ResumingIsLossless(s: Snapshot, hash: Hash, published: seq<Byte>, runs: seq<Session>,
                                              files: seq<seq<Byte>>, n: nat)
    requires |files| == |runs| + 1 && files[0] == [] && n <= |runs|
    requires forall i :: 0 <= i < |runs| ==>
               && Ran(s, hash, files[i], runs[i], files[i + 1])
               && Faithful(s, runs[i].server, published)
               && !InteriorBoundary(s, |files[i]|)
    ensures files[n] <= published
  {
    if n > 0 {
      ResumingIsLossless(s, hash, published, runs, files, n - 1);
      OneMoreRun(s, hash, published, files[n - 1], runs[n - 1], files[n]);
    }
  }

  lemma OneMoreRun(s: Snapshot, hash: Hash, published: seq<Byte>, found: seq<Byte>, run: Session, left: seq<Byte>)
    requires found <= published && Ran(s, hash, found, run, left) && Faithful(s, run.server, published)
    requires !InteriorBoundary(s, |found|)
    ensures left <= published
  {
    StartsReadyIff(s, found, run.start);
    RunKeepsPrefix(s, hash, run.server, run.cancelledAtEnd, run.start, published);
  }

  // ---- a server that also finishes

  /** The published file matches the compiled-in checksums. */
  ghost predicate Genuine(s: Snapshot, hash: Hash, published: seq<Byte>) {
    && |published| == TotalBytes(s)
    && hash(published) == s.sha256
    && Verified(s, hash, published, 0, |s.parts|)
  }

  /** Whether there is anything of part i to ask for from w on; the end of a part is no resume point. */
  predicate Askable(s: Snapshot, i: nat, w: nat) {
    i < |s.parts| && (w == 0 || w < s.parts[i].bytes)
  }

  /** Every reply delivers all that is outstanding, without error. */
  ghost predicate Cooperative(s: Snapshot, server: Server) {
    forall i: nat, w: nat, k: nat :: Askable(s, i, w) ==> Finishes(s, i, w, server(i, w, k))
  }

  ghost predicate Finishes(s: Snapshot, i: nat, w: nat, turn: Turn)
    requires i < |s.parts| && w <= s.parts[i].bytes
  {
    var got := Stream(Disk([], 0), [], s.parts[i], w, turn.reply);
    got.error == NoError && got.written == s.parts[i].bytes - w
  }

  /** The bytes from one offset to another, whichever way they are cut out. */
  lemma CutOut(published: seq<Byte>, data: seq<Byte>, digest: seq<Byte>, start: nat, end: nat)
    requires start <= end <= |published| && data <= published && |data| == end && digest == data[start..]
    ensures digest == published[start..end]
  {}

  lemma GoodLength(s: Snapshot, st: State, turn: Turn)
    requires Sensible(s, st) && st.index < |s.parts| && Finishes(s, st.index, st.within, turn)
    ensures Grown(s, st, turn).within == s.parts[st.index].bytes
    ensures Stream(st.disk, st.digest, s.parts[st.index], st.within, turn.reply).error == NoError
  {
    StreamTakes(Disk([], 0), [], s.parts[st.index], st.within, turn.reply);
    StreamTakes(st.disk, st.digest, s.parts[st.index], st.within, turn.reply);
  }

  lemma GoodPart(s: Snapshot, hash: Hash, st: State, turn: Turn, published: seq<Byte>)
    requires Ready(s, st) && st.index < |s.parts| && st.disk.data <= published && Genuine(s, hash, published)
    requires Delivers(s, published, st.index, st.within, turn)
    requires Grown(s, st, turn).within == s.parts[st.index].bytes
    ensures hash(Grown(s, st, turn).digest) == s.parts[st.index].sha256
  {
    var g := Grown(s, st, turn);
    GrownStaysAligned(s, st, turn);
    BytesBeforeNext(s, st.index);
    assert PartVerified(s, hash, published, st.index);
    GrownIsPublished(s, st, turn, published);
    CutOut(published, g.disk.data, g.digest, BytesBefore(s, st.index), BytesBefore(s, st.index + 1));
  }

  lemma GrownIsPublished(s: Snapshot, st: State, turn: Turn, published: seq<Byte>)
    requires Ready(s, st) && st.index < |s.parts| && st.disk.data <= published
    requires Delivers(s, published, st.index, st.within, turn)
    ensures Grown(s, st, turn).disk.data <= published
  {
    GrownStaysAligned(s, st, turn);
  }

  lemma GoodPass(s: Snapshot, hash: Hash, st: State, turn: Turn, published: seq<Byte>)
    requires Ready(s, st) && st.index < |s.parts| && st.disk.data <= published && Genuine(s, hash, published)
    requires Delivers(s, published, st.index, st.within, turn) && Finishes(s, st.index, st.within, turn)
    ensures var g := Grown(s, st, turn);
            Pass(s, hash, st, turn) == Again(g.(index := st.index + 1, within := 0, attempts := 0, digest := []))
  {
    GoodLength(s, st, turn);
    GoodPart(s, hash, st, turn, published);
    StreamTakes(st.disk, st.digest, s.parts[st.index], st.within, turn.reply);
  }

  /** With a genuine file served well, a run from any sound start succeeds, one request a part. */
  lemma {:induction false} GoodServerSucceeds(s: Snapshot, hash: Hash, server: Server, st: State, published: seq<Byte>)
    requires Ready(s, st) && st.disk.data <= published
    requires st.index < |s.parts| ==> Askable(s, st.index, st.within)
    requires Faithful(s, server, published) && Cooperative(s, server) && Genuine(s, hash, published)
    ensures var r := Loop(s, hash, server, false, st);
            r.outcome == Complete && r.asked == st.asked + |s.parts| - st.index && r.disk.data == published
    decreases |s.parts| - st.index
  {
    if st.index < |s.parts| {
      var turn := server(st.index, st.within, st.asked);
      assert Delivers(s, published, st.index, st.within, turn);
      assert Finishes(s, st.index, st.within, turn);
      GoodPass(s, hash, st, turn, published);
      PassKeepsPrefix(s, hash, st, turn, published);
      PassKeepsReady(s, hash, st, turn, st.index);
      GoodServerSucceeds(s, hash, server, Pass(s, hash, st, turn).state, published);
    } else {
      assert st.disk.data == published;
    }
  }

  // ---- the start that is not sound

  /**
    A run that finds the file ending exactly between two parts does not move the position:
    the first bytes it receives overwrite the beginning of the file, and the file grows
    only by what they overhang.
   */
  lemma BoundaryStartOverwrites(s: Snapshot, found: seq<Byte>, st: State, turn: Turn)
    requires Starts(s, found, st) && InteriorBoundary(s, |Kept(s, found)|)
    ensures st.index < |s.parts| && st.disk.pos == 0
    ensures var taken := Taken(s.parts[st.index], st.within, turn.reply);
            && taken <= Grown(s, st, turn).disk.data
            && (taken != [] ==> Grown(s, st, turn).disk.data != Kept(s, found) + taken)
  {
    BoundaryMeansNothingWithin(s, st.index, st.within);
    StreamTakes(st.disk, st.digest, s.parts[st.index], st.within, turn.reply);
    AppendAtEnd(st.disk, Taken(s.parts[st.index], st.within, turn.reply));
  }

  /** What stands in the file when a run from between two parts has received everything up to a part's start. */
  ghost predicate Overwriting(s: Snapshot, kept: seq<Byte>, published: seq<Byte>, st: State) {
    && Sensible(s, st)
    && st.within == 0 && st.attempts == 0 && st.digest == []
    && |kept| <= BytesBefore(s, st.index) <= |published|
    && st.disk == Write(Disk(kept, 0), published[|kept|..BytesBefore(s, st.index)])
  }

  lemma OverwritingBegins(s: Snapshot, found: seq<Byte>, st: State, published: seq<Byte>)
    requires Starts(s, found, st) && InteriorBoundary(s, |Kept(s, found)|) && |published| == TotalBytes(s)
    ensures Overwriting(s, Kept(s, found), published, st)
  {
    BoundaryMeansNothingWithin(s, st.index, st.within);
    WriteNothing(Disk(Kept(s, found), 0));
  }

  /** A whole part, well served and asked for from its start, is that part of the published file. */
  lemma WholePartTaken(s: Snapshot, hash: Hash, i: nat, turn: Turn, published: seq<Byte>)
    requires i < |s.parts| && Genuine(s, hash, published)
    requires Delivers(s, published, i, 0, turn) && Finishes(s, i, 0, turn)
    ensures BytesBefore(s, i) <= BytesBefore(s, i + 1) <= |published|
    ensures Taken(s.parts[i], 0, turn.reply) == published[BytesBefore(s, i)..BytesBefore(s, i + 1)]
    ensures hash(Taken(s.parts[i], 0, turn.reply)) == s.parts[i].sha256
  {
    BytesBeforeNext(s, i);
    StreamTakes(Disk([], 0), [], s.parts[i], 0, turn.reply);
    assert PartVerified(s, hash, published, i);
  }

  /** A request for a whole part that is delivered and matches goes on to the next. */
  lemma WholePartPasses(s: Snapshot, hash: Hash, st: State, turn: Turn)
    requires Sensible(s, st) && st.index < |s.parts| && st.within == 0 && st.digest == []
    requires Finishes(s, st.index, 0, turn)
    requires hash(Taken(s.parts[st.index], 0, turn.reply)) == s.parts[st.index].sha256
    ensures var r := Pass(s, hash, st, turn);
            && r.Again? && r.state.index == st.index + 1 && r.state.within == 0 && r.state.attempts == 0
            && r.state.digest == [] && r.state.disk == Write(st.disk, Taken(s.parts[st.index], 0, turn.reply))
  {
    GoodLength(s, st, turn);
    StreamTakes(st.disk, [], s.parts[st.index], 0, turn.reply);
    assert [] + Taken(s.parts[st.index], 0, turn.reply) == Taken(s.parts[st.index], 0, turn.reply);
  }

  lemma LaidOver(kept: seq<Byte>, published: seq<Byte>, from: nat, to: nat)
    requires |kept| <= from <= to <= |published|
    ensures var base := Disk(kept, 0);
            Write(Write(base, published[|kept|..from]), published[from..to]) == Write(base, published[|kept|..to])
  {
    WriteTwice(Disk(kept, 0), published[|kept|..from], published[from..to]);
    assert published[|kept|..from] + published[from..to] == published[|kept|..to];
  }

  lemma OverwritingGoesOn(s: Snapshot, hash: Hash, kept: seq<Byte>, st: State, turn: Turn, published: seq<Byte>)
    requires Overwriting(s, kept, published, st) && st.index < |s.parts| && Genuine(s, hash, published)
    requires Delivers(s, published, st.index, 0, turn) && Finishes(s, st.index, 0, turn)
    ensures var r := Pass(s, hash, st, turn);
            r.Again? && r.state.index == st.index + 1 && Overwriting(s, kept, published, r.state)
  {
    var from, to := BytesBefore(s, st.index), BytesBefore(s, st.index + 1);
    WholePartTaken(s, hash, st.index, turn, published);
    WholePartPasses(s, hash, st, turn);
    LaidOver(kept, published, from, to);
  }

  lemma {:induction false} OverwritingRuns(s: Snapshot, hash: Hash, server: Server, kept: seq<Byte>, st: State,
                                           published: seq<Byte>)
    requires Overwriting(s, kept, published, st)
    requires Faithful(s, server, published) && Cooperative(s, server) && Genuine(s, hash, published)
    ensures |kept| <= |published|
    ensures var data := Write(Disk(kept, 0), published[|kept|..]).data;
            var r := Loop(s, hash, server, false, st);
            r.disk.data == data && r.outcome == VerifyWhole(s, hash, data, false)
    decreases |s.parts| - st.index
  {
    if st.index < |s.parts| {
      var turn := server(st.index, 0, st.asked);
      assert Askable(s, st.index, 0);
      assert Delivers(s, published, st.index, 0, turn) && Finishes(s, st.index, 0, turn);
      OverwritingGoesOn(s, hash, kept, st, turn, published);
      OverwritingRuns(s, hash, server, kept, Pass(s, hash, st, turn).state, published);
    } else {
      assert published[|kept|..BytesBefore(s, st.index)] == published[|kept|..];
    }
  }

  /**
    So every run that finds the file ending between two parts, however well it is served,
    ends with the rest of the published file laid over the beginning of what was there: a
    file too short to be the published one.
   */
  lemma BoundaryStartCorrupts(s: Snapshot, hash: Hash, server: Server, found: seq<Byte>, st: State, published: seq<Byte>)
    requires Starts(s, found, st) && InteriorBoundary(s, |Kept(s, found)|)
    requires Faithful(s, server, published) && Cooperative(s, server) && Genuine(s, hash, published)
    ensures var kept, r := Kept(s, found), Loop(s, hash, server, false, st);
            && r.disk.data == Write(Disk(kept, 0), published[|kept|..]).data
            && |r.disk.data| < TotalBytes(s) && r.disk.data != published
            && (r.outcome == Complete <==> hash(r.disk.data) == s.sha256)
  {
    OverwritingBegins(s, found, st, published);
    OverwritingRuns(s, hash, server, Kept(s, found), st, published);
  }

  /**
    Well served, a run over any part of the published file it finds leaves the published
    file exactly when what it finds does not end between two parts.
   */
  lemma ResumesIff(s: Snapshot, hash: Hash, server: Server, found: seq<Byte>, st: State, published: seq<Byte>)
    requires Starts(s, found, st) && found <= published
    requires Faithful(s, server, published) && Cooperative(s, server) && Genuine(s, hash, published)
    ensures Loop(s, hash, server, false, st).disk.data == published <==> !InteriorBoundary(s, |found|)
  {
    assert Kept(s, found) == found;
    StartsReadyIff(s, found, st);
    if InteriorBoundary(s, |found|) {
      BoundaryStartCorrupts(s, hash, server, found, st, published);
    } else {
      GoodServerSucceeds(s, hash, server, st, published);
    }
  }

  /** The smallest case: two one-byte parts, the first already there, the second delivered perfectly, and the run fails. */
  lemma SmallestCorruption(hash: Hash, server: Server)
    requires server(1, 0, 0) == Turn(Response(STATUS_OK, 0, [Chunk(false, [2], Eof, false)]), false, false)
    requires hash([2]) != hash([1, 2])
    ensures var s := Snapshot([Part("0", 1, hash([1])), Part("1", 1, hash([2]))], hash([1, 2]));
            exists st :: Starts(s, [1], st) && Loop(s, hash, server, false, st) == Result(WrongDigest, Disk([2], 1), 1)
  {
    var s := Snapshot([Part("0", 1, hash([1])), Part("1", 1, hash([2]))], hash([1, 2]));
    assert [s.parts[0]][..0] == [];
    assert SumBytes([s.parts[0]]) == 1;
    assert s.parts[..1] == [s.parts[0]];
    assert BytesBefore(s, 1) == 1 && TotalBytes(s) == 2;
    assert BytesBefore(s, 2) == 2;
    var st := Opened(s, [1], 1, 0);
    assert Starts(s, [1], st);
    StreamTakes(st.disk, [], s.parts[1], 0, server(1, 0, 0).reply);
    assert Taken(s.parts[1], 0, server(1, 0, 0).reply) == [2];
    assert Write(st.disk, [2]) == Disk([2], 1);
    assert [] + [2 as Byte] == [2];
    var next := State(Disk([2], 1), 2, 0, 2, 0, [], 1);
    assert Pass(s, hash, st, server(1, 0, 0)) == Again(next);
    assert Loop(s, hash, server, false, next) == Result(WrongDigest, Disk([2], 1), 1);
  }
}
