/**
  What one request comes to, in the terms of the server's answer, and that a download whose
  connection keeps breaking still arrives.
 */
module FetchTurns {
  import opened Snapshots
  import opened FetchModel
  import opened FetchRuns

  // ---- the file

  /** A write, byte by byte: the buffer where the position was, everything else as it was. */
  lemma WriteMeans(d: Disk, buf: seq<Byte>)
    ensures var w := Write(d, buf);
            && w.pos == d.pos + |buf|
            && |w.data| == (if w.pos > |d.data| then w.pos else |d.data|)
            && forall i :: 0 <= i < |w.data| ==>
                 w.data[i] == if d.pos <= i < w.pos then buf[i - d.pos] else d.data[i]
  {}

  /** Cutting or lengthening: what is kept is as it was, what is added is zero, and the position is the end. */
  lemma TruncateMeans(d: Disk, to: nat)
    ensures var w := Truncate(d, to);
            && w.pos == |w.data| == to
            && forall i :: 0 <= i < to ==> w.data[i] == if i < |d.data| then d.data[i] else 0
  {}

  // ---- what is taken of a body

  /** Everything read, one read after another. */
  function Joined(body: seq<Chunk>): seq<Byte>
    decreases |body|
  {
    if body == [] then [] else body[0].data + Joined(body[1..])
  }

  /** A read that nothing goes wrong with and that does not end the body. */
  predicate Clean(c: Chunk) {
    !c.cancelled && c.end == More && (c.data == [] || !c.writeFails)
  }

  predicate AllClean(body: seq<Chunk>) {
    forall i :: 0 <= i < |body| ==> Clean(body[i])
  }

  function AtMost(data: seq<Byte>, limit: nat): seq<Byte> {
    if |data| > limit then data[..limit] else data
  }

  /** More bytes in front of what was taken. */
  function Before(data: seq<Byte>, taken: (seq<Byte>, Error)): (seq<Byte>, Error) {
    (data + taken.0, taken.1)
  }

  lemma BeforeTwice(a: seq<Byte>, b: seq<Byte>, taken: (seq<Byte>, Error))
    ensures Before(a, Before(b, taken)) == Before(a + b, taken)
    ensures Before([], taken) == taken
  {
    assert a + (b + taken.0) == (a + b) + taken.0;
    assert [] + taken.0 == taken.0;
  }

  lemma OneClean(limit: nat, c: Chunk, rest: seq<Chunk>)
    requires Clean(c) && |c.data| < limit
    ensures Accept(limit, [c] + rest) == Before(c.data, Accept(limit - |c.data|, rest))
  {
    assert ([c] + rest)[1..] == rest;
  }

  lemma JoinedOne(c: Chunk, rest: seq<Chunk>)
    ensures Joined([c] + rest) == c.data + Joined(rest)
  {
    assert ([c] + rest)[1..] == rest;
  }

  lemma {:induction false} SkipsClean(limit: nat, good: seq<Chunk>, rest: seq<Chunk>)
    requires AllClean(good) && |Joined(good)| < limit
    ensures Accept(limit, good + rest) == Before(Joined(good), Accept(limit - |Joined(good)|, rest))
    decreases |good|
  {
    if good == [] {
      assert good + rest == rest;
      BeforeTwice([], [], Accept(limit, rest));
    } else {
      var c, more := good[0], good[1..];
      assert good == [c] + more;
      JoinedOne(c, more);
      SkipsOne(limit, c, more, rest);
      SkipsClean(limit - |c.data|, more, rest);
      BeforeTwice(c.data, Joined(more), Accept(limit - |c.data| - |Joined(more)|, rest));
    }
  }

  lemma SkipsOne(limit: nat, c: Chunk, more: seq<Chunk>, rest: seq<Chunk>)
    requires Clean(c) && |c.data| < limit
    ensures Accept(limit, ([c] + more) + rest) == Before(c.data, Accept(limit - |c.data|, more + rest))
  {
    OneClean(limit, c, more + rest);
    assert ([c] + more) + rest == [c] + (more + rest);
  }

  lemma {:induction false} AcceptEnds(limit: nat, body: seq<Chunk>)
    ensures Accept(limit, body).1 in {NoError, Cancelled, Transient}
    decreases |body|
  {
    if body != [] {
      AcceptEnds(limit - |Limited(body[0].data, limit)|, body[1..]);
    }
  }

  /**
    Reads are taken up to the first that ends the body, fails, cannot be written or comes
    after the caller gave up, and never past the limit; that read decides how the taking ends.
   */
  lemma TakenUpTo(limit: nat, good: seq<Chunk>, last: Chunk, rest: seq<Chunk>)
    requires AllClean(good) && |Joined(good)| < limit
    ensures var (taken, error) := Accept(limit, good + ([last] + rest));
            if last.cancelled then taken == Joined(good) && error == Cancelled
            else if last.data != [] && last.writeFails then taken == Joined(good) && error == Transient
            else if last.end == Eof then taken == AtMost(Joined(good) + last.data, limit) && error == NoError
            else if last.end == ReadFailed then taken == AtMost(Joined(good) + last.data, limit) && error == Transient
            else |Joined(good) + last.data| >= limit && (rest == [] || !rest[0].cancelled) ==>
                   taken == AtMost(Joined(good) + last.data, limit) && error == NoError
  {
    SkipsClean(limit, good, [last] + rest);
    LastTaken(limit - |Joined(good)|, last, rest);
    CutJoined(Joined(good), last.data, limit);
    assert Joined(good) + [] == Joined(good);
  }

  lemma LastTaken(limit: nat, last: Chunk, rest: seq<Chunk>)
    requires limit > 0
    ensures var (taken, error) := Accept(limit, [last] + rest);
            if last.cancelled then taken == [] && error == Cancelled
            else if last.data != [] && last.writeFails then taken == [] && error == Transient
            else if last.end == Eof then taken == AtMost(last.data, limit) && error == NoError
            else if last.end == ReadFailed then taken == AtMost(last.data, limit) && error == Transient
            else |last.data| >= limit && (rest == [] || !rest[0].cancelled) ==>
                   taken == AtMost(last.data, limit) && error == NoError
  {
    assert ([last] + rest)[1..] == rest;
    assert AtMost(last.data, limit) + [] == AtMost(last.data, limit);
  }

  lemma CutJoined(a: seq<Byte>, b: seq<Byte>, limit: nat)
    requires |a| < limit
    ensures a + AtMost(b, limit - |a|) == AtMost(a + b, limit)
  {}

  /** A body that simply stops is a transfer that broke off, with all of it taken. */
  lemma TakenToTheEnd(limit: nat, good: seq<Chunk>)
    requires AllClean(good) && |Joined(good)| < limit
    ensures Accept(limit, good) == (Joined(good), Transient)
  {
    SkipsClean(limit, good, []);
    assert good + [] == good && Joined(good) + [] == Joined(good);
  }

  // ---- what one request comes to

  /** What became of a request for a part from some point on. */
  datatype Event =
    | Broken
    | Refused
    | Changed
    | Abandoned
    | Short
    | Mismatched
    | Whole

  predicate Serves(status: int, within: nat) {
    status == 206 || (within == 0 && status == 200)
  }

  predicate RefusesRange(status: int, within: nat) {
    status == 416 || (within > 0 && status == 200)
  }

  /** The bytes a reply adds to the part: those of the range asked for, and nothing else. */
  function Brought(part: Part, within: nat, reply: Reply): seq<Byte>
    requires within <= part.bytes
  {
    match reply
    case Unreachable => []
    case Response(status, rangeTotal, body) =>
      if Serves(status, within) && (rangeTotal <= 0 || rangeTotal == part.bytes)
      then Accept(part.bytes - within, body).0 else []
  }

  function Happened(part: Part, within: nat, digest: seq<Byte>, hash: Hash, reply: Reply): Event
    requires within <= part.bytes
  {
    match reply
    case Unreachable => Broken
    case Response(status, rangeTotal, body) =>
      if RefusesRange(status, within) then Refused
      else if !Serves(status, within) then Broken
      else if rangeTotal > 0 && rangeTotal != part.bytes then Changed
      else
        var (taken, error) := Accept(part.bytes - within, body);
        if error == Cancelled then Abandoned
        else if error != NoError then Broken
        else if within + |taken| < part.bytes then Short
        else if hash(digest + taken) != part.sha256 then Mismatched
        else Whole
  }

  lemma TakenIsBrought(part: Part, within: nat, reply: Reply)
    requires within <= part.bytes
    ensures Taken(part, within, reply) == Brought(part, within, reply)
  {}

  /** The error the loop sees for each of these. */
  lemma ErrorOf(disk: Disk, part: Part, within: nat, digest: seq<Byte>, hash: Hash, reply: Reply)
    requires within <= part.bytes
    ensures var got := Stream(disk, digest, part, within, reply);
            match Happened(part, within, digest, hash, reply)
            case Broken => got.error == Transient
            case Refused => got.error == RangeIgnored
            case Changed => got.error == PublishedFileChanged
            case Abandoned => got.error == Cancelled
            case Short => got.error == NoError && within + got.written < part.bytes
            case Mismatched => got.error == NoError && within + got.written == part.bytes && hash(got.digest) != part.sha256
            case Whole => got.error == NoError && within + got.written == part.bytes && hash(got.digest) == part.sha256
  {
    if reply.Response? {
      AcceptEnds(part.bytes - within, reply.body);
    }
  }

  /** Nothing but the caller stops the loop before the thirtieth attempt at a part, or a published file of another size. */
  lemma PassEndsIff(s: Snapshot, hash: Hash, st: State, turn: Turn)
    requires Sensible(s, st) && st.index < |s.parts|
    ensures var ev := Happened(s.parts[st.index], st.within, st.digest, hash, turn.reply);
            var gaveUp := ev == Abandoned || (turn.cancelled && ev in {Broken, Refused, Changed});
            var last := st.attempts == 29;
            match Pass(s, hash, st, turn)
            case Done(outcome, _) =>
              outcome ==
                if gaveUp then Stopped
                else if ev == Changed then Replaced
                else if !last then Stopped
                else if ev == Refused then GaveUp(RangeIgnored)
                else if ev == Broken then GaveUp(Transient)
                else if ev == Short then EndedEarly
                else Corrupted
            case Again(_) => true
    ensures var ev := Happened(s.parts[st.index], st.within, st.digest, hash, turn.reply);
            var gaveUp := ev == Abandoned || (turn.cancelled && ev in {Broken, Refused, Changed});
            var last := st.attempts == 29;
            Pass(s, hash, st, turn).Done? <==>
              gaveUp || ev == Changed || (ev != Whole && last)
              || (ev in {Broken, Refused, Short} && turn.cancelledAsleep)
  {
    ErrorOf(st.disk, s.parts[st.index], st.within, st.digest, hash, turn.reply);
  }

  /** What becomes of the state with the bytes in it: kept, cut back, or moved on. */
  lemma PassGoesOn(s: Snapshot, hash: Hash, st: State, turn: Turn)
    requires Sensible(s, st) && st.index < |s.parts| && Pass(s, hash, st, turn).Again?
    ensures var g, next := Grown(s, st, turn), Pass(s, hash, st, turn).state;
            match Happened(s.parts[st.index], st.within, st.digest, hash, turn.reply)
            case Whole => next == g.(index := st.index + 1, within := 0, attempts := 0, digest := [])
            case Broken => next == g.(attempts := st.attempts + 1)
            case Short => next == g.(attempts := st.attempts + 1)
            case _ => next == Restarted(s, g.(attempts := st.attempts + 1))
    ensures Happened(s.parts[st.index], st.within, st.digest, hash, turn.reply) !in {Changed, Abandoned}
  {
    ErrorOf(st.disk, s.parts[st.index], st.within, st.digest, hash, turn.reply);
    StreamTakes(st.disk, st.digest, s.parts[st.index], st.within, turn.reply);
  }

  /**
    From a sound state, a pass that goes on keeps every byte it was brought, after all that
    was there, unless the range was refused or the finished part does not match its
    checksum: only then is the part cut back to its start. It moves to the next part exactly
    when this one is whole.
   */
  lemma PassKeepsWhatItIsBrought(s: Snapshot, hash: Hash, st: State, turn: Turn)
    requires Ready(s, st) && st.index < |s.parts| && Pass(s, hash, st, turn).Again?
    ensures var part, next := s.parts[st.index], Pass(s, hash, st, turn).state;
            var ev, got := Happened(part, st.within, st.digest, hash, turn.reply), Brought(part, st.within, turn.reply);
            && Ready(s, next)
            && next.index == (if ev == Whole then st.index + 1 else st.index)
            && next.attempts == (if ev == Whole then 0 else st.attempts + 1)
            && next.within == (if ev in {Whole, Refused, Mismatched} then 0 else st.within + |got|)
            && next.disk.data == (if ev in {Refused, Mismatched} then st.disk.data[..BytesBefore(s, st.index)]
                                  else st.disk.data + got)
  {
    TakenIsBrought(s.parts[st.index], st.within, turn.reply);
    GrownStaysAligned(s, st, turn);
    PassGoesOn(s, hash, st, turn);
    PassKeepsReadyAlone(s, hash, st, turn);
    CutBack(s, st, turn);
  }

  lemma CutBack(s: Snapshot, st: State, turn: Turn)
    requires Ready(s, st) && st.index < |s.parts|
    ensures Truncate(Grown(s, st, turn).disk, BytesBefore(s, st.index)).data == st.disk.data[..BytesBefore(s, st.index)]
  {
    GrownStaysAligned(s, st, turn);
  }

  lemma PassKeepsReadyAlone(s: Snapshot, hash: Hash, st: State, turn: Turn)
    requires Ready(s, st) && st.index < |s.parts|
    ensures Pass(s, hash, st, turn).Again? ==> Ready(s, Pass(s, hash, st, turn).state)
  {
    PassKeepsReady(s, hash, st, turn, st.index);
  }

  /** A transfer that broke off or fell short, with attempts left and nobody giving up, is resumed where it stopped. */
  lemma BrokenTransferResumes(s: Snapshot, hash: Hash, st: State, turn: Turn)
    requires Ready(s, st) && st.index < |s.parts| && st.attempts < 29
    requires !turn.cancelled && !turn.cancelledAsleep
    requires Happened(s.parts[st.index], st.within, st.digest, hash, turn.reply) in {Broken, Short}
    ensures var r, got := Pass(s, hash, st, turn), Brought(s.parts[st.index], st.within, turn.reply);
            && r.Again? && Ready(s, r.state)
            && r.state.index == st.index && r.state.within == st.within + |got| && r.state.attempts == st.attempts + 1
            && r.state.disk.data == st.disk.data + got
  {
    PassEndsIff(s, hash, st, turn);
    PassKeepsWhatItIsBrought(s, hash, st, turn);
  }

  // ---- a connection that keeps breaking

  /** The connection broke before the part was complete, and nobody gave up. */
  ghost predicate BreaksOff(s: Snapshot, hash: Hash, i: nat, w: nat, turn: Turn)
    requires i < |s.parts| && w <= s.parts[i].bytes
  {
    && !turn.cancelled && !turn.cancelledAsleep
    && w + |Brought(s.parts[i], w, turn.reply)| < s.parts[i].bytes
    && forall digest :: Happened(s.parts[i], w, digest, hash, turn.reply) in {Broken, Short}
  }

  /** Every reply finishes the part or breaks off on the way. */
  ghost predicate Unsteady(s: Snapshot, hash: Hash, server: Server) {
    forall i: nat, w: nat, k: nat :: Askable(s, i, w) ==>
      Finishes(s, i, w, server(i, w, k)) || BreaksOff(s, hash, i, w, server(i, w, k))
  }

  /** The k-th request of the run, if it is for part i, is one that finishes it. */
  ghost predicate GoodRequest(s: Snapshot, server: Server, i: nat, k: nat) {
    forall w: nat :: Askable(s, i, w) ==> Finishes(s, i, w, server(i, w, k))
  }

  /** Of any thirty requests in a row for a part, one finishes it. */
  ghost predicate Recovers(s: Snapshot, server: Server) {
    forall i: nat, k: nat :: i < |s.parts| ==> RecoversAt(s, server, i, k)
  }

  ghost predicate RecoversAt(s: Snapshot, server: Server, i: nat, k: nat) {
    exists j: nat :: Within30(s, server, i, k, j)
  }

  ghost predicate Within30(s: Snapshot, server: Server, i: nat, k: nat, j: nat) {
    j < 30 && GoodRequest(s, server, i, k + j)
  }

  lemma BreaksOffOnward(s: Snapshot, hash: Hash, st: State, turn: Turn, published: seq<Byte>)
    requires Ready(s, st) && st.index < |s.parts| && st.attempts < 29 && st.disk.data <= published
    requires Delivers(s, published, st.index, st.within, turn) && BreaksOff(s, hash, st.index, st.within, turn)
    ensures var r := Pass(s, hash, st, turn);
            && r.Again? && Ready(s, r.state) && r.state.disk.data <= published
            && r.state.index == st.index && r.state.attempts == st.attempts + 1 && r.state.asked == st.asked + 1
            && Askable(s, st.index, r.state.within)
  {
    assert Happened(s.parts[st.index], st.within, st.digest, hash, turn.reply) in {Broken, Short};
    BrokenTransferResumes(s, hash, st, turn);
    PassKeepsPrefix(s, hash, st, turn, published);
  }

  lemma FinishesOnward(s: Snapshot, hash: Hash, st: State, turn: Turn, published: seq<Byte>)
    requires Ready(s, st) && st.index < |s.parts| && st.disk.data <= published && Genuine(s, hash, published)
    requires Delivers(s, published, st.index, st.within, turn) && Finishes(s, st.index, st.within, turn)
    ensures var r := Pass(s, hash, st, turn);
            && r.Again? && Ready(s, r.state) && r.state.disk.data <= published
            && r.state.index == st.index + 1 && r.state.within == 0 && r.state.attempts == 0
  {
    GoodPass(s, hash, st, turn, published);
    PassKeepsPrefix(s, hash, st, turn, published);
    PassKeepsReadyAlone(s, hash, st, turn);
  }

  /** A run under way: sound, with the published bytes so far, and the j-th attempt at this part bound to get through. */
  ghost predicate Underway(s: Snapshot, server: Server, st: State, published: seq<Byte>, j: nat) {
    && Ready(s, st) && st.disk.data <= published && st.attempts <= st.asked
    && (st.index < |s.parts| ==>
          && Askable(s, st.index, st.within)
          && st.attempts <= j && Within30(s, server, st.index, st.asked - st.attempts, j))
  }

  lemma PartBegun(s: Snapshot, server: Server, st: State, published: seq<Byte>) returns (k: nat)
    requires Ready(s, st) && st.disk.data <= published && st.within == 0 && st.attempts == 0
    requires Recovers(s, server)
    ensures Underway(s, server, st, published, k)
  {
    k := 0;
    if st.index < |s.parts| {
      assert RecoversAt(s, server, st.index, st.asked);
      k :| Within30(s, server, st.index, st.asked, k);
    }
  }

  lemma PartResumed(s: Snapshot, server: Server, st: State, published: seq<Byte>, j: nat, next: State)
    requires Underway(s, server, st, published, j) && st.index < |s.parts| && st.attempts != j
    requires Ready(s, next) && next.disk.data <= published && Askable(s, st.index, next.within)
    requires next.index == st.index && next.attempts == st.attempts + 1 && next.asked == st.asked + 1
    ensures Underway(s, server, next, published, j)
  {
    assert next.asked - next.attempts == st.asked - st.attempts;
  }

  /** While the attempt that is bound to get through has not come, this one may fail; when it has, it does not. */
  lemma NotYet(s: Snapshot, server: Server, st: State, published: seq<Byte>, j: nat)
    requires Underway(s, server, st, published, j) && st.index < |s.parts|
    requires !Finishes(s, st.index, st.within, server(st.index, st.within, st.asked))
    ensures st.attempts != j && st.attempts < 29
  {}

  lemma Onward(s: Snapshot, hash: Hash, server: Server, st: State, published: seq<Byte>, j: nat, turn: Turn) returns (next: State, k: nat)
    requires Underway(s, server, st, published, j) && st.index < |s.parts|
    requires Genuine(s, hash, published) && Recovers(s, server)
    requires turn == server(st.index, st.within, st.asked) && Delivers(s, published, st.index, st.within, turn)
    requires Finishes(s, st.index, st.within, turn) || BreaksOff(s, hash, st.index, st.within, turn)
    ensures Pass(s, hash, st, turn) == Again(next) && Underway(s, server, next, published, k)
  {
    if Finishes(s, st.index, st.within, turn) {
      FinishesOnward(s, hash, st, turn, published);
      next := Pass(s, hash, st, turn).state;
      k := PartBegun(s, server, next, published);
    } else {
      NotYet(s, server, st, published, j);
      BreaksOffOnward(s, hash, st, turn, published);
      next, k := Pass(s, hash, st, turn).state, j;
      PartResumed(s, server, st, published, j, next);
    }
  }

  lemma {:induction false} KeepsGoing(s: Snapshot, hash: Hash, server: Server, st: State, published: seq<Byte>, j: nat)
    requires Underway(s, server, st, published, j)
    requires Faithful(s, server, published) && Genuine(s, hash, published)
    requires Unsteady(s, hash, server) && Recovers(s, server)
    ensures var r := Loop(s, hash, server, false, st); r.outcome == Complete && r.disk.data == published
    decreases |s.parts| - st.index, MAX_ATTEMPTS - st.attempts
  {
    if st.index < |s.parts| {
      var turn := server(st.index, st.within, st.asked);
      assert Delivers(s, published, st.index, st.within, turn);
      var next, k := Onward(s, hash, server, st, published, j, turn);
      KeepsGoing(s, hash, server, next, published, k);
    } else {
      assert st.disk.data == published;
    }
  }

  /**
    A connection that keeps breaking costs requests and nothing else: as long as one of any
    thirty requests for a part gets through, the run ends with the published file.
   */
  lemma BreakingConnectionSucceeds(s: Snapshot, hash: Hash, server: Server, found: seq<Byte>, st: State, published: seq<Byte>)
    requires Starts(s, found, st) && found <= published && !InteriorBoundary(s, |found|)
    requires Faithful(s, server, published) && Genuine(s, hash, published)
    requires Unsteady(s, hash, server) && Recovers(s, server)
    ensures var r := Loop(s, hash, server, false, st); r.outcome == Complete && r.disk.data == published
  {
    assert Kept(s, found) == found;
    StartsReadyIff(s, found, st);
    var good: nat := 0;
    if st.index < |s.parts| {
      assert RecoversAt(s, server, st.index, 0);
      good :| Within30(s, server, st.index, 0, good);
    }
    KeepsGoing(s, hash, server, st, published, good);
  }

  /** With every part in, it is the caller and the digest of the whole that decide, in this order. */
  lemma ArrivedEndsIff(s: Snapshot, hash: Hash, server: Server, cancelledAtEnd: bool, st: State)
    requires Sensible(s, st) && st.index == |s.parts|
    ensures var r := Loop(s, hash, server, cancelledAtEnd, st);
            && r.disk == st.disk && r.asked == st.asked
            && (r.outcome == Stopped <==> cancelledAtEnd)
            && (r.outcome == Complete <==> !cancelledAtEnd && hash(st.disk.data) == s.sha256)
            && (r.outcome == WrongDigest <==> !cancelledAtEnd && hash(st.disk.data) != s.sha256)
  {}

  // ---- where a run starts

  /** Whatever is found there is a start, and only one; what is kept of a file too long is nothing, otherwise all of it. */
  lemma EveryFileStarts(s: Snapshot, found: seq<Byte>) returns (st: State)
    ensures Starts(s, found, st) && forall other :: Starts(s, found, other) ==> other == st
    ensures st.disk.data == if |found| > TotalBytes(s) then [] else found
    ensures st.size == |st.disk.data| && st.attempts == 0 && st.asked == 0
  {
    var kept := Kept(s, found);
    var index, at, ok := 0, 0, true;
    index, at := Place(s, |kept|);
    st := Opened(s, kept, index, at);
    BytesBeforeGrows(s, index, |s.parts|);
    forall other | Starts(s, found, other) ensures other == st {
      PositionIsUnique(s, index, at, other.index, other.within);
    }
  }

  lemma {:induction false} PlaceFrom(s: Snapshot, i: nat, offset: nat) returns (index: nat, within: nat)
    requires i <= |s.parts| && BytesBefore(s, i) <= offset <= TotalBytes(s)
    ensures Position(s, index, within) && BytesBefore(s, index) + within == offset
    decreases |s.parts| - i
  {
    if i == |s.parts| {
      return i, 0;
    }
    BytesBeforeNext(s, i);
    if offset < BytesBefore(s, i + 1) {
      return i, offset - BytesBefore(s, i);
    }
    index, within := PlaceFrom(s, i + 1, offset);
  }

  lemma Place(s: Snapshot, offset: nat) returns (index: nat, within: nat)
    requires offset <= TotalBytes(s)
    ensures Position(s, index, within) && BytesBefore(s, index) + within == offset
  {
    assert s.parts != [] ==> s.parts[..0] == [];
    index, within := PlaceFrom(s, 0, offset);
  }
}
