/**
  The resumable download as a function of what the server answers: one request at a time,
  each leaving bytes on the disk and a decision about what to do next.
 */
module FetchModel {
  import opened Snapshots

  newtype Byte = x: int | 0 <= x < 256

  /** What SHA-256 is taken to be: some function of the bytes. */
  type Hash = seq<Byte> -> Digest

  // ---- the file on disk

  datatype DiskValue = Disk(data: seq<Byte>, pos: nat)

  /** The staged file: its content, and where in it the next write goes. */
  type Disk = d: DiskValue | d.pos <= |d.data| witness Disk([], 0)

  /** A write replaces what stands at the position, extends the file past its end, and moves past itself. */
  function Write(d: Disk, buf: seq<Byte>): Disk {
    var end := d.pos + |buf|;
    Disk(d.data[..d.pos] + buf + (if end < |d.data| then d.data[end..] else []), end)
  }

  function Zeros(n: nat): seq<Byte> {
    seq(n, _ => 0)
  }

  /** Shortening (or lengthening with zeros) leaves the position at the new end. */
  function Truncate(d: Disk, to: nat): Disk {
    Disk(if to <= |d.data| then d.data[..to] else d.data + Zeros(to - |d.data|), to)
  }

  lemma WriteNothing(d: Disk)
    ensures Write(d, []) == d
  {}

  /** Two writes in a row are one. */
  lemma WriteTwice(d: Disk, a: seq<Byte>, b: seq<Byte>)
    ensures Write(Write(d, a), b) == Write(d, a + b)
  {
    assert Write(Write(d, a), b).data == Write(d, a + b).data;
  }

  // ---- what one request can bring

  /** One read of a response body. */
  datatype ReadEnd = More | Eof | ReadFailed

  datatype Chunk = Chunk(cancelled: bool, data: seq<Byte>, end: ReadEnd, writeFails: bool)

  datatype Reply =
    | Unreachable
    | Response(status: int, rangeTotal: int, body: seq<Chunk>)

  /** A reply, and whether the caller gave up by the end of it or during the pause after it. */
  datatype Turn = Turn(reply: Reply, cancelled: bool, cancelledAsleep: bool)

  /** Any server: its answer may depend on the part, the resume point asked for, and the request's number. */
  type Server = (nat, nat, nat) -> Turn

  const STATUS_OK := 200
  const STATUS_PARTIAL := 206
  const STATUS_RANGE_NOT_SATISFIABLE := 416

  datatype Error = NoError | Cancelled | PublishedFileChanged | RangeIgnored | Transient

  function StatusOKFor(status: int, from: nat): Error {
    if from == 0 && (status == STATUS_OK || status == STATUS_PARTIAL) then NoError
    else if from > 0 && status == STATUS_PARTIAL then NoError
    else if from > 0 && status == STATUS_OK then RangeIgnored
    else if status == STATUS_RANGE_NOT_SATISFIABLE then RangeIgnored
    else Transient
  }

  // ---- moving a body onto the disk

  datatype Copied = Copied(disk: Disk, digest: seq<Byte>, written: nat, error: Error)

  function Limited(data: seq<Byte>, limit: nat): seq<Byte> {
    if |data| <= limit then data else data[..limit]
  }

  /** The bytes taken from a body, at most limit of them, and how the taking ended. */
  function Accept(limit: nat, body: seq<Chunk>): (r: (seq<Byte>, Error))
    ensures |r.0| <= limit
    decreases |body|
  {
    if body == [] then
      ([], if limit == 0 then NoError else Transient)
    else if body[0].cancelled then
      ([], Cancelled)
    else if limit == 0 then
      ([], NoError)
    else
      var got := Limited(body[0].data, limit);
      if got != [] && body[0].writeFails then
        ([], Transient)
      else
        match body[0].end
        case Eof => (got, NoError)
        case ReadFailed => (got, Transient)
        case More =>
          var (rest, error) := Accept(limit - |got|, body[1..]);
          (got + rest, error)
  }

  /** Whatever is taken is written, hashed and counted. */
  function Copy(disk: Disk, digest: seq<Byte>, limit: nat, body: seq<Chunk>): Copied {
    var (taken, error) := Accept(limit, body);
    Copied(Write(disk, taken), digest + taken, |taken|, error)
  }

  /** One attempt at the rest of one part. */
  function Stream(disk: Disk, digest: seq<Byte>, part: Part, within: nat, reply: Reply): (r: Copied)
    requires within <= part.bytes
    ensures within + r.written <= part.bytes
  {
    match reply
    case Unreachable => Copied(disk, digest, 0, Transient)
    case Response(status, rangeTotal, body) =>
      var refusal := StatusOKFor(status, within);
      if refusal != NoError then
        Copied(disk, digest, 0, refusal)
      else if rangeTotal > 0 && rangeTotal != part.bytes then
        Copied(disk, digest, 0, PublishedFileChanged)
      else
        Copy(disk, digest, part.bytes - within, body)
  }

  // ---- the loop

  const MAX_ATTEMPTS := 30

  datatype Outcome =
    | Complete
    | GaveUp(why: Error)
    | EndedEarly
    | Corrupted
    | Stopped
    | Replaced
    | WrongDigest

  datatype State = State(
    disk: Disk,
    index: nat,
    within: nat,
    size: nat,
    attempts: nat,
    digest: seq<Byte>,
    asked: nat)

  datatype Next = Done(outcome: Outcome, disk: Disk) | Again(state: State)

  ghost predicate Sensible(s: Snapshot, st: State) {
    && st.index <= |s.parts|
    && st.attempts < MAX_ATTEMPTS
    && (st.index < |s.parts| ==> st.within <= s.parts[st.index].bytes)
    && (st.index == |s.parts| ==> st.within == 0 && st.attempts == 0)
    && st.size == BytesBefore(s, st.index) + st.within
    && st.asked <= MAX_ATTEMPTS * st.index + st.attempts
  }

  /** The part discarded, so that the next attempt starts from its boundary. */
  function Restarted(s: Snapshot, st: State): State {
    var start := BytesBefore(s, st.index);
    st.(disk := Truncate(st.disk, start), within := 0, size := start, digest := [])
  }

  function Paused(st: State, turn: Turn): Next {
    if turn.cancelledAsleep then Done(Stopped, st.disk) else Again(st)
  }

  /** One pass of the loop: a request, and what follows from it. */
  function Pass(s: Snapshot, hash: Hash, st: State, turn: Turn): (r: Next)
    requires Sensible(s, st) && st.index < |s.parts|
    ensures r.Again? ==>
              && Sensible(s, r.state)
              && r.state.asked == st.asked + 1
              && (|| (r.state.index == st.index + 1 && r.state.attempts == 0)
                  || (r.state.index == st.index && r.state.attempts == st.attempts + 1))
  {
    var part := s.parts[st.index];
    var got := Stream(st.disk, st.digest, part, st.within, turn.reply);
    var st1 := st.(disk := got.disk, digest := got.digest, asked := st.asked + 1,
                   within := st.within + got.written, size := st.size + got.written);
    var tired := st.attempts + 1 >= MAX_ATTEMPTS;
    var tried := st1.(attempts := st.attempts + 1);
    BytesBeforeNext(s, st.index);
    if got.error != NoError && (turn.cancelled || got.error == Cancelled) then
      Done(Stopped, st1.disk)
    else
      match got.error
      case PublishedFileChanged => Done(Replaced, st1.disk)
      case RangeIgnored =>
        if tired then Done(GaveUp(RangeIgnored), st1.disk) else Paused(Restarted(s, tried), turn)
      case Transient =>
        if tired then Done(GaveUp(Transient), st1.disk) else Paused(tried, turn)
      case Cancelled => Done(Stopped, st1.disk)
      case NoError =>
        if st1.within < part.bytes then
          if tired then Done(EndedEarly, st1.disk) else Paused(tried, turn)
        else if hash(st1.digest) != part.sha256 then
          if tired then Done(Corrupted, st1.disk) else Again(Restarted(s, tried))
        else
          Again(st1.(index := st.index + 1, within := 0, attempts := 0, digest := []))
  }

  function PartsLeft(s: Snapshot, st: State): int {
    |s.parts| - st.index
  }

  /** Re-reads the whole file and checks it. */
  function VerifyWhole(s: Snapshot, hash: Hash, data: seq<Byte>, cancelled: bool): Outcome {
    if cancelled then Stopped else if hash(data) != s.sha256 then WrongDigest else Complete
  }

  datatype Result = Result(outcome: Outcome, disk: Disk, asked: nat)

  /** The whole loop: at most MAX_ATTEMPTS requests a part, whatever the server does. */
  function Loop(s: Snapshot, hash: Hash, server: Server, cancelledAtEnd: bool, st: State): (r: Result)
    requires Sensible(s, st)
    ensures r.asked <= MAX_ATTEMPTS * |s.parts|
    decreases PartsLeft(s, st), MAX_ATTEMPTS - st.attempts
  {
    if st.index == |s.parts| then
      Result(VerifyWhole(s, hash, st.disk.data, cancelledAtEnd), st.disk, st.asked)
    else
      match Pass(s, hash, st, server(st.index, st.within, st.asked))
      case Done(outcome, disk) => Result(outcome, disk, st.asked + 1)
      case Again(next) => Loop(s, hash, server, cancelledAtEnd, next)
  }

  /** What a run keeps of the file it finds: nothing, if it is longer than the snapshot. */
  function Kept(s: Snapshot, found: seq<Byte>): seq<Byte> {
    if |found| > TotalBytes(s) then [] else found
  }

  /** Where a run finds itself in the file it keeps: only a partial part is read back, and only that moves the position. */
  function Opened(s: Snapshot, kept: seq<Byte>, index: nat, within: nat): State
    requires BytesBefore(s, index) + within <= |kept|
  {
    var start := BytesBefore(s, index);
    State(Disk(kept, if within > 0 then start + within else 0), index, within, start + within, 0,
          if within > 0 then kept[start..start + within] else [], 0)
  }

  /** The state a run starts in, given what it finds on disk. */
  ghost predicate Starts(s: Snapshot, found: seq<Byte>, st: State) {
    && Position(s, st.index, st.within)
    && BytesBefore(s, st.index) + st.within == |Kept(s, found)|
    && st == Opened(s, Kept(s, found), st.index, st.within)
    && Sensible(s, st)
  }
}
