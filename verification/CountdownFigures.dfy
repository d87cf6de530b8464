/** What recording the figures of a clock does: to its row, to the answer, and to what is announced. */
module CountdownFigures {
  import opened Options
  import opened Countdowns
  import opened CountdownRuns

  // ---- one recording

  predicate IsClock(d: Deadline, spend: nat, kind: Kind) {
    d.spend == spend && d.kind == kind
  }

  predicate HasClock(rows: seq<Deadline>, spend: nat, kind: Kind) {
    exists i :: 0 <= i < |rows| && IsClock(rows[i], spend, kind)
  }

  /** The row holds these figures. */
  predicate Shows(d: Deadline, c: Clock) {
    d.height == c.height && d.assumed == c.assumed
  }

  /** Only the figures of the row may have changed. */
  predicate OnlyFigures(d: Deadline, e: Deadline) {
    && e.spend == d.spend && e.kind == d.kind && e.progress == d.progress
    && e.escalation == d.escalation && e.resolvedBy == d.resolvedBy
  }

  /**
    After a recording the one clock of that close and kind shows the figures recorded. It is
    new, counting and at the first tier if there was none, and is otherwise the same clock in
    all but its figures; every other row is as it was. The answer names it exactly when it is
    new or a figure changed.
   */
  lemma RecordingMeans(rows: seq<Deadline>, spend: nat, c: Clock) returns (i: nat)
    requires OneEach(rows) && spend != 0
    ensures var (n, changed) := Upsert(rows, spend, c);
            && i < |n| && IsClock(n[i], spend, c.kind) && Shows(n[i], c)
            && (forall j :: 0 <= j < |n| && IsClock(n[j], spend, c.kind) ==> j == i)
            && (if HasClock(rows, spend, c.kind) then |n| == |rows| && OnlyFigures(rows[i], n[i])
                else |n| == |rows| + 1 && i == |rows|
                     && n[i] == Deadline(spend, c.kind, c.height, Counting, 1, c.assumed, None))
            && (forall j :: 0 <= j < |rows| && j != i ==> n[j] == rows[j])
            && changed == if i < |rows| && Shows(rows[i], c) then None else Some(i)
  {
    var (n, changed) := Upsert(rows, spend, c);
    match FindClock(rows, spend, c.kind) {
      case None => i := |rows|;
      case Some(k) => i := k;
    }
    UpsertKeepsOneEach(rows, spend, c);
    assert IsClock(n[i], spend, c.kind);
    assert i < |rows| ==> IsClock(rows[i], spend, c.kind);
  }

  /** Nothing is recorded for a close that is not in the table. */
  lemma NothingRecordedForNoClose(st: State, channel: nat, c: Clock)
    ensures Upsert(st.rows, 0, c) == (st.rows, None) && Start(st, 0, channel, c) == st
  {}

  /** Starting a clock announces it, at the first tier, exactly when the recording changed something. */
  lemma StartIsToldIff(st: State, spend: nat, channel: nat, c: Clock)
    requires OneEach(st.rows) && spend != 0
    ensures var n, changed := Start(st, spend, channel, c), Upsert(st.rows, spend, c).1;
            && n.rows == RaisedToFirst(Upsert(st.rows, spend, c).0, changed)
            && n.tip == st.tip
            && n.notes == if changed.None? then st.notes
                          else st.notes + [Escalated(changed.value, channel, 1, if st.tip >= c.height then 0 else c.height - st.tip)]
  {
    var i := RecordingMeans(st.rows, spend, c);
  }

  /** No tier below the first. */
  function RaisedToFirst(rows: seq<Deadline>, changed: Option<nat>): seq<Deadline> {
    if changed.Some? && changed.value < |rows| && rows[changed.value].escalation < 1
    then rows[changed.value := rows[changed.value].(escalation := 1)] else rows
  }

  // ---- a list of figures

  /** The k-th is the last figure given for its kind. */
  predicate LastOfKind(clocks: seq<Clock>, k: int) {
    && 0 <= k < |clocks|
    && forall m :: k < m < |clocks| ==> clocks[m].kind != clocks[k].kind
  }

  /** Every clock of that close and kind shows the figures, and there is one. */
  ghost predicate AllShow(rows: seq<Deadline>, spend: nat, c: Clock) {
    && HasClock(rows, spend, c.kind)
    && forall i :: 0 <= i < |rows| && IsClock(rows[i], spend, c.kind) ==> Shows(rows[i], c)
  }

  lemma RecordingShows(rows: seq<Deadline>, spend: nat, c: Clock)
    requires OneEach(rows) && spend != 0
    ensures AllShow(Upsert(rows, spend, c).0, spend, c)
    ensures forall d: Clock :: d.kind != c.kind && AllShow(rows, spend, d) ==> AllShow(Upsert(rows, spend, c).0, spend, d)
  {
    var i := RecordingMeans(rows, spend, c);
    var n := Upsert(rows, spend, c).0;
    forall d: Clock | d.kind != c.kind && AllShow(rows, spend, d) ensures AllShow(n, spend, d) {
      var k :| 0 <= k < |rows| && IsClock(rows[k], spend, d.kind);
      assert i < |rows| ==> !IsClock(rows[i], spend, d.kind);
      assert IsClock(n[k], spend, d.kind);
    }
  }

  lemma FirstTierShows(rows: seq<Deadline>, changed: Option<nat>, spend: nat, d: Clock)
    ensures AllShow(RaisedToFirst(rows, changed), spend, d) <==> AllShow(rows, spend, d)
  {
    var n := RaisedToFirst(rows, changed);
    forall i | 0 <= i < |rows| ensures IsClock(n[i], spend, d.kind) <==> IsClock(rows[i], spend, d.kind) {}
  }

  lemma LastSoFar(clocks: seq<Clock>, k: int)
    requires LastOfKind(clocks, k)
    ensures k == |clocks| - 1 || (LastOfKind(clocks[..|clocks| - 1], k) && clocks[k].kind != clocks[|clocks| - 1].kind)
  {
    var m := |clocks| - 1;
    assert k < m ==> clocks[m].kind != clocks[k].kind;
  }

  lemma {:induction false} ImprovingShows(rows: seq<Deadline>, spend: nat, clocks: seq<Clock>, k: int)
    requires OneEach(rows) && spend != 0 && LastOfKind(clocks, k)
    ensures AllShow(UpsertAll(rows, spend, clocks), spend, clocks[k])
    decreases |clocks|
  {
    var m := |clocks| - 1;
    var mid := UpsertAll(rows, spend, clocks[..m]);
    LastSoFar(clocks, k);
    ImprovingKeepsOneEach(rows, spend, clocks[..m]);
    RecordingShows(mid, spend, clocks[m]);
    if k < m {
      ImprovingShows(rows, spend, clocks[..m], k);
    }
  }

  lemma {:induction false} StartingShows(st: State, spend: nat, channel: nat, clocks: seq<Clock>, k: int)
    requires OneEach(st.rows) && spend != 0 && LastOfKind(clocks, k)
    ensures AllShow(StartAll(st, spend, channel, clocks).rows, spend, clocks[k])
    decreases |clocks|
  {
    var m := |clocks| - 1;
    var mid := StartAll(st, spend, channel, clocks[..m]);
    LastSoFar(clocks, k);
    StartingKeepsOneEach(st, spend, channel, clocks[..m]);
    RecordingShows(mid.rows, spend, clocks[m]);
    StartIsToldIff(mid, spend, channel, clocks[m]);
    if k < m {
      StartingShows(st, spend, channel, clocks[..m], k);
    }
    FirstTierShows(Upsert(mid.rows, spend, clocks[m]).0, Upsert(mid.rows, spend, clocks[m]).1, spend, clocks[k]);
  }

  /**
    After any run, better figures for a close, and the figures of a close just confirmed,
    are the ones its clocks show: of several for one kind, the last.
   */
  lemma LastFiguresStand(rows: seq<Deadline>, evs: seq<Event>, spend: nat, channel: nat, clocks: seq<Clock>, k: int)
    requires OneEach(rows) && spend != 0 && LastOfKind(clocks, k)
    ensures var st := Run(State(rows, 0, []), evs);
            && AllShow(Next(st, Improved(spend, clocks)).rows, spend, clocks[k])
            && AllShow(Next(st, Confirmed(spend, channel, clocks)).rows, spend, clocks[k])
            && Next(st, Improved(spend, clocks)).notes == st.notes
  {
    var st := Run(State(rows, 0, []), evs);
    RunKeepsOneEach(State(rows, 0, []), evs);
    ImprovingShows(st.rows, spend, clocks, k);
    StartingShows(st, spend, channel, clocks, k);
  }

  // ---- one block, one clock

  /**
    What a new block does to a clock that is counting, and what is said of it: nothing while
    its close is off the chain, until a hundred blocks have gone by; expiry at its height,
    a loss unless the commitment was our own; and otherwise the tier of the blocks left, if
    that is higher.
   */
  lemma BlockMeans(st: State, tip: int, spends: map<nat, Spend>, i: nat)
    requires i < |st.rows| && st.rows[i].progress == Counting && st.rows[i].spend in spends
    ensures var d, n, s := st.rows[i], Next(st, Extended(tip, spends)), spends[st.rows[i].spend];
            var left, window := d.height - tip, d.height - s.blockHeight;
            var tier := if window <= 0 then 1 else if 5 * left < window then 3 else if 2 * left < window then 2 else 1;
            && |n.rows| == |st.rows| && n.tip == tip
            && if s.reorgedOut && tip <= s.blockHeight + 100 then
                 n.rows[i] == d && About(n.notes, i) == About(st.notes, i)
               else if s.reorgedOut then
                 && n.rows[i] == d.(progress := Resolved, resolvedBy := None)
                 && About(n.notes, i) == About(st.notes, i) + [Settled(i, None)]
               else if tip >= d.height then
                 && n.rows[i] == d.(progress := Expired, resolvedBy := None)
                 && About(n.notes, i) == About(st.notes, i) + if s.shape == CommitmentOurs then [] else [Loss(i, s.channel)]
               else if tier > d.escalation then
                 && n.rows[i] == d.(escalation := tier)
                 && About(n.notes, i) == About(st.notes, i) + [Escalated(i, s.channel, tier, left)]
               else
                 n.rows[i] == d && About(n.notes, i) == About(st.notes, i)
  {
    var d, s := st.rows[i], spends[st.rows[i].spend];
    MovedRow(st, Extended(tip, spends), i);
    LevelInBlocks(Remaining(d.height, tip), d.height - s.blockHeight);
    assert About(st.notes, i) + [] == About(st.notes, i);
  }

  /** A clock that has stopped, or whose close is not known, is left alone by every block. */
  lemma BlockLeavesAlone(st: State, tip: int, spends: map<nat, Spend>, i: nat)
    requires i < |st.rows| && (st.rows[i].progress != Counting || st.rows[i].spend !in spends)
    ensures var n := Next(st, Extended(tip, spends));
            |n.rows| == |st.rows| && n.rows[i] == st.rows[i] && About(n.notes, i) == About(st.notes, i)
  {
    MovedRow(st, Extended(tip, spends), i);
  }

  /** A sweep in full: as ours it is collected under the transaction, otherwise it is a loss to the close's channel. */
  lemma SweepMeans(st: State, source: nat, txid: int, spends: map<nat, Spend>, i: nat)
    requires i < |st.rows| && source != 0 && source in spends
    requires st.rows[i].spend == source && st.rows[i].kind == Csv && st.rows[i].progress == Counting
    ensures var d, n := st.rows[i], Next(st, Swept(source, txid, spends));
            && |n.rows| == |st.rows|
            && if spends[source].shape == CommitmentOurs then
                 && n.rows[i] == d.(progress := Resolved, resolvedBy := Some(txid))
                 && About(n.notes, i) == About(st.notes, i) + [Settled(i, Some(txid))]
               else
                 && n.rows[i] == d.(progress := Expired, resolvedBy := None)
                 && About(n.notes, i) == About(st.notes, i) + [Loss(i, spends[source].channel)]
  {
    MovedRow(st, Swept(source, txid, spends), i);
  }

  /** An answer or a sweep of no known close moves nothing. */
  lemma NoCloseMovesNothing(st: State, txid: int, spends: map<nat, Spend>, source: nat, i: nat)
    requires i < |st.rows|
    ensures var n := Next(st, Answered(0, txid));
            |n.rows| == |st.rows| && n.rows[i] == st.rows[i] && About(n.notes, i) == About(st.notes, i)
    ensures source == 0 || source !in spends ==>
              var n := Next(st, Swept(source, txid, spends));
              |n.rows| == |st.rows| && n.rows[i] == st.rows[i] && About(n.notes, i) == About(st.notes, i)
  {
    MovedRow(st, Answered(0, txid), i);
    MovedRow(st, Swept(source, txid, spends), i);
  }
}
