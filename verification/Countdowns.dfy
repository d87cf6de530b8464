/**
  The countdown engine: deadlines in a table, moved on by new blocks, by somebody answering
  them, and by better figures arriving. Each handler is a method over the engine's fields,
  proved to do to every row what that row's own rule says.
 */
module Countdowns {
  import opened Options

  const LEVEL_DETECTED := 1
  const LEVEL_HALF := 2
  const LEVEL_URGENT := 3
  const REORG_PATIENCE_BLOCKS := 100

  datatype Kind = Csv | HtlcIncoming | HtlcOutgoing

  datatype Progress = Counting | Resolved | Expired

  datatype Shape = CommitmentOurs | CommitmentUnknown | CommitmentRevoked | OtherShape

  /** A close, as the engine reads it back from storage. */
  datatype Spend = Spend(channel: nat, blockHeight: int, shape: Shape, reorgedOut: bool)

  /** A clock running against one close. Its id is its place in the table. */
  datatype Deadline = Deadline(
    spend: nat, kind: Kind, height: int, progress: Progress, escalation: int, assumed: bool, resolvedBy: Option<int>)

  /** A clock somebody worked out for a close. */
  datatype Clock = Clock(kind: Kind, height: int, assumed: bool)

  datatype Note =
    | Escalated(id: nat, channel: nat, level: int, remaining: int)
    | Loss(id: nat, channel: nat)
    | Settled(id: nat, txid: Option<int>)

  datatype State = State(rows: seq<Deadline>, tip: int, notes: seq<Note>)

  function Remaining(deadline: int, tip: int): int {
    if tip >= deadline then 0 else deadline - tip
  }

  function Level(remaining: int, window: int): int {
    if remaining <= 0 then LEVEL_URGENT
    else if window <= 0 then LEVEL_DETECTED
    else
      var fraction := remaining as real / window as real;
      if fraction < 0.2 then LEVEL_URGENT else if fraction < 0.5 then LEVEL_HALF else LEVEL_DETECTED
  }

  // ---- what one row does

  datatype Event =
    | Extended(tip: int, spends: map<nat, Spend>)
    | Confirmed(spend: nat, channel: nat, clocks: seq<Clock>)
    | Improved(spend: nat, clocks: seq<Clock>)
    | Answered(source: nat, txid: int)
    | Swept(source: nat, txid: int, spends: map<nat, Spend>)

  datatype Move = Stay | Raise(channel: nat, level: int) | RunOut(spend: Spend) | Settle(txid: Option<int>)

  /** Whether, and how, an event moves a row on. */
  function MoveOn(ev: Event, d: Deadline, tip: int): Move {
    if d.progress != Counting then Stay
    else match ev
      case Extended(_, spends) =>
        if d.spend !in spends then Stay
        else
          var s := spends[d.spend];
          if s.reorgedOut then (if tip - s.blockHeight > REORG_PATIENCE_BLOCKS then Settle(None) else Stay)
          else if Remaining(d.height, tip) == 0 then RunOut(s)
          else
            var level := Level(Remaining(d.height, tip), d.height - s.blockHeight);
            if level > d.escalation then Raise(s.channel, level) else Stay
      case Answered(source, txid) =>
        if source == 0 || d.spend != source then Stay else Settle(Some(txid))
      case Swept(source, txid, spends) =>
        if source == 0 || source !in spends || d.spend != source || d.kind != Csv then Stay
        else if spends[source].shape == CommitmentOurs then Settle(Some(txid))
        else RunOut(spends[source])
      case Confirmed(_, _, _) => Stay
      case Improved(_, _) => Stay
  }

  function Applied(d: Deadline, m: Move): Deadline {
    match m
    case Stay => d
    case Raise(_, level) => if d.escalation < level then d.(escalation := level) else d
    case RunOut(_) => d.(progress := Expired, resolvedBy := None)
    case Settle(txid) => d.(progress := Resolved, resolvedBy := txid)
  }

  /** What is announced of it. A wait on our own commitment that runs out is not a loss. */
  function NoteOf(i: nat, d: Deadline, m: Move, tip: int): seq<Note> {
    match m
    case Stay => []
    case Raise(channel, level) => [Escalated(i, channel, level, Remaining(d.height, tip))]
    case RunOut(s) => if s.shape == CommitmentOurs then [] else [Loss(i, s.channel)]
    case Settle(txid) => [Settled(i, txid)]
  }

  function Put(st: State, i: nat, m: Move): State
    requires i < |st.rows|
  {
    st.(rows := st.rows[i := Applied(st.rows[i], m)], notes := st.notes + NoteOf(i, st.rows[i], m, st.tip))
  }

  // ---- the running clocks, soonest first

  predicate Below(order: seq<nat>, n: nat) {
    forall x :: 0 <= x < |order| ==> order[x] < n
  }

  predicate NoneTwice(order: seq<nat>) {
    forall x, y :: 0 <= x < y < |order| ==> order[x] != order[y]
  }

  /** After every clock due no later. */
  function Slot(rows: seq<Deadline>, sorted: seq<nat>, i: nat): (p: nat)
    requires i < |rows| && Below(sorted, |rows|)
    ensures p <= |sorted|
    decreases |sorted|
  {
    if sorted == [] || rows[i].height < rows[sorted[0]].height then 0 else 1 + Slot(rows, sorted[1..], i)
  }

  function InsertAt(sorted: seq<nat>, p: nat, i: nat): (r: seq<nat>)
    requires p <= |sorted|
    ensures |r| == |sorted| + 1
    ensures forall x :: 0 <= x < |r| ==> r[x] == if x < p then sorted[x] else if x == p then i else sorted[x - 1]
  {
    sorted[..p] + [i] + sorted[p..]
  }

  function Running(rows: seq<Deadline>, n: nat): (r: seq<nat>)
    requires n <= |rows|
    ensures Below(r, n)
    decreases n
  {
    if n == 0 then []
    else
      var sorted := Running(rows, n - 1);
      if rows[n - 1].progress != Counting then sorted
      else InsertAt(sorted, Slot(rows, sorted, n - 1), n - 1)
  }

  lemma InsertedOnce(sorted: seq<nat>, p: nat, i: nat)
    requires Below(sorted, i) && NoneTwice(sorted) && p <= |sorted|
    ensures NoneTwice(InsertAt(sorted, p, i))
  {}

  lemma InsertedHas(sorted: seq<nat>, p: nat, i: nat, k: nat)
    requires p <= |sorted|
    ensures k in InsertAt(sorted, p, i) <==> k == i || k in sorted
  {
    var r := InsertAt(sorted, p, i);
    assert r[p] == i;
    if x: nat :| x < |sorted| && sorted[x] == k {
      assert r[if x < p then x else x + 1] == k;
    }
  }

  ghost predicate Lists(rows: seq<Deadline>, n: nat, order: seq<nat>)
    requires n <= |rows|
  {
    && Below(order, n) && NoneTwice(order)
    && forall i: nat :: i < n ==> (i in order <==> rows[i].progress == Counting)
  }

  lemma OneMoreListed(rows: seq<Deadline>, n: nat, sorted: seq<nat>, p: nat)
    requires n < |rows| && Lists(rows, n, sorted) && rows[n].progress == Counting && p <= |sorted|
    ensures Lists(rows, n + 1, InsertAt(sorted, p, n))
  {
    InsertedOnce(sorted, p, n);
    forall i: nat | i < n + 1 ensures i in InsertAt(sorted, p, n) <==> rows[i].progress == Counting {
      InsertedHas(sorted, p, n, i);
    }
  }

  /** The listing names every running clock once, and no other. */
  lemma {:induction false} RunningLists(rows: seq<Deadline>, n: nat)
    requires n <= |rows|
    ensures Lists(rows, n, Running(rows, n))
    decreases n
  {
    if n > 0 {
      RunningLists(rows, n - 1);
      var sorted := Running(rows, n - 1);
      if rows[n - 1].progress == Counting {
        OneMoreListed(rows, n - 1, sorted, Slot(rows, sorted, n - 1));
      } else {
        assert n - 1 !in sorted;
      }
    }
  }

  function MovedNotes(rows: seq<Deadline>, moves: seq<Move>, order: seq<nat>, tip: int): seq<Note>
    requires Below(order, |rows|) && |moves| == |rows|
    decreases |order|
  {
    if order == [] then []
    else
      var n := |order| - 1;
      MovedNotes(rows, moves, order[..n], tip) + NoteOf(order[n], rows[order[n]], moves[order[n]], tip)
  }

  function MovesOn(st: State, ev: Event): (moves: seq<Move>)
    ensures |moves| == |st.rows|
  {
    seq(|st.rows|, i requires 0 <= i < |st.rows| => MoveOn(ev, st.rows[i], st.tip))
  }

  /** Every row moves by its own rule, and the running ones are heard of soonest first. */
  function MoveAll(st: State, ev: Event): State {
    var moves := MovesOn(st, ev);
    State(seq(|st.rows|, i requires 0 <= i < |st.rows| => Applied(st.rows[i], moves[i])),
          st.tip,
          st.notes + MovedNotes(st.rows, moves, Running(st.rows, |st.rows|), st.tip))
  }

  // ---- one pass over the running clocks

  /** The rows in the first k places of the order have moved, each has been told of, and nothing else has changed. */
  ghost predicate HalfMoved(before: State, now: State, moves: seq<Move>, order: seq<nat>, k: nat) {
    && |now.rows| == |before.rows| == |moves| && now.tip == before.tip
    && Below(order, |before.rows|) && NoneTwice(order) && k <= |order|
    && (forall x :: 0 <= x < k ==> now.rows[order[x]] == Applied(before.rows[order[x]], moves[order[x]]))
    && (forall i: nat :: i < |before.rows| && i !in order[..k] ==> now.rows[i] == before.rows[i])
    && now.notes == before.notes + MovedNotes(before.rows, moves, order[..k], before.tip)
  }

  lemma StayChangesNothing(st: State, i: nat)
    requires i < |st.rows|
    ensures Put(st, i, Stay) == st
  {
    assert st.rows[i := st.rows[i]] == st.rows;
  }

  lemma NotMovedYet(before: State, now: State, moves: seq<Move>, order: seq<nat>, k: nat)
    requires HalfMoved(before, now, moves, order, k) && k < |order|
    ensures order[k] < |now.rows| && now.rows[order[k]] == before.rows[order[k]]
  {
    assert order[k] !in order[..k];
  }

  lemma OneMoreMoved(before: State, now: State, moves: seq<Move>, order: seq<nat>, k: nat)
    requires HalfMoved(before, now, moves, order, k) && k < |order|
    ensures order[k] < |now.rows| && HalfMoved(before, Put(now, order[k], moves[order[k]]), moves, order, k + 1)
  {
    var i := order[k];
    NotMovedYet(before, now, moves, order, k);
    assert order[..k + 1][..k] == order[..k];
    assert order[..k + 1] == order[..k] + [i];
    assert forall x :: 0 <= x < k ==> order[x] != i;
  }

  lemma AllMoved(before: State, now: State, ev: Event)
    requires var order := Running(before.rows, |before.rows|); HalfMoved(before, now, MovesOn(before, ev), order, |order|)
    ensures now == MoveAll(before, ev)
  {
    var order, moves := Running(before.rows, |before.rows|), MovesOn(before, ev);
    RunningLists(before.rows, |before.rows|);
    assert order[..|order|] == order;
    forall i: nat | i < |before.rows| ensures now.rows[i] == Applied(before.rows[i], moves[i]) {
      if i in order {
        var x: nat :| x < |order| && order[x] == i;
      }
    }
    assert now.rows == MoveAll(before, ev).rows;
  }

  // ---- starting and improving

  function FindClock(rows: seq<Deadline>, spend: nat, kind: Kind): (found: Option<nat>)
    ensures found.Some? ==> found.value < |rows| && rows[found.value].spend == spend && rows[found.value].kind == kind
    ensures found.None? ==> forall i :: 0 <= i < |rows| ==> rows[i].spend != spend || rows[i].kind != kind
    decreases |rows|
  {
    if rows == [] then None
    else if rows[|rows| - 1].spend == spend && rows[|rows| - 1].kind == kind then Some(|rows| - 1)
    else FindClock(rows[..|rows| - 1], spend, kind)
  }

  /** An update in place moves the height and whether it is assumed, and nothing else. */
  function Upsert(rows: seq<Deadline>, spend: nat, c: Clock): (seq<Deadline>, Option<nat>) {
    if spend == 0 then (rows, None)
    else match FindClock(rows, spend, c.kind)
      case None => (rows + [Deadline(spend, c.kind, c.height, Counting, LEVEL_DETECTED, c.assumed, None)], Some(|rows|))
      case Some(i) =>
        if rows[i].height == c.height && rows[i].assumed == c.assumed then (rows, None)
        else (rows[i := rows[i].(height := c.height, assumed := c.assumed)], Some(i))
  }

  /** The second part is the row that changed, if one did. */
  function Start(st: State, spend: nat, channel: nat, c: Clock): State {
    var (rows, changed) := Upsert(st.rows, spend, c);
    if changed.None? || changed.value >= |rows| then st.(rows := rows)
    else Put(st.(rows := rows), changed.value, Raise(channel, LEVEL_DETECTED))
  }

  function StartAll(st: State, spend: nat, channel: nat, clocks: seq<Clock>): State
    decreases |clocks|
  {
    if clocks == [] then st
    else Start(StartAll(st, spend, channel, clocks[..|clocks| - 1]), spend, channel, clocks[|clocks| - 1])
  }

  function UpsertAll(rows: seq<Deadline>, spend: nat, clocks: seq<Clock>): seq<Deadline>
    decreases |clocks|
  {
    if clocks == [] then rows else Upsert(UpsertAll(rows, spend, clocks[..|clocks| - 1]), spend, clocks[|clocks| - 1]).0
  }

  function Next(st: State, ev: Event): State {
    match ev
    case Extended(tip, _) => MoveAll(st.(tip := tip), ev)
    case Confirmed(spend, channel, clocks) => StartAll(st, spend, channel, clocks)
    case Improved(spend, clocks) => st.(rows := UpsertAll(st.rows, spend, clocks))
    case Answered(_, _) => MoveAll(st, ev)
    case Swept(_, _, _) => MoveAll(st, ev)
  }

  // ---- the engine in place

  class Engine {
    var rows: seq<Deadline>
    var tip: int
    var notes: seq<Note>

    function Value(): State
      reads this
    {
      State(rows, tip, notes)
    }

    constructor (rows: seq<Deadline>)
      ensures Value() == State(rows, 0, [])
    {
      this.rows, tip, notes := rows, 0, [];
    }

    method EscalateTo(i: nat, channel: nat, level: int)
      requires i < |rows|
      modifies this
      ensures Value() == Put(old(Value()), i, Raise(channel, level))
    {
      if rows[i].escalation < level {
        rows := rows[i := rows[i].(escalation := level)];
      }
      notes := notes + [Escalated(i, channel, level, Remaining(rows[i].height, tip))];
    }

    method Expire(i: nat, spend: Spend)
      requires i < |rows|
      modifies this
      ensures Value() == Put(old(Value()), i, RunOut(spend))
    {
      rows := rows[i := rows[i].(progress := Expired, resolvedBy := None)];
      if spend.shape == CommitmentOurs {
        return;
      }
      notes := notes + [Loss(i, spend.channel)];
    }

    method Resolve(i: nat, txid: Option<int>)
      requires i < |rows|
      modifies this
      ensures Value() == Put(old(Value()), i, Settle(txid))
    {
      rows := rows[i := rows[i].(progress := Resolved, resolvedBy := txid)];
      notes := notes + [Settled(i, txid)];
    }

    /** Re-reads every running countdown against the new tip. */
    method Advance(spends: map<nat, Spend>)
      modifies this
      ensures Value() == MoveAll(old(Value()), Extended(tip, spends))
    {
      var running := Running(rows, |rows|);
      RunningLists(rows, |rows|);
      ghost var before, ev := Value(), Extended(tip, spends);
      var k := 0;
      while k < |running|
        invariant 0 <= k <= |running| && HalfMoved(before, Value(), MovesOn(before, ev), running, k)
      {
        NotMovedYet(before, Value(), MovesOn(before, ev), running, k);
        OneMoreMoved(before, Value(), MovesOn(before, ev), running, k);
        assert running[k] in running;
        AdvanceOne(running[k], spends);
        k := k + 1;
      }
      AllMoved(before, Value(), ev);
    }

    method AdvanceOne(i: nat, spends: map<nat, Spend>)
      requires i < |rows| && rows[i].progress == Counting
      modifies this
      ensures Value() == Put(old(Value()), i, MoveOn(Extended(tip, spends), old(rows[i]), tip))
    {
      StayChangesNothing(Value(), i);
      var d := rows[i];
      if d.spend !in spends {
        return;
      }
      var spend := spends[d.spend];
      if spend.reorgedOut {
        if tip - spend.blockHeight > REORG_PATIENCE_BLOCKS {
          Resolve(i, None);
        }
        return;
      }
      var remaining := Remaining(d.height, tip);
      if remaining == 0 {
        Expire(i, spend);
        return;
      }
      var level := Level(remaining, d.height - spend.blockHeight);
      if level > d.escalation {
        EscalateTo(i, spend.channel, level);
      }
    }

    method OnBranchExtended(newTip: int, spends: map<nat, Spend>)
      modifies this
      ensures Value() == Next(old(Value()), Extended(newTip, spends))
    {
      tip := newTip;
      Advance(spends);
    }

    /** Somebody answered the breach. */
    method OnJustice(source: nat, txid: int)
      modifies this
      ensures Value() == Next(old(Value()), Answered(source, txid))
    {
      var running := Running(rows, |rows|);
      RunningLists(rows, |rows|);
      ghost var before, ev := Value(), Answered(source, txid);
      var k := 0;
      while k < |running|
        invariant 0 <= k <= |running| && HalfMoved(before, Value(), MovesOn(before, ev), running, k)
      {
        NotMovedYet(before, Value(), MovesOn(before, ev), running, k);
        OneMoreMoved(before, Value(), MovesOn(before, ev), running, k);
        assert running[k] in running;
        AnswerOne(running[k], source, txid);
        k := k + 1;
      }
      AllMoved(before, Value(), ev);
    }

    method AnswerOne(i: nat, source: nat, txid: int)
      requires i < |rows| && rows[i].progress == Counting
      modifies this
      ensures Value() == Put(old(Value()), i, MoveOn(Answered(source, txid), old(rows[i]), tip))
    {
      StayChangesNothing(Value(), i);
      if source == 0 || rows[i].spend != source {
        return;
      }
      Resolve(i, Some(txid));
    }

    /** The contested output was taken, by whoever's delay it was. */
    method SettleBySweep(source: nat, txid: int, spends: map<nat, Spend>)
      modifies this
      ensures Value() == Next(old(Value()), Swept(source, txid, spends))
    {
      var running := Running(rows, |rows|);
      RunningLists(rows, |rows|);
      ghost var before, ev := Value(), Swept(source, txid, spends);
      var k := 0;
      while k < |running|
        invariant 0 <= k <= |running| && HalfMoved(before, Value(), MovesOn(before, ev), running, k)
      {
        NotMovedYet(before, Value(), MovesOn(before, ev), running, k);
        OneMoreMoved(before, Value(), MovesOn(before, ev), running, k);
        assert running[k] in running;
        SettleOne(running[k], source, txid, spends);
        k := k + 1;
      }
      AllMoved(before, Value(), ev);
    }

    method SettleOne(i: nat, source: nat, txid: int, spends: map<nat, Spend>)
      requires i < |rows| && rows[i].progress == Counting
      modifies this
      ensures Value() == Put(old(Value()), i, MoveOn(Swept(source, txid, spends), old(rows[i]), tip))
    {
      StayChangesNothing(Value(), i);
      if source == 0 || source !in spends || rows[i].spend != source || rows[i].kind != Csv {
        return;
      }
      if spends[source].shape == CommitmentOurs {
        Resolve(i, Some(txid));
        return;
      }
      Expire(i, spends[source]);
    }

    method UpsertDeadline(spend: nat, c: Clock) returns (changed: Option<nat>)
      modifies this`rows
      ensures rows == Upsert(old(rows), spend, c).0 && changed == Upsert(old(rows), spend, c).1
      ensures changed.Some? ==> changed.value < |rows|
    {
      if spend == 0 {
        return None;
      }
      var found := FindClock(rows, spend, c.kind);
      if found.None? {
        rows := rows + [Deadline(spend, c.kind, c.height, Counting, LEVEL_DETECTED, c.assumed, None)];
        return Some(|rows| - 1);
      }
      var d := rows[found.value];
      if d.height == c.height && d.assumed == c.assumed {
        return None;
      }
      rows := rows[found.value := d.(height := c.height, assumed := c.assumed)];
      return found;
    }

    method OnFundingSpent(spend: nat, channel: nat, clocks: seq<Clock>)
      modifies this
      ensures Value() == Next(old(Value()), Confirmed(spend, channel, clocks))
    {
      var k := 0;
      while k < |clocks|
        invariant 0 <= k <= |clocks|
        invariant Value() == StartAll(old(Value()), spend, channel, clocks[..k])
      {
        assert clocks[..k + 1][..k] == clocks[..k];
        var changed := UpsertDeadline(spend, clocks[k]);
        if changed.Some? {
          EscalateTo(changed.value, channel, LEVEL_DETECTED);
        }
        k := k + 1;
      }
      assert clocks[..k] == clocks;
    }

    method OnChannelUpserted(spend: nat, clocks: seq<Clock>)
      modifies this
      ensures Value() == Next(old(Value()), Improved(spend, clocks))
    {
      var k := 0;
      while k < |clocks|
        invariant 0 <= k <= |clocks| && tip == old(tip) && notes == old(notes)
        invariant rows == UpsertAll(old(rows), spend, clocks[..k])
      {
        assert clocks[..k + 1][..k] == clocks[..k];
        var _ := UpsertDeadline(spend, clocks[k]);
        k := k + 1;
      }
      assert clocks[..k] == clocks;
    }
  }
}
