/** What the countdowns promise over any run of events, in whatever order blocks arrive. */
module CountdownRuns {
  import opened Options
  import opened Countdowns

  function Run(st: State, evs: seq<Event>): State
    decreases |evs|
  {
    if evs == [] then st else Next(Run(st, evs[..|evs| - 1]), evs[|evs| - 1])
  }

  /** What was announced of one deadline. */
  function About(notes: seq<Note>, i: nat): seq<Note>
    decreases |notes|
  {
    if notes == [] then []
    else About(notes[..|notes| - 1], i) + if notes[|notes| - 1].id == i then [notes[|notes| - 1]] else []
  }

  lemma {:induction false} AboutMore(notes: seq<Note>, more: seq<Note>, i: nat)
    ensures About(notes + more, i) == About(notes, i) + About(more, i)
    decreases |more|
  {
    if more == [] {
      assert notes + more == notes;
    } else {
      var n := |more| - 1;
      assert (notes + more)[..|notes| + n] == notes + more[..n];
      AboutMore(notes, more[..n], i);
    }
  }

  lemma AboutOne(i: nat, k: nat, d: Deadline, m: Move, tip: int)
    ensures About(NoteOf(k, d, m, tip), i) == if i == k then NoteOf(k, d, m, tip) else []
  {
    var notes := NoteOf(k, d, m, tip);
    if |notes| == 1 {
      assert notes[..0] == [];
      assert About(notes[..0], i) == [];
    }
  }

  lemma LastIsNew(order: seq<nat>, n: nat)
    requires order != [] && Below(order, n) && NoneTwice(order)
    ensures var m := |order| - 1;
            && Below(order[..m], n) && NoneTwice(order[..m]) && order[m] !in order[..m]
            && forall i: nat :: i in order <==> i in order[..m] || i == order[m]
  {
    var m := |order| - 1;
    assert order == order[..m] + [order[m]];
  }

  lemma {:induction false} AboutMoved(rows: seq<Deadline>, moves: seq<Move>, order: seq<nat>, tip: int, i: nat)
    requires Below(order, |rows|) && NoneTwice(order) && |moves| == |rows| && i < |rows|
    ensures About(MovedNotes(rows, moves, order, tip), i) == if i in order then NoteOf(i, rows[i], moves[i], tip) else []
    decreases |order|
  {
    if order != [] {
      var n := |order| - 1;
      var k := order[n];
      LastIsNew(order, |rows|);
      AboutMoved(rows, moves, order[..n], tip, i);
      AboutMore(MovedNotes(rows, moves, order[..n], tip), NoteOf(k, rows[k], moves[k], tip), i);
      AboutOne(i, k, rows[k], moves[k], tip);
    }
  }

  lemma {:induction false} AboutNobody(rows: seq<Deadline>, moves: seq<Move>, order: seq<nat>, tip: int, i: nat)
    requires Below(order, |rows|) && |moves| == |rows| && i >= |rows|
    ensures About(MovedNotes(rows, moves, order, tip), i) == []
    decreases |order|
  {
    if order != [] {
      var n := |order| - 1;
      AboutNobody(rows, moves, order[..n], tip, i);
      AboutMore(MovedNotes(rows, moves, order[..n], tip), NoteOf(order[n], rows[order[n]], moves[order[n]], tip), i);
      AboutOne(i, order[n], rows[order[n]], moves[order[n]], tip);
    }
  }

  // ---- one event, one row

  predicate Moving(ev: Event) {
    ev.Extended? || ev.Answered? || ev.Swept?
  }

  function TipAt(st: State, ev: Event): int {
    if ev.Extended? then ev.tip else st.tip
  }

  /** An event that moves clocks does to each what its own rule says, and announces just that. */
  lemma MovedRow(st: State, ev: Event, i: nat)
    requires Moving(ev)
    ensures |Next(st, ev).rows| == |st.rows|
    ensures i < |st.rows| ==>
              var m := MoveOn(ev, st.rows[i], TipAt(st, ev));
              && Next(st, ev).rows[i] == Applied(st.rows[i], m)
              && About(Next(st, ev).notes, i) == About(st.notes, i) + NoteOf(i, st.rows[i], m, TipAt(st, ev))
    ensures i >= |st.rows| ==> About(Next(st, ev).notes, i) == About(st.notes, i)
  {
    var now := st.(tip := TipAt(st, ev));
    var order, moves := Running(now.rows, |now.rows|), MovesOn(now, ev);
    assert Next(st, ev) == MoveAll(now, ev);
    RunningLists(now.rows, |now.rows|);
    AboutMore(now.notes, MovedNotes(now.rows, moves, order, now.tip), i);
    if i < |st.rows| {
      AboutMoved(now.rows, moves, order, now.tip, i);
    } else {
      AboutNobody(now.rows, moves, order, now.tip, i);
    }
  }

  /** What nothing but a move on the clock changes. */
  predicate SameClock(d: Deadline, e: Deadline) {
    d.spend == e.spend && d.kind == e.kind && d.progress == e.progress && d.resolvedBy == e.resolvedBy
  }

  predicate Names(spend: nat, clocks: seq<Clock>, d: Deadline) {
    d.spend == spend && exists k :: 0 <= k < |clocks| && clocks[k].kind == d.kind
  }

  /** Better figures leave state and tier alone. */
  lemma UpsertedRow(rows: seq<Deadline>, spend: nat, c: Clock, i: nat)
    ensures var (n, changed) := Upsert(rows, spend, c);
            && |rows| <= |n| && (changed.Some? ==> changed.value < |n|)
            && (i < |rows| ==>
                  && SameClock(rows[i], n[i]) && n[i].escalation == rows[i].escalation
                  && (n[i].height == rows[i].height || n[i].height == c.height)
                  && (rows[i].spend != spend || rows[i].kind != c.kind ==> n[i] == rows[i] && changed != Some(i))
                  && (n[i].height != rows[i].height ==> rows[i].spend == spend && rows[i].kind == c.kind))
  {}

  lemma {:induction false} ImprovedRow(rows: seq<Deadline>, spend: nat, clocks: seq<Clock>, i: nat)
    requires i < |rows|
    ensures var n := UpsertAll(rows, spend, clocks);
            && |rows| <= |n| && SameClock(rows[i], n[i]) && n[i].escalation == rows[i].escalation
            && (n[i].height == rows[i].height || (rows[i].spend == spend
                  && exists k :: 0 <= k < |clocks| && clocks[k].kind == rows[i].kind && clocks[k].height == n[i].height))
    decreases |clocks|
  {
    if clocks != [] {
      var m := |clocks| - 1;
      ImprovedRow(rows, spend, clocks[..m], i);
      var mid := UpsertAll(rows, spend, clocks[..m]);
      UpsertedRow(mid, spend, clocks[m], i);
      if k :| 0 <= k < m && clocks[..m][k].kind == rows[i].kind && clocks[..m][k].height == mid[i].height {
        assert clocks[k].kind == rows[i].kind && clocks[k].height == mid[i].height;
      }
    }
  }

  lemma PutRow(st: State, k: nat, m: Move, i: nat)
    requires k < |st.rows|
    ensures About(Put(st, k, m).notes, i)
         == if i == k then About(st.notes, i) + NoteOf(k, st.rows[k], m, st.tip) else About(st.notes, i)
  {
    AboutMore(st.notes, NoteOf(k, st.rows[k], m, st.tip), i);
    AboutOne(i, k, st.rows[k], m, st.tip);
  }

  /** Starting a clock announces it once, at the first tier, and never loses a row or a tier. */
  lemma StartedRow(st: State, spend: nat, channel: nat, c: Clock, i: nat)
    ensures var n := Start(st, spend, channel, c);
            && |st.rows| <= |n.rows| && n.tip == st.tip
            && (i < |st.rows| ==> SameClock(st.rows[i], n.rows[i]))
            && (i < |st.rows| && (st.rows[i].spend != spend || st.rows[i].kind != c.kind) ==>
                  n.rows[i] == st.rows[i] && About(n.notes, i) == About(st.notes, i))
            && Losses(About(n.notes, i)) == Losses(About(st.notes, i))
  {
    UpsertedRow(st.rows, spend, c, i);
    var (rows, changed) := Upsert(st.rows, spend, c);
    if changed.Some? {
      var mid, m := st.(rows := rows), Raise(channel, LEVEL_DETECTED);
      PutRow(mid, changed.value, m, i);
      ToldOf(About(st.notes, i), changed.value, rows[changed.value], m, st.tip);
    }
  }

  lemma {:induction false} ConfirmedRow(st: State, spend: nat, channel: nat, clocks: seq<Clock>, i: nat)
    ensures var n := StartAll(st, spend, channel, clocks);
            && |st.rows| <= |n.rows|
            && (i < |st.rows| ==> SameClock(st.rows[i], n.rows[i]))
            && (i < |st.rows| && !Names(spend, clocks, st.rows[i]) ==>
                  n.rows[i] == st.rows[i] && About(n.notes, i) == About(st.notes, i))
            && Losses(About(n.notes, i)) == Losses(About(st.notes, i))
    decreases |clocks|
  {
    if clocks != [] {
      var m := |clocks| - 1;
      ConfirmedRow(st, spend, channel, clocks[..m], i);
      StartedRow(StartAll(st, spend, channel, clocks[..m]), spend, channel, clocks[m], i);
      if i < |st.rows| && !Names(spend, clocks, st.rows[i]) {
        assert !Names(spend, clocks[..m], st.rows[i]) by {
          assert forall k :: 0 <= k < m ==> clocks[..m][k].kind == clocks[k].kind;
        }
      }
    }
  }

  // ---- losses

  function Losses(notes: seq<Note>): nat
    decreases |notes|
  {
    if notes == [] then 0 else Losses(notes[..|notes| - 1]) + if notes[|notes| - 1].Loss? then 1 else 0
  }

  lemma LossesMore(notes: seq<Note>, more: seq<Note>)
    requires |more| <= 1
    ensures Losses(notes + more) == Losses(notes) + if more != [] && more[0].Loss? then 1 else 0
  {
    if more == [] {
      assert notes + more == notes;
    } else {
      assert (notes + more)[..|notes|] == notes;
    }
  }

  /** What one move adds to the losses and the tiers announced. */
  lemma ToldOf(notes: seq<Note>, i: nat, d: Deadline, m: Move, tip: int)
    ensures Losses(notes + NoteOf(i, d, m, tip)) == Losses(notes) + if m.RunOut? && m.spend.shape != CommitmentOurs then 1 else 0
    ensures Levels(notes + NoteOf(i, d, m, tip)) == Levels(notes) + if m.Raise? then [m.level] else []
  {
    LossesMore(notes, NoteOf(i, d, m, tip));
    LevelsMore(notes, NoteOf(i, d, m, tip));
  }

  function LossesOf(st: State, i: nat): nat {
    Losses(About(st.notes, i))
  }

  /** One event: a clock that has stopped stays as it is, and a loss is announced only as one expires. */
  lemma NextRow(st: State, ev: Event, i: nat)
    ensures var n := Next(st, ev);
            && |st.rows| <= |n.rows|
            && (i < |st.rows| ==>
                  && n.rows[i].spend == st.rows[i].spend && n.rows[i].kind == st.rows[i].kind
                  && (st.rows[i].progress != Counting ==> SameClock(st.rows[i], n.rows[i]))
                  && LossesOf(n, i) <= LossesOf(st, i) + 1
                  && (LossesOf(n, i) != LossesOf(st, i) ==>
                        st.rows[i].progress == Counting && n.rows[i].progress == Expired))
            && (i >= |st.rows| ==> LossesOf(n, i) == LossesOf(st, i))
  {
    match ev
    case Confirmed(spend, channel, clocks) => ConfirmedRow(st, spend, channel, clocks, i);
    case Improved(spend, clocks) =>
      ImprovedLength(st.rows, spend, clocks);
      if i < |st.rows| {
        ImprovedRow(st.rows, spend, clocks, i);
      }
    case Extended(_, _) => MovedLosses(st, ev, i);
    case Answered(_, _) => MovedLosses(st, ev, i);
    case Swept(_, _, _) => MovedLosses(st, ev, i);
  }

  lemma {:induction false} ImprovedLength(rows: seq<Deadline>, spend: nat, clocks: seq<Clock>)
    ensures |rows| <= |UpsertAll(rows, spend, clocks)|
    decreases |clocks|
  {
    if clocks != [] {
      ImprovedLength(rows, spend, clocks[..|clocks| - 1]);
    }
  }

  lemma MovedLosses(st: State, ev: Event, i: nat)
    requires Moving(ev)
    ensures i < |st.rows| ==>
              var m := MoveOn(ev, st.rows[i], TipAt(st, ev));
              LossesOf(Next(st, ev), i) == LossesOf(st, i) + if m.RunOut? && m.spend.shape != CommitmentOurs then 1 else 0
    ensures i >= |st.rows| ==> LossesOf(Next(st, ev), i) == LossesOf(st, i)
    ensures |Next(st, ev).rows| == |st.rows|
    ensures i < |st.rows| ==> Next(st, ev).rows[i] == Applied(st.rows[i], MoveOn(ev, st.rows[i], TipAt(st, ev)))
  {
    MovedRow(st, ev, i);
    if i < |st.rows| {
      ToldOf(About(st.notes, i), i, st.rows[i], MoveOn(ev, st.rows[i], TipAt(st, ev)), TipAt(st, ev));
    }
  }

  /** No row is ever lost, and a deadline that has been resolved or has expired stays that way for good. */
  lemma {:induction false} OutcomesAreFinal(st: State, evs: seq<Event>, i: nat)
    requires i < |st.rows|
    ensures var n := Run(st, evs);
            && i < |n.rows| && n.rows[i].spend == st.rows[i].spend && n.rows[i].kind == st.rows[i].kind
            && (st.rows[i].progress != Counting ==> SameClock(st.rows[i], n.rows[i]))
    decreases |evs|
  {
    if evs != [] {
      OutcomesAreFinal(st, evs[..|evs| - 1], i);
      NextRow(Run(st, evs[..|evs| - 1]), evs[|evs| - 1], i);
    }
  }

  /** Whatever happens, a loss is announced at most once for a deadline, and only for one that expired. */
  lemma {:induction false} LossAtMostOnce(st: State, evs: seq<Event>, i: nat)
    requires st.notes == []
    ensures var n := Run(st, evs);
            LossesOf(n, i) <= if i < |n.rows| && n.rows[i].progress == Expired then 1 else 0
    decreases |evs|
  {
    if evs != [] {
      LossAtMostOnce(st, evs[..|evs| - 1], i);
      NextRow(Run(st, evs[..|evs| - 1]), evs[|evs| - 1], i);
    }
  }

  /** As far as an event reads it, the close is our own commitment. */
  predicate Ours(ev: Event, spend: nat) {
    (ev.Extended? || ev.Swept?) && spend in ev.spends ==> ev.spends[spend].shape == CommitmentOurs
  }

  /** Running out of our own delay is never announced as a loss. */
  lemma {:induction false} OursIsNeverALoss(st: State, evs: seq<Event>, i: nat)
    requires i < |st.rows| && forall k :: 0 <= k < |evs| ==> Ours(evs[k], st.rows[i].spend)
    ensures LossesOf(Run(st, evs), i) == LossesOf(st, i)
    decreases |evs|
  {
    if evs != [] {
      var n := |evs| - 1;
      var mid := Run(st, evs[..n]);
      OursIsNeverALoss(st, evs[..n], i);
      OutcomesAreFinal(st, evs[..n], i);
      assert Ours(evs[n], mid.rows[i].spend);
      match evs[n] {
        case Confirmed(spend, channel, clocks) => ConfirmedRow(mid, spend, channel, clocks, i);
        case Improved(_, _) =>
        case Extended(_, _) => MovedLosses(mid, evs[n], i);
        case Answered(_, _) => MovedLosses(mid, evs[n], i);
        case Swept(_, _, _) => MovedLosses(mid, evs[n], i);
      }
    }
  }

  /** Once the watched chain reaches a deadline whose close is on it, that deadline is no longer counting. */
  lemma ReachedIsSettled(st: State, tip: int, spends: map<nat, Spend>, i: nat)
    requires i < |st.rows| && st.rows[i].spend in spends && !spends[st.rows[i].spend].reorgedOut
    ensures var n := Next(st, Extended(tip, spends));
            && (tip >= st.rows[i].height ==> n.rows[i].progress != Counting)
            && (tip < st.rows[i].height ==> n.rows[i].progress == st.rows[i].progress)
            && LossesOf(n, i) - LossesOf(st, i) ==
                 if st.rows[i].progress == Counting && tip >= st.rows[i].height
                    && spends[st.rows[i].spend].shape != CommitmentOurs then 1 else 0
  {
    MovedLosses(st, Extended(tip, spends), i);
  }

  // ---- tiers

  lemma FractionBelow(r: real, w: real, f: real)
    requires w > 0.0
    ensures r / w < f <==> r < f * w
  {
    var q := r / w;
    assert q * w == r;
    ScaledBelow(q, f, w);
  }

  lemma ScaledBelow(a: real, b: real, w: real)
    requires w > 0.0
    ensures a < b <==> a * w < b * w
  {
    if a < b {
      assert (b - a) * w > 0.0;
    } else {
      assert (a - b) * w >= 0.0;
    }
  }

  /** A tier in whole blocks: a fifth and a half of the window. */
  lemma LevelInBlocks(remaining: int, window: int)
    ensures Level(remaining, window) ==
              if remaining <= 0 then LEVEL_URGENT
              else if window <= 0 then LEVEL_DETECTED
              else if 5 * remaining < window then LEVEL_URGENT
              else if 2 * remaining < window then LEVEL_HALF
              else LEVEL_DETECTED
  {
    if remaining > 0 && window > 0 {
      FractionBelow(remaining as real, window as real, 0.2);
      FractionBelow(remaining as real, window as real, 0.5);
    }
  }

  function Max(a: int, b: int): int {
    if a < b then b else a
  }

  /** Fewer blocks left never means a lower tier. */
  lemma LevelOfTheHigherTip(height: int, window: int, t: int, u: int)
    requires t < height && u < height
    ensures Level(Remaining(height, Max(t, u)), window)
         == Max(Level(Remaining(height, t), window), Level(Remaining(height, u), window))
  {
    LevelInBlocks(Remaining(height, t), window);
    LevelInBlocks(Remaining(height, u), window);
  }

  function HighestTip(evs: seq<Event>): Option<int>
    decreases |evs|
  {
    if evs == [] then None
    else
      var before, last := HighestTip(evs[..|evs| - 1]), evs[|evs| - 1];
      if !last.Extended? then before
      else if before.None? then Some(last.tip)
      else Some(Max(before.value, last.tip))
  }

  /** The close stays on the chain at one height, the deadline keeps its height, and it is not started again. */
  predicate Steady(ev: Event, d: Deadline, blockHeight: int) {
    match ev
    case Extended(_, spends) =>
      d.spend in spends && !spends[d.spend].reorgedOut && spends[d.spend].blockHeight == blockHeight
    case Confirmed(spend, _, clocks) => !Names(spend, clocks, d)
    case Improved(spend, clocks) =>
      d.spend == spend ==> forall k :: 0 <= k < |clocks| && clocks[k].kind == d.kind ==> clocks[k].height == d.height
    case Answered(_, _) => true
    case Swept(_, _, _) => true
  }

  /** The tier a deadline has when the highest block seen is tip. */
  function TierAt(d: Deadline, blockHeight: int, tip: Option<int>): int {
    if tip.None? then d.escalation
    else Max(d.escalation, Level(Remaining(d.height, tip.value), d.height - blockHeight))
  }

  /** What a new block does to the tier of a running deadline whose close is on the chain. */
  lemma SteadyExtended(d: Deadline, tip: int, spends: map<nat, Spend>, blockHeight: int)
    requires d.progress == Counting && Steady(Extended(tip, spends), d, blockHeight)
    ensures var e := Applied(d, MoveOn(Extended(tip, spends), d, tip));
            && SameClock(d, e.(progress := d.progress, resolvedBy := d.resolvedBy)) && e.height == d.height
            && (e.progress == Counting ==> tip < d.height && e.escalation == TierAt(d, blockHeight, Some(tip)))
  {
    assert spends[d.spend].blockHeight == blockHeight;
    var level := Level(Remaining(d.height, tip), d.height - blockHeight);
    if tip < d.height {
      assert MoveOn(Extended(tip, spends), d, tip) ==
        if level > d.escalation then Raise(spends[d.spend].channel, level) else Stay;
    }
  }

  lemma SteadyStep(st: State, ev: Event, i: nat, blockHeight: int)
    requires i < |st.rows| && st.rows[i].progress == Counting && Steady(ev, st.rows[i], blockHeight)
    ensures var d, n := st.rows[i], Next(st, ev);
            && i < |n.rows|
            && (n.rows[i].progress == Counting ==>
                  && n.rows[i].height == d.height && n.rows[i].spend == d.spend && n.rows[i].kind == d.kind
                  && (ev.Extended? ==> ev.tip < d.height)
                  && n.rows[i].escalation ==
                       TierAt(d, blockHeight, if ev.Extended? then Some(ev.tip) else None))
  {
    match ev
    case Confirmed(spend, channel, clocks) => ConfirmedRow(st, spend, channel, clocks, i);
    case Improved(spend, clocks) => ImprovedRow(st.rows, spend, clocks, i);
    case Extended(tip, spends) =>
      MovedRow(st, ev, i);
      SteadyExtended(st.rows[i], tip, spends, blockHeight);
    case Answered(_, _) => MovedRow(st, ev, i);
    case Swept(_, _, _) => MovedRow(st, ev, i);
  }

  lemma TierAtBoth(d: Deadline, e: Deadline, blockHeight: int, top: Option<int>, tip: int)
    requires e.height == d.height && e.escalation == TierAt(d, blockHeight, top)
    requires tip < d.height && (top.Some? ==> top.value < d.height)
    ensures TierAt(e, blockHeight, Some(tip)) == TierAt(d, blockHeight, Some(if top.None? then tip else Max(top.value, tip)))
  {
    if top.Some? {
      LevelOfTheHigherTip(d.height, d.height - blockHeight, top.value, tip);
    }
  }

  /** Still the same clock, at the tier of the highest block seen, which has not reached it. */
  predicate OnCourse(d: Deadline, e: Deadline, blockHeight: int, top: Option<int>) {
    && e.height == d.height && e.spend == d.spend && e.kind == d.kind
    && (top.Some? ==> top.value < d.height)
    && e.escalation == TierAt(d, blockHeight, top)
  }

  lemma OnCourseStep(st: State, ev: Event, i: nat, d: Deadline, blockHeight: int, evs: seq<Event>)
    requires i < |st.rows| && st.rows[i].progress == Counting && Steady(ev, d, blockHeight)
    requires OnCourse(d, st.rows[i], blockHeight, HighestTip(evs))
    ensures var n := Next(st, ev);
            i < |n.rows| && (n.rows[i].progress == Counting ==> OnCourse(d, n.rows[i], blockHeight, HighestTip(evs + [ev])))
  {
    assert (evs + [ev])[..|evs|] == evs;
    SteadyStep(st, ev, i, blockHeight);
    if ev.Extended? && ev.tip < d.height {
      TierAtBoth(d, st.rows[i], blockHeight, HighestTip(evs), ev.tip);
    }
  }

  /**
    A deadline that is still counting, with its close and height steady since it was
    started, has the tier of the highest block seen, in whatever order the blocks came.
   */
  lemma {:induction false} TierIsOfTheHighestTip(st: State, evs: seq<Event>, i: nat, blockHeight: int)
    requires i < |st.rows| && st.rows[i].progress == Counting
    requires forall k :: 0 <= k < |evs| ==> Steady(evs[k], st.rows[i], blockHeight)
    ensures var n := Run(st, evs);
            && i < |n.rows|
            && (n.rows[i].progress == Counting ==> OnCourse(st.rows[i], n.rows[i], blockHeight, HighestTip(evs)))
    decreases |evs|
  {
    if evs != [] {
      var n := |evs| - 1;
      TierIsOfTheHighestTip(st, evs[..n], i, blockHeight);
      var mid := Run(st, evs[..n]);
      OutcomesAreFinal(mid, [evs[n]], i);
      assert Run(mid, [evs[n]]) == Next(mid, evs[n]) by {
        assert [evs[n]][..0] == [];
      }
      if mid.rows[i].progress == Counting {
        assert evs[..n] + [evs[n]] == evs;
        OnCourseStep(mid, evs[n], i, st.rows[i], blockHeight, evs[..n]);
      }
    }
  }

  /** For a deadline that began at the first tier, that is the tier of the blocks left. */
  lemma TierIsOfTheBlocksLeft(st: State, evs: seq<Event>, i: nat, blockHeight: int)
    requires i < |st.rows| && st.rows[i].progress == Counting && st.rows[i].escalation == LEVEL_DETECTED
    requires forall k :: 0 <= k < |evs| ==> Steady(evs[k], st.rows[i], blockHeight)
    ensures var d, n, top := st.rows[i], Run(st, evs), HighestTip(evs);
            var tier := if top.None? then LEVEL_DETECTED else Level(Remaining(d.height, top.value), d.height - blockHeight);
            i < |n.rows| && (n.rows[i].progress == Counting ==> n.rows[i].escalation == tier)
  {
    TierIsOfTheHighestTip(st, evs, i, blockHeight);
    if top :| HighestTip(evs) == Some(top) {
      LevelInBlocks(Remaining(st.rows[i].height, top), st.rows[i].height - blockHeight);
    }
  }

  // ---- announced tiers

  function Levels(notes: seq<Note>): seq<int>
    decreases |notes|
  {
    if notes == [] then []
    else Levels(notes[..|notes| - 1]) + if notes[|notes| - 1].Escalated? then [notes[|notes| - 1].level] else []
  }

  lemma LevelsMore(notes: seq<Note>, more: seq<Note>)
    requires |more| <= 1
    ensures Levels(notes + more) == Levels(notes) + if more != [] && more[0].Escalated? then [more[0].level] else []
  {
    if more == [] {
      assert notes + more == notes;
    } else {
      assert (notes + more)[..|notes|] == notes;
    }
  }

  function LevelsOf(st: State, i: nat): seq<int> {
    Levels(About(st.notes, i))
  }

  /** Strictly rising, above where it started and no higher than where it is. */
  predicate Rising(levels: seq<int>, low: int, high: int) {
    && low <= high
    && (forall x, y :: 0 <= x < y < |levels| ==> levels[x] < levels[y])
    && (forall x :: 0 <= x < |levels| ==> low < levels[x] <= high)
  }

  lemma AnnouncedStep(st: State, ev: Event, i: nat)
    requires i < |st.rows| && (ev.Confirmed? ==> !Names(ev.spend, ev.clocks, st.rows[i]))
    ensures var (d, n) := (st.rows[i], Next(st, ev));
            && i < |n.rows|
            && (|| (LevelsOf(n, i) == LevelsOf(st, i) && n.rows[i].escalation == d.escalation)
                || (LevelsOf(n, i) == LevelsOf(st, i) + [n.rows[i].escalation] && n.rows[i].escalation > d.escalation))
  {
    match ev
    case Confirmed(spend, channel, clocks) => ConfirmedRow(st, spend, channel, clocks, i);
    case Improved(spend, clocks) => ImprovedRow(st.rows, spend, clocks, i);
    case Extended(_, _) => MovedLevels(st, ev, i);
    case Answered(_, _) => MovedLevels(st, ev, i);
    case Swept(_, _, _) => MovedLevels(st, ev, i);
  }

  lemma MovedLevels(st: State, ev: Event, i: nat)
    requires Moving(ev) && i < |st.rows|
    ensures var (d, n, m) := (st.rows[i], Next(st, ev), MoveOn(ev, st.rows[i], TipAt(st, ev)));
            && |n.rows| == |st.rows| && n.rows[i].escalation == (if m.Raise? then m.level else d.escalation)
            && LevelsOf(n, i) == LevelsOf(st, i) + (if m.Raise? then [m.level] else [])
            && (m.Raise? ==> m.level > d.escalation)
  {
    MovedRow(st, ev, i);
    RaisesOnly(ev, st.rows[i], TipAt(st, ev));
    ToldOf(About(st.notes, i), i, st.rows[i], MoveOn(ev, st.rows[i], TipAt(st, ev)), TipAt(st, ev));
  }

  lemma RaisesOnly(ev: Event, d: Deadline, tip: int)
    requires Moving(ev)
    ensures var m := MoveOn(ev, d, tip);
            && Applied(d, m).escalation == (if m.Raise? then m.level else d.escalation)
            && (m.Raise? ==> m.level > d.escalation)
  {}

  /** Unless a deadline is started again, no tier of it is announced twice and none goes back, whatever happens. */
  lemma {:induction false} AnnouncedTiersRise(st: State, evs: seq<Event>, i: nat)
    requires i < |st.rows|
    requires forall k :: 0 <= k < |evs| && evs[k].Confirmed? ==> !Names(evs[k].spend, evs[k].clocks, st.rows[i])
    ensures var n, before := Run(st, evs), LevelsOf(st, i);
            && i < |n.rows| && before <= LevelsOf(n, i)
            && Rising(LevelsOf(n, i)[|before|..], st.rows[i].escalation, n.rows[i].escalation)
    decreases |evs|
  {
    if evs != [] {
      var m := |evs| - 1;
      var mid, before := Run(st, evs[..m]), LevelsOf(st, i);
      AnnouncedTiersRise(st, evs[..m], i);
      OutcomesAreFinal(st, evs[..m], i);
      assert evs[m].Confirmed? ==> !Names(evs[m].spend, evs[m].clocks, mid.rows[i]);
      AnnouncedStep(mid, evs[m], i);
      var (n, was) := (Next(mid, evs[m]), LevelsOf(mid, i));
      if LevelsOf(n, i) != was {
        assert LevelsOf(n, i)[|before|..] == was[|before|..] + [n.rows[i].escalation];
      }
    }
  }

  // ---- one clock for a close and a kind

  ghost predicate OneEach(rows: seq<Deadline>) {
    forall i, j :: 0 <= i < j < |rows| ==> rows[i].spend != rows[j].spend || rows[i].kind != rows[j].kind
  }

  lemma UpsertKeepsOneEach(rows: seq<Deadline>, spend: nat, c: Clock)
    requires OneEach(rows)
    ensures OneEach(Upsert(rows, spend, c).0)
  {}

  lemma {:induction false} ImprovingKeepsOneEach(rows: seq<Deadline>, spend: nat, clocks: seq<Clock>)
    requires OneEach(rows)
    ensures OneEach(UpsertAll(rows, spend, clocks))
    decreases |clocks|
  {
    if clocks != [] {
      var n := |clocks| - 1;
      ImprovingKeepsOneEach(rows, spend, clocks[..n]);
      UpsertKeepsOneEach(UpsertAll(rows, spend, clocks[..n]), spend, clocks[n]);
    }
  }

  lemma SameClocksKeepOneEach(rows: seq<Deadline>, n: seq<Deadline>)
    requires OneEach(rows) && |n| == |rows|
    requires forall i :: 0 <= i < |rows| ==> n[i].spend == rows[i].spend && n[i].kind == rows[i].kind
    ensures OneEach(n)
  {}

  lemma StartKeepsOneEach(st: State, spend: nat, channel: nat, c: Clock)
    requires OneEach(st.rows)
    ensures OneEach(Start(st, spend, channel, c).rows)
  {
    UpsertKeepsOneEach(st.rows, spend, c);
    SameClocksKeepOneEach(Upsert(st.rows, spend, c).0, Start(st, spend, channel, c).rows);
  }

  lemma {:induction false} StartingKeepsOneEach(st: State, spend: nat, channel: nat, clocks: seq<Clock>)
    requires OneEach(st.rows)
    ensures OneEach(StartAll(st, spend, channel, clocks).rows)
    decreases |clocks|
  {
    if clocks != [] {
      var n := |clocks| - 1;
      StartingKeepsOneEach(st, spend, channel, clocks[..n]);
      StartKeepsOneEach(StartAll(st, spend, channel, clocks[..n]), spend, channel, clocks[n]);
    }
  }

  lemma MovedIsSameClock(st: State, ev: Event, i: nat)
    requires Moving(ev)
    ensures |Next(st, ev).rows| == |st.rows|
    ensures i < |st.rows| ==>
              Next(st, ev).rows[i].spend == st.rows[i].spend && Next(st, ev).rows[i].kind == st.rows[i].kind
  {
    MovedRow(st, ev, i);
  }

  lemma MovingKeepsOneEach(st: State, ev: Event)
    requires OneEach(st.rows) && Moving(ev)
    ensures OneEach(Next(st, ev).rows)
  {
    var n := Next(st, ev).rows;
    MovedIsSameClock(st, ev, 0);
    forall i: nat | i < |st.rows| ensures n[i].spend == st.rows[i].spend && n[i].kind == st.rows[i].kind {
      MovedIsSameClock(st, ev, i);
    }
    SameClocksKeepOneEach(st.rows, n);
  }

  /** Over any run there is never a second clock for one close and kind. */
  lemma {:induction false} RunKeepsOneEach(st: State, evs: seq<Event>)
    requires OneEach(st.rows)
    ensures OneEach(Run(st, evs).rows)
    decreases |evs|
  {
    if evs != [] {
      var n := |evs| - 1;
      var mid := Run(st, evs[..n]);
      RunKeepsOneEach(st, evs[..n]);
      match evs[n]
      case Confirmed(spend, channel, clocks) => StartingKeepsOneEach(mid, spend, channel, clocks);
      case Improved(spend, clocks) => ImprovingKeepsOneEach(mid.rows, spend, clocks);
      case Extended(_, _) => MovingKeepsOneEach(mid, evs[n]);
      case Answered(_, _) => MovingKeepsOneEach(mid, evs[n]);
      case Swept(_, _, _) => MovingKeepsOneEach(mid, evs[n]);
    }
  }

  // ---- the order they are heard of in

  /** Soonest first, and of two due at once the older first. */
  ghost predicate SoonestFirst(rows: seq<Deadline>, order: seq<nat>) {
    && Below(order, |rows|)
    && forall x, y :: 0 <= x < y < |order| ==>
         || rows[order[x]].height < rows[order[y]].height
         || (rows[order[x]].height == rows[order[y]].height && order[x] < order[y])
  }

  lemma {:induction false} SlotSplits(rows: seq<Deadline>, sorted: seq<nat>, i: nat)
    requires i < |rows| && SoonestFirst(rows, sorted)
    ensures var p := Slot(rows, sorted, i);
            && (forall x :: 0 <= x < p ==> rows[sorted[x]].height <= rows[i].height)
            && (forall x :: p <= x < |sorted| ==> rows[i].height < rows[sorted[x]].height)
    decreases |sorted|
  {
    if sorted != [] && !(rows[i].height < rows[sorted[0]].height) {
      SlotSplits(rows, sorted[1..], i);
      assert forall x :: 1 <= x < |sorted| ==> sorted[x] == sorted[1..][x - 1];
    }
  }

  lemma InsertedSoonestFirst(rows: seq<Deadline>, sorted: seq<nat>, p: nat, i: nat)
    requires i < |rows| && SoonestFirst(rows, sorted) && Below(sorted, i) && p <= |sorted|
    requires forall x :: 0 <= x < p ==> rows[sorted[x]].height <= rows[i].height
    requires forall x :: p <= x < |sorted| ==> rows[i].height < rows[sorted[x]].height
    ensures SoonestFirst(rows, InsertAt(sorted, p, i))
  {
    var r := InsertAt(sorted, p, i);
    forall x, y | 0 <= x < y < |r|
      ensures rows[r[x]].height < rows[r[y]].height || (rows[r[x]].height == rows[r[y]].height && r[x] < r[y])
    {
      var a, b := if x < p then x else x - 1, if y < p then y else y - 1;
      if x != p && y != p {
        assert r[x] == sorted[a] && r[y] == sorted[b];
      }
    }
  }

  lemma {:induction false} RunningIsSoonestFirst(rows: seq<Deadline>, n: nat)
    requires n <= |rows|
    ensures SoonestFirst(rows, Running(rows, n))
    decreases n
  {
    if n > 0 {
      RunningIsSoonestFirst(rows, n - 1);
      var sorted := Running(rows, n - 1);
      SlotSplits(rows, sorted, n - 1);
      InsertedSoonestFirst(rows, sorted, Slot(rows, sorted, n - 1), n - 1);
    }
  }

  // ---- how a clock can end

  /** An answer resolves every clock its close had running, under the answer's transaction, and nothing else moves. */
  lemma AnswerSettlesTheClose(st: State, source: nat, txid: int, i: nat)
    requires i < |st.rows| && source != 0
    ensures var d, n := st.rows[i], Next(st, Answered(source, txid));
            && |n.rows| == |st.rows| && LossesOf(n, i) == LossesOf(st, i)
            && (if d.spend == source && d.progress == Counting
                then n.rows[i].progress == Resolved && n.rows[i].resolvedBy == Some(txid)
                     && About(n.notes, i) == About(st.notes, i) + [Settled(i, Some(txid))]
                else n.rows[i] == d && About(n.notes, i) == About(st.notes, i))
  {
    MovedRow(st, Answered(source, txid), i);
    MovedLosses(st, Answered(source, txid), i);
  }

  /** A sweep ends the close's own clock only: as ours collected if the commitment was ours, otherwise as a loss. */
  lemma SweepSettlesItsOwnClock(st: State, source: nat, txid: int, spends: map<nat, Spend>, i: nat)
    requires i < |st.rows| && source != 0 && source in spends
    ensures var d, n := st.rows[i], Next(st, Swept(source, txid, spends));
            && |n.rows| == |st.rows|
            && (if d.spend == source && d.kind == Csv && d.progress == Counting then
                  if spends[source].shape == CommitmentOurs
                  then n.rows[i].progress == Resolved && n.rows[i].resolvedBy == Some(txid) && LossesOf(n, i) == LossesOf(st, i)
                  else n.rows[i].progress == Expired && LossesOf(n, i) == LossesOf(st, i) + 1
                else n.rows[i] == d && About(n.notes, i) == About(st.notes, i))
  {
    MovedRow(st, Swept(source, txid, spends), i);
    MovedLosses(st, Swept(source, txid, spends), i);
  }

  /** While its close is off the chain a clock neither rises nor expires; it is retired once a hundred blocks have gone by. */
  lemma ReorgedCloseOnlyRetires(st: State, tip: int, spends: map<nat, Spend>, i: nat)
    requires i < |st.rows| && st.rows[i].progress == Counting
    requires st.rows[i].spend in spends && spends[st.rows[i].spend].reorgedOut
    ensures var d, n := st.rows[i], Next(st, Extended(tip, spends));
            && |n.rows| == |st.rows| && LossesOf(n, i) == LossesOf(st, i) && n.rows[i].escalation == d.escalation
            && n.rows[i].progress == (if tip > spends[d.spend].blockHeight + 100 then Resolved else Counting)
  {
    MovedLosses(st, Extended(tip, spends), i);
  }
}
