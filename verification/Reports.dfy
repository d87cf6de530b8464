/** What a tick reports besides the phase: the blocks it sees, and that neither chain can be reached. */
module Reports {
  import opened Options
  import opened BlockTree
  import opened SplitState
  import opened SplitRuns

  lemma StepSays(s: State, obs: Observation, e: Effect)
    ensures e in Step(s, obs).1 <==>
              || e in TrackHealth(s, obs).1
              || e in TrackBlocks(TrackForkCandidate(TrackDisagreement(TrackHealth(s, obs).0, obs), obs), obs).1
              || (e.TrustAnchorChanged? && e in Gather(s, obs).1)
              || ((e.PersistState? || e.PhaseChanged?) && e in Step(s, obs).1)
  {
    var s1 := TrackHealth(s, obs).0;
    var s2 := TrackForkCandidate(TrackDisagreement(s1, obs), obs);
    var s3 := TrackBlocks(s2, obs).0;
    assert forall x :: x in TrackTrustAnchor(s3, obs).1 ==> x.TrustAnchorChanged?;
    assert Gather(s, obs).1 == TrackHealth(s, obs).1 + TrackBlocks(s2, obs).1 + TrackTrustAnchor(s3, obs).1;
    assert Gather(s, obs).1 <= Step(s, obs).1;
    SaidLast(s, obs, e);
  }

  lemma SaidLast(s: State, obs: Observation, e: Effect)
    ensures e in Step(s, obs).1 <==> e in Gather(s, obs).1 || (e in Step(s, obs).1[|Gather(s, obs).1|..])
    ensures e in Step(s, obs).1[|Gather(s, obs).1|..] ==> e.PersistState? || e.PhaseChanged?
  {
    var said, all := Gather(s, obs).1, Step(s, obs).1;
    assert all == said + all[|said|..];
  }

  // ---- blocks

  /** How far past the separation a block is, by the recorded one or else the one tracked as of this tick. */
  function PastSeparation(s: State, obs: Observation, block: BlockMeta): int {
    var tracked := ForkClock(s.forkCandidate, s.forkCandidateSince, obs).0;
    if s.fork.Some? then block.height - s.fork.value.height
    else if tracked.Some? then block.height - tracked.value.height
    else 0
  }

  /** The block is a tip read on this tick that is not the one held already. */
  predicate NewBlock(view: View, observed: Option<BlockMeta>, block: BlockMeta) {
    observed == Some(block) && (view.tip.None? || view.tip.value.hash != block.hash)
  }

  /**
    A block is reported exactly when it is a new tip of its chain, with its distance past
    the separation known before the tick's phase is decided and the pace that includes it.
   */
  lemma BlockIsReportedIff(s: State, obs: Observation, branch: Branch, block: BlockMeta, depth: int, secs: real)
    ensures BranchExtended(branch, block, depth, secs) in Step(s, obs).1 <==>
              var before, after := if branch == SF then s.sf else s.sq, if branch == SF then Step(s, obs).0.sf else Step(s, obs).0.sq;
              && NewBlock(before, if branch == SF then obs.sfTip else obs.sqTip, block)
              && depth == PastSeparation(s, obs, block)
              && secs == after.cadence.intervalSecs
  {
    var e := BranchExtended(branch, block, depth, secs);
    StepSays(s, obs, e);
    StepFields(s, obs);
    GatherViews(s, obs);
    BlocksSaid(s, obs, e);
  }

  lemma BlocksSaid(s: State, obs: Observation, e: Effect)
    requires e.BranchExtended?
    ensures e !in TrackHealth(s, obs).1
    ensures var s2 := TrackForkCandidate(TrackDisagreement(TrackHealth(s, obs).0, obs), obs);
            e in TrackBlocks(s2, obs).1 <==>
              var view, tip := if e.branch == SF then s.sf else s.sq, if e.branch == SF then obs.sfTip else obs.sqTip;
              && NewBlock(view, tip, e.block) && e.sinceForkDepth == PastSeparation(s, obs, e.block)
              && e.intervalSecs == view.cadence.Observe(e.block.time).intervalSecs
  {
    var s1 := TrackHealth(s, obs).0;
    var s2 := TrackForkCandidate(TrackDisagreement(s1, obs), obs);
    assert s2.fork == s.fork && s2.forkCandidate == ForkClock(s.forkCandidate, s.forkCandidateSince, obs).0;
    assert s2.sf.tip == s.sf.tip && s2.sq.tip == s.sq.tip;
    assert s2.sf.cadence == s.sf.cadence && s2.sq.cadence == s.sq.cadence;
  }

  // ---- neither chain reached

  lemma DownTick(s: State, obs: Observation)
    ensures var n := Step(s, obs).0;
            var down := HealthAfter(s.sf, obs.sfHealth) == Down && HealthAfter(s.sq, obs.sqHealth) == Down;
            var told := BothViewsDown in Step(s, obs).1;
            && (n.sf.health == Down && n.sq.health == Down <==> down)
            && (told <==> down && s.bothDownSince != 0 && obs.at - s.bothDownSince >= 600)
            && n.bothDownSince == if !down then 0 else if s.bothDownSince == 0 || told then obs.at else s.bothDownSince
  {
    StepSays(s, obs, BothViewsDown);
    GatherViews(s, obs);
    StepFields(s, obs);
    DownSaid(s, obs);
  }

  lemma DownSaid(s: State, obs: Observation)
    ensures Gather(s, obs).0.bothDownSince == TrackHealth(s, obs).0.bothDownSince
    ensures var s2 := TrackForkCandidate(TrackDisagreement(TrackHealth(s, obs).0, obs), obs);
            BothViewsDown !in TrackBlocks(s2, obs).1
  {
    var s1 := TrackHealth(s, obs).0;
    var s2 := TrackForkCandidate(TrackDisagreement(s1, obs), obs);
    var s3 := TrackBlocks(s2, obs).0;
    assert s3.bothDownSince == s2.bothDownSince == s1.bothDownSince;
  }

  /** One tick as far as this report goes: when it was, whether both views were down after it, and whether that was said. */
  datatype Glimpse = Glimpse(at: int, down: bool, told: bool)

  function Glimpses(trace: seq<Observation>): (r: seq<Glimpse>)
    ensures |r| == |trace|
    decreases |trace|
  {
    if trace == [] then []
    else
      var n := |trace| - 1;
      Glimpses(trace[..n]) + [GlimpseOf(After(NEW_STATE, trace[..n]), trace[n])]
  }

  function GlimpseOf(s: State, obs: Observation): Glimpse {
    var (after, said) := Step(s, obs);
    Glimpse(obs.at, after.sf.health == Down && after.sq.health == Down, BothViewsDown in said)
  }

  /** k is where the waiting began: the views went down on it, or it was said again, and nothing was said since. */
  ghost predicate WaitingSince(seen: seq<Glimpse>, k: int) {
    && 0 <= k < |seen|
    && (forall j :: k <= j < |seen| ==> seen[j].down)
    && (forall j :: k < j < |seen| ==> !seen[j].told)
    && (k == 0 || !seen[k - 1].down || seen[k].told)
  }

  lemma WaitingIsUnique(seen: seq<Glimpse>, j: int, k: int)
    requires WaitingSince(seen, j) && WaitingSince(seen, k)
    ensures j == k
  {
    assert k > 0 ==> !seen[k - 1].down || seen[k].told;
    assert j > 0 ==> !seen[j - 1].down || seen[j].told;
  }

  ghost predicate DownClock(seen: seq<Glimpse>, since: int) {
    && (since != 0 <==> seen != [] && seen[|seen| - 1].down)
    && (since != 0 ==> exists k :: WaitingSince(seen, k) && since == seen[k].at)
  }

  predicate ClockMoves(x: Glimpse, since: int, after: int) {
    && (x.told <==> x.down && since != 0 && x.at - since >= 600)
    && after == if !x.down then 0 else if since == 0 || x.told then x.at else since
  }

  lemma DownClockStep(seen: seq<Glimpse>, x: Glimpse, since: int, after: int)
    requires DownClock(seen, since) && ClockMoves(x, since, after) && x.at != 0
    ensures DownClock(seen + [x], after)
  {
    var n := |seen|;
    if x.down {
      if since == 0 || x.told {
        assert WaitingSince(seen + [x], n);
      } else {
        var k :| WaitingSince(seen, k) && since == seen[k].at;
        assert WaitingSince(seen + [x], k);
      }
    }
  }

  lemma DownClockOn(seen: seq<Glimpse>, s: State, obs: Observation)
    requires DownClock(seen, s.bothDownSince) && obs.at > 0
    ensures DownClock(seen + [GlimpseOf(s, obs)], Step(s, obs).0.bothDownSince)
  {
    DownTick(s, obs);
    DownClockStep(seen, GlimpseOf(s, obs), s.bothDownSince, Step(s, obs).0.bothDownSince);
  }

  lemma {:induction false} DownClockMeaning(trace: seq<Observation>)
    requires Timed(trace)
    ensures DownClock(Glimpses(trace), After(NEW_STATE, trace).bothDownSince)
    decreases |trace|
  {
    if trace != [] {
      var n := |trace| - 1;
      var s := After(NEW_STATE, trace[..n]);
      DownClockMeaning(trace[..n]);
      DownClockOn(Glimpses(trace[..n]), s, trace[n]);
      assert After(NEW_STATE, trace) == Step(s, trace[n]).0;
      assert Glimpses(trace) == Glimpses(trace[..n]) + [GlimpseOf(s, trace[n])];
    }
  }

  /**
    That neither chain can be reached is said exactly on a tick that still finds both down
    ten minutes or more after they went down, or after it was last said; so it is said at
    most every ten minutes, and not of a shorter absence.
   */
  lemma BothDownIsToldIff(trace: seq<Observation>, obs: Observation)
    requires Timed(trace)
    ensures var s := After(NEW_STATE, trace);
            BothViewsDown in Step(s, obs).1 <==>
              && HealthAfter(s.sf, obs.sfHealth) == Down && HealthAfter(s.sq, obs.sqHealth) == Down
              && exists k :: WaitingSince(Glimpses(trace), k) && obs.at - Glimpses(trace)[k].at >= 600
  {
    DownTick(After(NEW_STATE, trace), obs);
    DownClockMeaning(trace);
    WaitingIffClock(Glimpses(trace), After(NEW_STATE, trace).bothDownSince, obs.at);
  }

  lemma WaitingIffClock(seen: seq<Glimpse>, since: int, now: int)
    requires DownClock(seen, since)
    ensures since != 0 && now - since >= 600 <==> exists k :: WaitingSince(seen, k) && now - seen[k].at >= 600
  {
    forall j, k | WaitingSince(seen, j) && WaitingSince(seen, k) ensures j == k {
      WaitingIsUnique(seen, j, k);
    }
  }

  // ---- what a tick remembers of the chains

  /** A view after a tick: a new tip is held with the pace it gives and the time of the tick; otherwise nothing moves. */
  lemma ViewAfterTick(s: State, obs: Observation)
    ensures var n := Step(s, obs).0;
            && n.sf.lastBlockAt == (if obs.sfTip.Some? && NewBlock(s.sf, obs.sfTip, obs.sfTip.value) then obs.at else s.sf.lastBlockAt)
            && n.sq.lastBlockAt == (if obs.sqTip.Some? && NewBlock(s.sq, obs.sqTip, obs.sqTip.value) then obs.at else s.sq.lastBlockAt)
            && n.sf.tip == (if obs.sfTip.Some? && NewBlock(s.sf, obs.sfTip, obs.sfTip.value) then obs.sfTip else s.sf.tip)
            && n.sq.tip == (if obs.sqTip.Some? && NewBlock(s.sq, obs.sqTip, obs.sqTip.value) then obs.sqTip else s.sq.tip)
  {
    GatherViews(s, obs);
    StepFields(s, obs);
  }

  /**
    The separation clock over one tick. A tick that could not read both tips, or whose
    search failed, leaves it; one that finds a separation both tips stand above keeps its
    start while the separation is the same one and starts it otherwise; any other clears it.
   */
  lemma ClockAfterTick(s: State, obs: Observation)
    ensures var n := Step(s, obs).0;
            if obs.sfTip.None? || obs.sqTip.None? || obs.forkSearchFailed then
              n.forkCandidate == s.forkCandidate && n.forkCandidateSince == s.forkCandidateSince
            else if obs.forkCandidate.Some? && obs.sfTip.value.height > obs.forkCandidate.value.height
                    && obs.sqTip.value.height > obs.forkCandidate.value.height then
              && n.forkCandidate == obs.forkCandidate
              && n.forkCandidateSince ==
                   if s.forkCandidate.Some? && s.forkCandidate.value.hash == obs.forkCandidate.value.hash
                      && s.forkCandidateSince != 0 then s.forkCandidateSince else obs.at
            else n.forkCandidate.None? && n.forkCandidateSince == 0
  {
    GatherFields(s, obs);
    StepFields(s, obs);
  }
}
