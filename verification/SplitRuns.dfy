/**
  What holds of the split detector over whole runs: phases never go back, the separation
  clock measures what it says, agreement never raises an alarm, a lasting disagreement
  always does, and the emitted effects tell the whole story.
 */
module SplitRuns {
  import opened Options
  import opened BlockTree
  import opened SplitState

  // ---- what one tick leaves alone

  function Held(observed: Option<BlockMeta>, stored: Option<BlockMeta>): Option<BlockMeta> {
    if NewTip(observed, stored) then observed else stored
  }

  lemma GatherFields(s: State, obs: Observation)
    ensures var g := Gather(s, obs).0;
            && g.phase == s.phase
            && g.fork == s.fork
            && g.detectedAt == s.detectedAt
            && g.resolvingCandidate == s.resolvingCandidate
            && g.sf.tip == Held(obs.sfTip, s.sf.tip)
            && g.sq.tip == Held(obs.sqTip, s.sq.tip)
            && (g.forkCandidate, g.forkCandidateSince) == ForkClock(s.forkCandidate, s.forkCandidateSince, obs)
            && (g.disagreement, g.disagreementSince) == DisagreementClock(s.disagreement, s.disagreementSince, obs)
  {
    var (s1, e1) := TrackHealth(s, obs);
    var s2 := TrackDisagreement(s1, obs);
    var s3 := TrackForkCandidate(s2, obs);
    var (s4, e4) := TrackBlocks(s3, obs);
    var (s5, e5) := TrackTrustAnchor(s4, obs);
    assert s1.(sf := s.sf, sq := s.sq, bothDownSince := s.bothDownSince) == s;
    assert s1.sf.tip == s.sf.tip && s1.sq.tip == s.sq.tip;
    assert s4.(sf := s3.sf, sq := s3.sq) == s3;
    assert s5.(trustAnchor := s4.trustAnchor) == s4;
  }

  /** A view's health once the tick's report, if there is one, is taken in. */
  function HealthAfter(view: View, reported: Health): Health {
    if reported != NO_HEALTH then reported else view.health
  }

  /** What a view becomes: its health as reported, and on a new tip its pace and the time it was last seen. */
  function Seen(view: View, reported: Health, observed: Option<BlockMeta>, now: int): View {
    if NewTip(observed, view.tip)
    then View(observed, HealthAfter(view, reported), view.cadence.Observe(observed.value.time), now)
    else view.(health := HealthAfter(view, reported))
  }

  lemma GatherViews(s: State, obs: Observation)
    ensures var g := Gather(s, obs).0;
            && g.sf == Seen(s.sf, obs.sfHealth, obs.sfTip, obs.at)
            && g.sq == Seen(s.sq, obs.sqHealth, obs.sqTip, obs.at)
  {
    var s1 := TrackHealth(s, obs).0;
    var s2 := TrackForkCandidate(TrackDisagreement(s1, obs), obs);
    assert s2.sf == s1.sf && s2.sq == s1.sq;
    var s3 := TrackBlocks(s2, obs).0;
    var s4 := TrackTrustAnchor(s3, obs).0;
    assert s4.sf == s3.sf && s4.sq == s3.sq;
  }

  lemma GatherSuspects(s: State, obs: Observation)
    ensures Gather(s, obs).0.splitSuspected == SuspectSplit(Gather(s, obs).0, obs)
  {
    var s3 := TrackForkCandidate(TrackDisagreement(TrackHealth(s, obs).0, obs), obs);
    var s5 := TrackTrustAnchor(TrackBlocks(s3, obs).0, obs).0;
    SuspicionIgnoresItself(s5, SuspectSplit(s5, obs), obs);
  }

  lemma SuspicionIgnoresItself(s: State, suspected: bool, obs: Observation)
    ensures SuspectSplit(s.(splitSuspected := suspected), obs) == SuspectSplit(s, obs)
  {}

  /** Deciding the phase touches the phase, the fork record and the resolving candidate only. */
  lemma StepFields(s: State, obs: Observation)
    ensures var g := Gather(s, obs).0;
            var n := Step(s, obs).0;
            n == g.(phase := n.phase, fork := n.fork, detectedAt := n.detectedAt,
                    resolvingCandidate := n.resolvingCandidate)
    ensures Step(s, obs).0.phase == DecidePhase(Gather(s, obs).0, obs).0
  {}

  lemma RunExtends(s: State, trace: seq<Observation>, obs: Observation)
    ensures After(s, trace + [obs]) == Step(After(s, trace), obs).0
    ensures Run(s, trace + [obs]).1 == Run(s, trace).1 + Step(After(s, trace), obs).1
  {
    assert (trace + [obs])[..|trace|] == trace;
  }

  // ---- phases never go back

  function Rank(p: Phase): int {
    match p
    case Unarmed => 0
    case Armed => 1
    case Split => 2
    case Resolving => 2
    case ResolvedSFWon => 3
    case ResolvedSQWon => 3
    case Unrecognised(_) => -1
  }

  /** One tick, from any remembered state and on any evidence, including none at all. */
  lemma StepIsSafe(s: State, obs: Observation)
    ensures var n := Step(s, obs).0;
            && Rank(s.phase) <= Rank(n.phase)
            && Rank(n.phase) >= 0
            && (s.fork.Some? ==> n.fork == s.fork && n.detectedAt == s.detectedAt)
            && (n.fork != s.fork || n.detectedAt != s.detectedAt ==> n.phase == Split != s.phase)
            && (n.phase.Resolved() && n.phase != s.phase ==>
                  s.phase == Resolving && n.phase == obs.operatorOutcome)
            && (n.phase == Resolving != s.phase ==>
                  && s.phase == Split
                  && n.resolvingCandidate.Resolved()
                  && StalledBranch(n, obs, n.resolvingCandidate)
                  && !StalledBranch(n, obs, if n.resolvingCandidate == ResolvedSFWon then ResolvedSQWon else ResolvedSFWon))
            && (s.phase.Resolved() ==> n.phase == s.phase)
  {
    GatherFields(s, obs);
    StepFields(s, obs);
  }

  /** The same over a whole run: nothing recorded is ever taken back. */
  lemma {:induction false} RunIsSafe(s: State, trace: seq<Observation>)
    ensures var n := After(s, trace);
            && Rank(s.phase) <= Rank(n.phase)
            && (s.fork.Some? ==> n.fork == s.fork && n.detectedAt == s.detectedAt)
            && (s.phase.Resolved() ==> n.phase == s.phase)
    decreases |trace|
  {
    if trace != [] {
      var n := |trace| - 1;
      RunIsSafe(s, trace[..n]);
      StepIsSafe(After(s, trace[..n]), trace[n]);
    }
  }

  ghost predicate FoundAt(trace: seq<Observation>, i: int, fork: BlockRef) {
    0 <= i < |trace| && trace[i].forkCandidate == Some(fork)
  }

  /** Where a tick's separation records come from. */
  lemma StepFindsFork(s: State, obs: Observation)
    ensures var n := Step(s, obs).0;
            && (n.forkCandidate.Some? ==> n.forkCandidate == s.forkCandidate || n.forkCandidate == obs.forkCandidate)
            && (n.fork.Some? ==>
                  || n.fork == s.fork
                  || (n.phase == Split && (n.fork == n.forkCandidate || n.fork == obs.forkCandidate)))
  {
    GatherFields(s, obs);
    StepFields(s, obs);
  }

  /** A separation point is recorded only after a split, and a search returned exactly it on some tick of the run. */
  lemma {:induction false} ForkWasFound(trace: seq<Observation>)
    ensures var n := After(NEW_STATE, trace);
            && (n.fork.Some? ==> Rank(n.phase) >= 2 && exists i :: FoundAt(trace, i, n.fork.value))
            && (n.forkCandidate.Some? ==> exists i :: FoundAt(trace, i, n.forkCandidate.value))
    decreases |trace|
  {
    if trace != [] {
      var k := |trace| - 1;
      var before := trace[..k];
      ForkWasFound(before);
      var s, n := After(NEW_STATE, before), After(NEW_STATE, trace);
      StepFindsFork(s, trace[k]);
      StepIsSafe(s, trace[k]);
      FoundEarlier(before, trace, s.fork);
      FoundEarlier(before, trace, s.forkCandidate);
      assert trace[k].forkCandidate.Some? ==> FoundAt(trace, k, trace[k].forkCandidate.value);
    }
  }

  lemma FoundEarlier(before: seq<Observation>, trace: seq<Observation>, fork: Option<BlockRef>)
    requires before <= trace
    requires fork.Some? ==> exists i :: FoundAt(before, i, fork.value)
    ensures fork.Some? ==> exists i :: FoundAt(trace, i, fork.value)
  {
    if fork.Some? {
      var i :| FoundAt(before, i, fork.value);
      assert FoundAt(trace, i, fork.value);
    }
  }

  /** With truthful searches, the recorded separation point is the true last common block of two tips seen in the run. */
  lemma ForkIsTrue(t: Tree, trace: seq<Observation>) returns (i: int)
    requires forall j :: 0 <= j < |trace| ==> Truthful(t, trace[j])
    requires After(NEW_STATE, trace).fork.Some?
    ensures 0 <= i < |trace| && trace[i].sfTip.Some? && trace[i].sqTip.Some?
    ensures Known(t, trace[i].sfTip.value) && Known(t, trace[i].sqTip.value)
    ensures HighestCommon(t, After(NEW_STATE, trace).fork.value, trace[i].sfTip.value, trace[i].sqTip.value)
  {
    ForkWasFound(trace);
    i :| FoundAt(trace, i, After(NEW_STATE, trace).fork.value);
    assert Truthful(t, trace[i]);
  }

  // ---- observations drawn from one block tree

  /** Tips are blocks of the tree and a separation point found is the highest common ancestor of both. */
  ghost predicate Truthful(t: Tree, obs: Observation) {
    && (obs.sfTip.Some? ==> Known(t, obs.sfTip.value))
    && (obs.sqTip.Some? ==> Known(t, obs.sqTip.value))
    && (obs.forkCandidate.Some? ==>
          && obs.sfTip.Some?
          && obs.sqTip.Some?
          && HighestCommon(t, obs.forkCandidate.value, obs.sfTip.value, obs.sqTip.value))
  }

  /** Recent history lists only blocks the tip was built on. */
  ghost predicate TruthfulAncestry(t: Tree, hashes: seq<Hash>, tip: Option<BlockMeta>) {
    tip.Some? ==>
      && Known(t, tip.value)
      && forall h :: h in hashes ==> h in t && Ancestor(t, t[h], tip.value)
  }

  lemma {:induction false} StoredTipsKnown(t: Tree, trace: seq<Observation>)
    requires forall j :: 0 <= j < |trace| ==> Truthful(t, trace[j])
    ensures After(NEW_STATE, trace).sf.tip.Some? ==> Known(t, After(NEW_STATE, trace).sf.tip.value)
    ensures After(NEW_STATE, trace).sq.tip.Some? ==> Known(t, After(NEW_STATE, trace).sq.tip.value)
    decreases |trace|
  {
    if trace != [] {
      var k := |trace| - 1;
      StoredTipsKnown(t, trace[..k]);
      GatherFields(After(NEW_STATE, trace[..k]), trace[k]);
      StepFields(After(NEW_STATE, trace[..k]), trace[k]);
    }
  }

  // ---- the separation clock

  /** The ticks from which the clock draws any conclusion. */
  function Heard(trace: seq<Observation>): (r: seq<Observation>)
    ensures forall i :: 0 <= i < |r| ==> Informative(r[i])
    ensures forall o :: o in r ==> o in trace
    decreases |trace|
  {
    if trace == [] then []
    else
      var n := |trace| - 1;
      Heard(trace[..n]) + if Informative(trace[n]) then [trace[n]] else []
  }

  /** The clock on its own, after a sequence of ticks. */
  function ClockAfter(candidate: Option<BlockRef>, since: int, trace: seq<Observation>): (Option<BlockRef>, int)
    decreases |trace|
  {
    if trace == [] then
      (candidate, since)
    else
      var n := |trace| - 1;
      var (c, x) := ClockAfter(candidate, since, trace[..n]);
      ForkClock(c, x, trace[n])
  }

  /** Nothing but the observations moves the clock. */
  lemma {:induction false} ClockIsIndependent(s: State, trace: seq<Observation>)
    ensures var n := After(s, trace);
            (n.forkCandidate, n.forkCandidateSince) == ClockAfter(s.forkCandidate, s.forkCandidateSince, trace)
    decreases |trace|
  {
    if trace != [] {
      var n := |trace| - 1;
      ClockIsIndependent(s, trace[..n]);
      GatherFields(After(s, trace[..n]), trace[n]);
      StepFields(After(s, trace[..n]), trace[n]);
    }
  }

  lemma {:induction false} ClockAfterHeard(candidate: Option<BlockRef>, since: int, trace: seq<Observation>)
    ensures ClockAfter(candidate, since, trace) == ClockAfter(candidate, since, Heard(trace))
    decreases |trace|
  {
    if trace != [] {
      var n := |trace| - 1;
      ClockAfterHeard(candidate, since, trace[..n]);
      var heard := Heard(trace[..n]);
      assert Informative(trace[n]) ==> (heard + [trace[n]])[..|heard|] == heard;
      assert heard + [] == heard;
    }
  }

  /** The clock is what it would have been had the ticks that could not tell never happened. */
  lemma ClockIgnoresSilence(s: State, trace: seq<Observation>)
    ensures After(s, trace).forkCandidate == After(s, Heard(trace)).forkCandidate
    ensures After(s, trace).forkCandidateSince == After(s, Heard(trace)).forkCandidateSince
  {
    ClockIsIndependent(s, trace);
    ClockIsIndependent(s, Heard(trace));
    ClockAfterHeard(s.forkCandidate, s.forkCandidateSince, trace);
  }

  ghost predicate SameSeparation(a: Observation, b: Observation) {
    Mutual(a) && Mutual(b) && a.forkCandidate.value.hash == b.forkCandidate.value.hash
  }

  /** k begins the longest run of ticks, up to the last, that are mutual across one separation point. */
  ghost predicate StreakFrom(heard: seq<Observation>, k: int) {
    && 0 <= k < |heard|
    && (forall j :: k <= j < |heard| ==> SameSeparation(heard[j], heard[|heard| - 1]))
    && (k > 0 ==> !SameSeparation(heard[k - 1], heard[|heard| - 1]))
  }

  ghost predicate Timed(trace: seq<Observation>) {
    forall i :: 0 <= i < |trace| ==> trace[i].at > 0
  }

  lemma {:induction false} HeardClock(heard: seq<Observation>)
    requires Timed(heard) && forall i :: 0 <= i < |heard| ==> Informative(heard[i])
    ensures var (candidate, since) := ClockAfter(None, 0, heard);
            if heard == [] || !Mutual(heard[|heard| - 1])
            then candidate == None && since == 0
            else candidate == heard[|heard| - 1].forkCandidate
                 && exists k :: StreakFrom(heard, k) && since == heard[k].at
    decreases |heard|
  {
    if heard != [] {
      var n := |heard| - 1;
      var before := heard[..n];
      HeardClock(before);
      if Mutual(heard[n]) {
        if before != [] && SameSeparation(before[n - 1], heard[n]) {
          var k :| StreakFrom(before, k) && ClockAfter(None, 0, before).1 == heard[k].at;
          assert StreakFrom(heard, k);
        } else {
          assert StreakFrom(heard, n);
        }
      }
    }
  }

  lemma StreakIsUnique(heard: seq<Observation>, j: int, k: int)
    requires StreakFrom(heard, j) && StreakFrom(heard, k)
    ensures j == k
  {
    assert k > 0 ==> !SameSeparation(heard[k - 1], heard[|heard| - 1]);
    assert j > 0 ==> !SameSeparation(heard[j - 1], heard[|heard| - 1]);
  }

  /**
    The clock runs exactly while the last tick that could tell was mutual, and then shows
    the time of the first tick of the unbroken streak at that separation point.
   */
  lemma ClockMeaning(trace: seq<Observation>)
    requires Timed(trace)
    ensures var n := After(NEW_STATE, trace);
            var heard := Heard(trace);
            && (n.forkCandidateSince == 0 <==> n.forkCandidate == None)
            && (n.forkCandidateSince != 0 <==> heard != [] && Mutual(heard[|heard| - 1]))
            && (n.forkCandidateSince != 0 ==> n.forkCandidate == heard[|heard| - 1].forkCandidate
                                              && exists k :: StreakFrom(heard, k))
            && forall k :: StreakFrom(heard, k) ==> n.forkCandidateSince == heard[k].at
  {
    var heard := Heard(trace);
    forall i | 0 <= i < |heard| ensures heard[i].at > 0 {
      assert heard[i] in trace;
    }
    ClockIsIndependent(NEW_STATE, trace);
    ClockAfterHeard(None, 0, trace);
    HeardClock(heard);
    forall k | StreakFrom(heard, k) ensures ClockAfter(None, 0, heard).1 == heard[k].at {
      assert SameSeparation(heard[|heard| - 1], heard[|heard| - 1]);
      var j :| StreakFrom(heard, j) && ClockAfter(None, 0, heard).1 == heard[j].at;
      StreakIsUnique(heard, j, k);
    }
  }

  /**
    A split confirmed by persistence alone rests on a streak at least as old as the
    threshold, and the user had been warned of it.
   */
  lemma HeldApartMeansHeldApart(trace: seq<Observation>, obs: Observation, from: Phase)
    requires Timed(trace + [obs])
    requires PhaseChanged(from, Split, HeldApart) in Step(After(NEW_STATE, trace), obs).1
    ensures exists k :: StreakFrom(Heard(trace + [obs]), k)
                        && obs.at - Heard(trace + [obs])[k].at >= obs.splitConfirmSecs > 0
    ensures 0 < obs.splitSuspectSecs <= obs.splitConfirmSecs ==> After(NEW_STATE, trace + [obs]).splitSuspected
  {
    var whole := trace + [obs];
    RunExtends(NEW_STATE, trace, obs);
    ClockMeaning(whole);
    var heard := Heard(whole);
    forall k | StreakFrom(heard, k) ensures heard[k].at > 0 {
      assert heard[k] in whole;
    }
    SustainedOnly(After(NEW_STATE, trace), obs, from);
  }

  lemma SustainedOnly(s: State, obs: Observation, from: Phase)
    requires PhaseChanged(from, Split, HeldApart) in Step(s, obs).1
    ensures var n := Step(s, obs).0;
            && n.forkCandidateSince != 0
            && obs.at - n.forkCandidateSince >= obs.splitConfirmSecs > 0
            && (n.forkCandidateSince > 0 && 0 < obs.splitSuspectSecs <= obs.splitConfirmSecs ==> n.splitSuspected)
  {
    GatherSuspects(s, obs);
    StepFields(s, obs);
    SaidOnlyOnce(s, obs);
    assert SplitEvidence(Gather(s, obs).0, obs) == DivergedSustained;
  }

  /** The only phase change a tick announces is the last effect. */
  lemma SaidOnlyOnce(s: State, obs: Observation)
    ensures forall e :: e in Gather(s, obs).1 ==> !e.PhaseChanged?
  {}

  // ---- no missed split

  lemma DivergedTipsDisagree(t: Tree, obs: Observation, sf: BlockMeta, sq: BlockMeta, depth: int)
    requires Known(t, sf) && Known(t, sq) && Diverged(t, sf, sq)
    requires TruthfulAncestry(t, obs.sfAncestry, Some(sf)) && TruthfulAncestry(t, obs.sqAncestry, Some(sq))
    ensures !TipsAgree(Some(sf), Some(sq), depth, obs.sfAncestry, obs.sqAncestry)
  {
    assert Ancestor(t, sf, sf);
    assert sf.hash != sq.hash;
    assert sf.hash !in obs.sqAncestry;
    assert sq.hash !in obs.sfAncestry;
  }

  /** Recent history in full: newest first from the tip itself, deep enough to settle a lag of depth blocks. */
  ghost predicate FullHistory(t: Tree, hashes: seq<Hash>, tip: BlockMeta, depth: nat) {
    && Known(t, tip)
    && (|hashes| > depth || |hashes| > tip.height)
    && |hashes| <= tip.height + 1
    && forall i :: 0 <= i < |hashes| ==> hashes[i] == AncestorAt(t, tip, tip.height - i).hash
  }

  lemma LagIsListed(t: Tree, hashes: seq<Hash>, low: BlockMeta, high: BlockMeta, depth: nat)
    requires Known(t, low) && FullHistory(t, hashes, high, depth)
    requires low.height < high.height && high.height - low.height <= depth
    ensures ContainsWithin(hashes, low.hash, depth + 1) <==> Ancestor(t, low, high)
  {
    var lag := high.height - low.height;
    assert hashes[lag] == AncestorAt(t, high, low.height).hash;
    forall i | 0 <= i < |hashes| && hashes[i] == low.hash ensures i == lag {
      assert AncestorAt(t, high, high.height - i) == low;
    }
  }

  /** Given full recent history, the tips agree exactly when neither chain has diverged and the lag is within the depth. */
  lemma AgreeIffCloseOnOneChain(t: Tree, sf: BlockMeta, sq: BlockMeta, confirmDepth: int,
                                sfAncestry: seq<Hash>, sqAncestry: seq<Hash>)
    requires FullHistory(t, sfAncestry, sf, AtLeastOne(confirmDepth))
    requires FullHistory(t, sqAncestry, sq, AtLeastOne(confirmDepth))
    ensures TipsAgree(Some(sf), Some(sq), confirmDepth, sfAncestry, sqAncestry) <==>
              && !Diverged(t, sf, sq)
              && -AtLeastOne(confirmDepth) <= sf.height - sq.height <= AtLeastOne(confirmDepth)
  {
    var depth := AtLeastOne(confirmDepth);
    assert Ancestor(t, sf, sf);
    if sf.height < sq.height && sq.height - sf.height <= depth {
      LagIsListed(t, sqAncestry, sf, sq, depth);
    } else if sq.height < sf.height && sf.height - sq.height <= depth {
      LagIsListed(t, sfAncestry, sq, sf, depth);
    }
  }

  /** One tick that finds a disagreement old enough and deep enough. */
  lemma SustainedTick(t: Tree, s: State, obs: Observation)
    requires Truthful(t, obs) && Mutual(obs)
    requires TruthfulAncestry(t, obs.sfAncestry, obs.sfTip) && TruthfulAncestry(t, obs.sqAncestry, obs.sqTip)
    requires s.sf.tip.Some? ==> Known(t, s.sf.tip.value)
    requires s.sq.tip.Some? ==> Known(t, s.sq.tip.value)
    requires var since := ForkClock(s.forkCandidate, s.forkCandidateSince, obs).1;
             since != 0 && obs.at - since >= obs.splitConfirmSecs > 0
    requires obs.sfTip.value.height - obs.forkCandidate.value.height >= AtLeastOne(obs.splitConfirmDepth)
             || obs.sqTip.value.height - obs.forkCandidate.value.height >= AtLeastOne(obs.splitConfirmDepth)
    ensures var n := Step(s, obs).0;
            && (s.phase == Armed ==> n.phase == Split)
            && (s.phase == Unarmed && n.sf.health.Usable() && n.sq.health.Usable() ==> n.phase == Split)
  {
    var g := Gather(s, obs).0;
    GatherFields(s, obs);
    StepFields(s, obs);
    assert g.sf.tip == obs.sfTip && g.sq.tip == obs.sqTip;
    BothAboveIffDiverged(t, obs.forkCandidate.value, obs.sfTip.value, obs.sqTip.value);
    DivergedTipsDisagree(t, obs, obs.sfTip.value, obs.sqTip.value, obs.splitConfirmDepth);
    assert SplitEvidence(g, obs) != Nothing;
  }

  /**
    If one separation point has stood for the confirmation time with either chain far
    enough past it, the tick that can tell ends the wait: the split is recorded, whether
    Forktower had been watching (armed) or found it already there (unarmed, both views usable).
   */
  lemma NoMissedSplit(t: Tree, trace: seq<Observation>, obs: Observation, k: int)
    requires Timed(trace + [obs])
    requires forall j :: 0 <= j < |trace| ==> Truthful(t, trace[j])
    requires Truthful(t, obs) && Mutual(obs)
    requires TruthfulAncestry(t, obs.sfAncestry, obs.sfTip) && TruthfulAncestry(t, obs.sqAncestry, obs.sqTip)
    requires StreakFrom(Heard(trace + [obs]), k)
    requires obs.at - Heard(trace + [obs])[k].at >= obs.splitConfirmSecs > 0
    requires obs.sfTip.value.height - obs.forkCandidate.value.height >= AtLeastOne(obs.splitConfirmDepth)
             || obs.sqTip.value.height - obs.forkCandidate.value.height >= AtLeastOne(obs.splitConfirmDepth)
    ensures var before, after := After(NEW_STATE, trace), After(NEW_STATE, trace + [obs]);
            && (before.phase == Armed ==> after.phase == Split)
            && (before.phase == Unarmed && after.sf.health.Usable() && after.sq.health.Usable() ==> after.phase == Split)
  {
    var whole := trace + [obs];
    var s := After(NEW_STATE, trace);
    RunExtends(NEW_STATE, trace, obs);
    ClockMeaning(whole);
    StoredTipsKnown(t, trace);
    assert Heard(whole)[k] in whole;
    ClockIsIndependent(NEW_STATE, trace);
    ClockIsIndependent(NEW_STATE, whole);
    assert whole[..|trace|] == trace;
    SustainedTick(t, s, obs);
  }

  /** Both tips are known and each stands above what they share. */
  ghost predicate SeenDiverged(t: Tree, trace: seq<Observation>, i: int) {
    && 0 <= i < |trace| && trace[i].sfTip.Some? && trace[i].sqTip.Some?
    && Known(t, trace[i].sfTip.value) && Known(t, trace[i].sqTip.value)
    && Diverged(t, trace[i].sfTip.value, trace[i].sqTip.value)
  }

  lemma MutualMeansDiverged(t: Tree, obs: Observation)
    requires Truthful(t, obs) && Mutual(obs)
    ensures Diverged(t, obs.sfTip.value, obs.sqTip.value)
  {
    BothAboveIffDiverged(t, obs.forkCandidate.value, obs.sfTip.value, obs.sqTip.value);
  }

  /** Every tick heard is a tick of the run. */
  lemma HeardIsInTrace(trace: seq<Observation>, o: Observation) returns (i: int)
    requires o in Heard(trace)
    ensures 0 <= i < |trace| && trace[i] == o
  {
    i :| 0 <= i < |trace| && trace[i] == o;
  }

  /** What a tick that declares a split for distance found. */
  lemma DeclaredFor(s: State, obs: Observation, from: Phase, why: Reason)
    requires PhaseChanged(from, Split, why) in Step(s, obs).1
    ensures why == BothBuiltPast ==>
              var g := Gather(s, obs).0;
              && obs.forkCandidate.Some? && g.sf.tip.Some? && g.sq.tip.Some?
              && g.sf.tip.value.height > obs.forkCandidate.value.height
              && g.sq.tip.value.height > obs.forkCandidate.value.height
    ensures why == HeldApart ==> Step(s, obs).0.forkCandidateSince != 0
  {
    SaidOnlyOnce(s, obs);
    StepFields(s, obs);
  }

  lemma DistanceAlarmIsReal(t: Tree, s: State, obs: Observation, from: Phase)
    requires Truthful(t, obs) && PhaseChanged(from, Split, BothBuiltPast) in Step(s, obs).1
    requires s.sf.tip.Some? ==> Known(t, s.sf.tip.value)
    requires s.sq.tip.Some? ==> Known(t, s.sq.tip.value)
    ensures obs.sfTip.Some? && obs.sqTip.Some? && Known(t, obs.sfTip.value) && Known(t, obs.sqTip.value)
    ensures Diverged(t, obs.sfTip.value, obs.sqTip.value)
  {
    DeclaredFor(s, obs, from, BothBuiltPast);
    GatherFields(s, obs);
    assert Held(obs.sfTip, s.sf.tip) == obs.sfTip && Held(obs.sqTip, s.sq.tip) == obs.sqTip;
    BothAboveIffDiverged(t, obs.forkCandidate.value, obs.sfTip.value, obs.sqTip.value);
  }

  lemma RunningClockIsReal(t: Tree, trace: seq<Observation>)
    requires Timed(trace) && forall j :: 0 <= j < |trace| ==> Truthful(t, trace[j])
    requires After(NEW_STATE, trace).forkCandidateSince != 0
    ensures exists i :: SeenDiverged(t, trace, i)
  {
    ClockMeaning(trace);
    var heard := Heard(trace);
    var i := HeardIsInTrace(trace, heard[|heard| - 1]);
    MutualMeansDiverged(t, trace[i]);
    assert SeenDiverged(t, trace, i);
  }

  /**
    No alarm without real divergence: with truthful tips and searches, a split declared
    because the chains were found apart, for distance or for time, is declared in a run that
    has seen the two tips diverge in the block tree.
   */
  lemma AlarmIsReal(t: Tree, trace: seq<Observation>, obs: Observation, from: Phase, why: Reason)
    requires Timed(trace + [obs]) && forall o :: o in trace + [obs] ==> Truthful(t, o)
    requires why == BothBuiltPast || why == HeldApart
    requires PhaseChanged(from, Split, why) in Step(After(NEW_STATE, trace), obs).1
    ensures exists i :: SeenDiverged(t, trace + [obs], i)
  {
    var whole, s := trace + [obs], After(NEW_STATE, trace);
    assert whole[|trace|] == obs;
    assert forall j :: 0 <= j < |trace| ==> trace[j] == whole[j];
    if why == BothBuiltPast {
      StoredTipsKnown(t, trace);
      DistanceAlarmIsReal(t, s, obs, from);
      assert SeenDiverged(t, whole, |trace|);
    } else {
      DeclaredFor(s, obs, from, HeldApart);
      RunExtends(NEW_STATE, trace, obs);
      RunningClockIsReal(t, whole);
    }
  }

  /** Two chains both far enough past their separation are a split at once, however new it is. */
  lemma FarApartTick(t: Tree, s: State, obs: Observation)
    requires Truthful(t, obs) && obs.forkCandidate.Some?
    requires TruthfulAncestry(t, obs.sfAncestry, obs.sfTip) && TruthfulAncestry(t, obs.sqAncestry, obs.sqTip)
    requires s.sf.tip.Some? ==> Known(t, s.sf.tip.value)
    requires s.sq.tip.Some? ==> Known(t, s.sq.tip.value)
    requires obs.sfTip.value.height - obs.forkCandidate.value.height >= AtLeastOne(obs.splitConfirmDepth)
    requires obs.sqTip.value.height - obs.forkCandidate.value.height >= AtLeastOne(obs.splitConfirmDepth)
    ensures var n := Step(s, obs).0;
            && (s.phase == Armed ==> n.phase == Split)
            && (s.phase == Unarmed && n.sf.health.Usable() && n.sq.health.Usable() ==> n.phase == Split)
  {
    var g := Gather(s, obs).0;
    GatherFields(s, obs);
    StepFields(s, obs);
    assert g.sf.tip == obs.sfTip && g.sq.tip == obs.sqTip;
    BothAboveIffDiverged(t, obs.forkCandidate.value, obs.sfTip.value, obs.sqTip.value);
    DivergedTipsDisagree(t, obs, obs.sfTip.value, obs.sqTip.value, obs.splitConfirmDepth);
    assert SplitEvidence(g, obs) != Nothing;
  }

  // ---- the operator

  /** What an operator says happened becomes the phase exactly when the machine is RESOLVING or already there. */
  lemma OutcomeIsHonouredIff(s: State, obs: Observation)
    requires obs.operatorOutcome.Resolved()
    ensures Step(s, obs).0.phase == obs.operatorOutcome <==> s.phase == Resolving || s.phase == obs.operatorOutcome
  {
    StepIsSafe(s, obs);
    GatherFields(s, obs);
    StepFields(s, obs);
  }

  // ---- no false alarm

  /** The last tip of the watched chain that was read. */
  function LastSQ(trace: seq<Observation>): Option<BlockMeta>
    decreases |trace|
  {
    if trace == [] then None
    else if trace[|trace| - 1].sqTip.Some? then trace[|trace| - 1].sqTip
    else LastSQ(trace[..|trace| - 1])
  }

  /** One tip is an ancestor of the other, however far behind, and nothing else speaks of a disagreement. */
  ghost predicate Agreeing(t: Tree, trace: seq<Observation>, i: int)
    requires 0 <= i < |trace|
  {
    var obs := trace[i];
    && Truthful(t, obs)
    && (obs.sfTip.Some? && obs.sqTip.Some? ==> !Diverged(t, obs.sfTip.value, obs.sqTip.value))
    && obs.disagreement.None?
    && !RejectedMatch(LastSQ(trace[..i + 1]), obs)
  }

  /** Two chains that never diverge never raise an alarm, in any run, however long one view lags behind. */
  lemma {:induction false} NoFalseAlarm(t: Tree, trace: seq<Observation>)
    requires forall i :: 0 <= i < |trace| ==> Agreeing(t, trace, i)
    ensures var n := After(NEW_STATE, trace);
            && (n.phase == Unarmed || n.phase == Armed)
            && !n.splitSuspected
            && n.fork.None? && n.forkCandidate.None? && n.forkCandidateSince == 0
            && n.disagreement.None?
            && n.sq.tip == LastSQ(trace)
    decreases |trace|
  {
    if trace != [] {
      var k := |trace| - 1;
      var before := trace[..k];
      AgreeingBefore(t, trace, k);
      NoFalseAlarm(t, before);
      StoredTipsKnown(t, before);
      assert Agreeing(t, trace, k);
      assert trace[..k + 1] == trace;
      AgreeingTick(t, After(NEW_STATE, before), trace[k], LastSQ(trace));
    }
  }

  lemma AgreeingBefore(t: Tree, trace: seq<Observation>, k: int)
    requires 0 <= k <= |trace| && forall i :: 0 <= i < |trace| ==> Agreeing(t, trace, i)
    ensures forall i :: 0 <= i < k ==> Agreeing(t, trace[..k], i) && Truthful(t, trace[..k][i])
  {
    forall i | 0 <= i < k ensures Agreeing(t, trace[..k], i) && Truthful(t, trace[..k][i]) {
      assert Agreeing(t, trace, i);
      assert trace[..k][..i + 1] == trace[..i + 1];
    }
  }

  lemma AgreeingTick(t: Tree, s: State, obs: Observation, lastSQ: Option<BlockMeta>)
    requires Truthful(t, obs) && obs.disagreement.None? && !RejectedMatch(lastSQ, obs)
    requires obs.sfTip.Some? && obs.sqTip.Some? ==> !Diverged(t, obs.sfTip.value, obs.sqTip.value)
    requires lastSQ == if obs.sqTip.Some? then obs.sqTip else s.sq.tip
    requires s.sf.tip.Some? ==> Known(t, s.sf.tip.value)
    requires s.sq.tip.Some? ==> Known(t, s.sq.tip.value)
    requires s.phase == Unarmed || s.phase == Armed
    requires s.fork.None? && s.forkCandidate.None? && s.forkCandidateSince == 0 && s.disagreement.None?
    ensures var n := Step(s, obs).0;
            && (n.phase == Unarmed || n.phase == Armed)
            && !n.splitSuspected
            && n.fork.None? && n.forkCandidate.None? && n.forkCandidateSince == 0
            && n.disagreement.None?
            && n.sq.tip == lastSQ
  {
    var g := Gather(s, obs).0;
    GatherFields(s, obs);
    GatherSuspects(s, obs);
    StepFields(s, obs);
    assert g.sq.tip == lastSQ;
    if obs.forkCandidate.Some? {
      BothAboveIffDiverged(t, obs.forkCandidate.value, obs.sfTip.value, obs.sqTip.value);
      assert g.sf.tip == obs.sfTip && g.sq.tip == obs.sqTip;
    }
    assert SplitEvidence(g, obs) == Nothing;
  }

  // ---- the effect log

  /** The part of the state that the effects are meant to carry to the outside. */
  datatype Mirror = Mirror(
    phase: Phase,
    sfHealth: Health,
    sqHealth: Health,
    sfTip: Option<BlockMeta>,
    sqTip: Option<BlockMeta>,
    trustAnchor: int)

  function Shown(s: State): Mirror {
    Mirror(s.phase, s.sf.health, s.sq.health, s.sf.tip, s.sq.tip, s.trustAnchor)
  }

  function Replay(m: Mirror, e: Effect): Mirror {
    match e
    case PhaseChanged(_, new_, _) => m.(phase := new_)
    case BranchExtended(branch, block, _, _) =>
      if branch == SF then m.(sfTip := Some(block)) else m.(sqTip := Some(block))
    case HealthChanged(branch, _, new_) =>
      if branch == SF then m.(sfHealth := new_) else m.(sqHealth := new_)
    case TrustAnchorChanged(height) => m.(trustAnchor := height)
    case PersistState => m
    case BothViewsDown => m
  }

  function ReplayAll(m: Mirror, said: seq<Effect>): Mirror
    decreases |said|
  {
    if said == [] then m
    else Replay(ReplayAll(m, said[..|said| - 1]), said[|said| - 1])
  }

  /** What an effect says was so before it, and that a phase change follows a save. */
  ghost predicate Accurate(m: Mirror, said: seq<Effect>, i: int)
    requires 0 <= i < |said|
  {
    match said[i]
    case PhaseChanged(old_, new_, _) =>
      old_ == ReplayAll(m, said[..i]).phase != new_ && i > 0 && said[i - 1] == PersistState
    case HealthChanged(branch, old_, new_) =>
      old_ == (if branch == SF then ReplayAll(m, said[..i]).sfHealth else ReplayAll(m, said[..i]).sqHealth) != new_
    case _ => true
  }

  lemma {:induction false} ReplayConcat(m: Mirror, a: seq<Effect>, b: seq<Effect>)
    ensures ReplayAll(m, a + b) == ReplayAll(ReplayAll(m, a), b)
    decreases |b|
  {
    if b == [] {
      assert a + b == a;
    } else {
      var n := |b| - 1;
      ReplayConcat(m, a, b[..n]);
      assert (a + b)[..|a| + n] == a + b[..n];
    }
  }

  ghost predicate AllAccurate(m: Mirror, said: seq<Effect>) {
    forall i :: 0 <= i < |said| ==> Accurate(m, said, i)
  }

  lemma AccurateConcat(m: Mirror, a: seq<Effect>, b: seq<Effect>)
    requires AllAccurate(m, a) && AllAccurate(ReplayAll(m, a), b)
    ensures AllAccurate(m, a + b)
  {
    forall i | 0 <= i < |a + b| ensures Accurate(m, a + b, i) {
      if i < |a| {
        assert (a + b)[..i] == a[..i];
        assert Accurate(m, a, i);
      } else {
        assert (a + b)[..i] == a + b[..i - |a|];
        ReplayConcat(m, a, b[..i - |a|]);
        assert Accurate(ReplayAll(m, a), b, i - |a|);
      }
    }
  }

  lemma ReplayEnds(m: Mirror, a: seq<Effect>, e: Effect)
    ensures ReplayAll(m, a + [e]) == Replay(ReplayAll(m, a), e)
  {
    assert (a + [e])[..|a|] == a;
  }

  /** A stretch of effects tells the change between two mirrors, and tells it truly. */
  ghost predicate Tells(from: Mirror, said: seq<Effect>, to: Mirror) {
    ReplayAll(from, said) == to && AllAccurate(from, said)
  }

  lemma TellsNothing(m: Mirror)
    ensures Tells(m, [], m)
  {}

  lemma TellsOne(from: Mirror, e: Effect)
    requires !e.PhaseChanged?
    requires e.HealthChanged? ==>
               e.oldHealth == (if e.branch == SF then from.sfHealth else from.sqHealth) != e.newHealth
    ensures Tells(from, [e], Replay(from, e))
  {
    ReplayEnds(from, [], e);
    assert [] + [e] == [e];
    AccurateOne(from, e);
  }

  lemma AccurateOne(from: Mirror, e: Effect)
    requires !e.PhaseChanged?
    requires e.HealthChanged? ==>
               e.oldHealth == (if e.branch == SF then from.sfHealth else from.sqHealth) != e.newHealth
    ensures AllAccurate(from, [e])
  {
    assert ReplayAll(from, [e][..0]) == from;
    assert [e][0] == e;
    assert Accurate(from, [e], 0);
  }

  lemma TellsBoth(a: Mirror, first: seq<Effect>, b: Mirror, second: seq<Effect>, c: Mirror)
    requires Tells(a, first, b) && Tells(b, second, c)
    ensures Tells(a, first + second, c)
  {
    ReplayConcat(a, first, second);
    AccurateConcat(a, first, second);
  }

  lemma NewsTells(m: Mirror, branch: Branch, view: View, reported: Health)
    requires view.health == if branch == SF then m.sfHealth else m.sqHealth
    ensures var (after, said) := HealthNews(branch, view, reported);
            Tells(m, said, if branch == SF then m.(sfHealth := after.health) else m.(sqHealth := after.health))
  {
    TellsNothing(m);
    var (after, said) := HealthNews(branch, view, reported);
    if said != [] {
      TellsOne(m, said[0]);
    }
  }

  lemma HealthTells(s: State, obs: Observation)
    ensures Tells(Shown(s), TrackHealth(s, obs).1, Shown(TrackHealth(s, obs).0))
  {
    var m := Shown(s);
    var (sf, e1) := HealthNews(SF, s.sf, obs.sfHealth);
    var (sq, e2) := HealthNews(SQ, s.sq, obs.sqHealth);
    var m1 := m.(sfHealth := sf.health);
    var m2 := m1.(sqHealth := sq.health);
    NewsTells(m, SF, s.sf, obs.sfHealth);
    NewsTells(m1, SQ, s.sq, obs.sqHealth);
    TellsBoth(m, e1, m1, e2, m2);
    var (n, said) := TrackHealth(s, obs);
    assert Shown(n) == m2;
    if said == e1 + e2 + [BothViewsDown] {
      TellsOne(m2, BothViewsDown);
      TellsBoth(m, e1 + e2, m2, [BothViewsDown], m2);
    } else {
      assert said == e1 + e2;
    }
  }

  lemma BlocksTell(s: State, obs: Observation)
    ensures Tells(Shown(s), TrackBlocks(s, obs).1, Shown(TrackBlocks(s, obs).0))
  {
    var (sf, e1) := TrackBranch(SF, s.sf, obs.sfTip, Separation(s), obs.at);
    var (sq, e2) := TrackBranch(SQ, s.sq, obs.sqTip, Separation(s), obs.at);
    var m1 := Shown(s.(sf := sf));
    TellsNothing(Shown(s));
    TellsNothing(m1);
    if e1 != [] { TellsOne(Shown(s), e1[0]); }
    if e2 != [] { TellsOne(m1, e2[0]); }
    TellsBoth(Shown(s), e1, m1, e2, Shown(s.(sf := sf, sq := sq)));
  }

  lemma AnchorTells(s: State, obs: Observation)
    ensures Tells(Shown(s), TrackTrustAnchor(s, obs).1, Shown(TrackTrustAnchor(s, obs).0))
  {
    var (s1, e) := TrackTrustAnchor(s, obs);
    TellsNothing(Shown(s));
    if e != [] { TellsOne(Shown(s), e[0]); }
  }

  lemma GatherTells(s: State, obs: Observation)
    ensures Tells(Shown(s), Gather(s, obs).1, Shown(Gather(s, obs).0))
  {
    var (s1, e1) := TrackHealth(s, obs);
    var s2 := TrackForkCandidate(TrackDisagreement(s1, obs), obs);
    var (s3, e3) := TrackBlocks(s2, obs);
    var (s4, e4) := TrackTrustAnchor(s3, obs);
    HealthTells(s, obs);
    BlocksTell(s2, obs);
    AnchorTells(s3, obs);
    assert Shown(s2) == Shown(s1);
    TellsBoth(Shown(s), e1, Shown(s2), e3, Shown(s3));
    TellsBoth(Shown(s), e1 + e3, Shown(s3), e4, Shown(s4));
    assert Shown(Gather(s, obs).0) == Shown(s4);
  }

  lemma PhaseTells(m: Mirror, to: Phase, why: Reason)
    requires to != m.phase
    ensures Tells(m, [PersistState, PhaseChanged(m.phase, to, why)], m.(phase := to))
  {
    var said := [PersistState, PhaseChanged(m.phase, to, why)];
    assert said[..0] == [] && said[..1] == [PersistState];
    ReplayEnds(m, [], PersistState);
    assert [] + [PersistState] == [PersistState];
  }

  lemma StepTells(s: State, obs: Observation)
    ensures Tells(Shown(s), Step(s, obs).1, Shown(Step(s, obs).0))
  {
    var (g, said) := Gather(s, obs);
    var (phase, why) := DecidePhase(g, obs);
    GatherTells(s, obs);
    if phase != g.phase {
      PhaseTells(Shown(g), phase, why);
      TellsBoth(Shown(s), said, Shown(g), [PersistState, PhaseChanged(g.phase, phase, why)], Shown(g).(phase := phase));
    }
  }

  /**
    The effects of a whole run, replayed over what was shown before it, give what the state
    shows after it; every phase change named starts from the phase just reached, goes
    somewhere else, and comes right after a save.
   */
  lemma {:induction false} EffectLogIsComplete(s: State, trace: seq<Observation>)
    ensures Tells(Shown(s), Run(s, trace).1, Shown(After(s, trace)))
    decreases |trace|
  {
    if trace == [] {
      TellsNothing(Shown(s));
    } else {
      var n := |trace| - 1;
      var before := trace[..n];
      EffectLogIsComplete(s, before);
      StepTells(After(s, before), trace[n]);
      TellsBoth(Shown(s), Run(s, before).1, Shown(After(s, before)),
                Step(After(s, before), trace[n]).1, Shown(After(s, trace)));
    }
  }
}
