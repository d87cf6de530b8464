/**
  What a split leaves on record: the separation point, and the height up to which the user's
  own chain is trusted.
 */
module SplitRecords {
  import opened Options
  import opened BlockTree
  import opened Cadences
  import opened SplitState
  import opened SplitRuns

  // ---- the separation point

  /**
    Whether a tick enters SPLIT, said of what it knows before it decides: from UNARMED or
    ARMED on evidence between tips that do not agree, from RESOLVING when the quiet chain is
    no longer quiet and no operator spoke; never from SPLIT itself.
   */
  predicate EntersSplit(s: State, obs: Observation) {
    var g := Gather(s, obs).0;
    var apart := !TipsAgree(g.sf.tip, g.sq.tip, obs.splitConfirmDepth, obs.sfAncestry, obs.sqAncestry)
                 && SplitEvidence(g, obs) != Nothing;
    match s.phase
    case Unarmed => g.sf.health.Usable() && g.sq.health.Usable() && apart
    case Armed => apart
    case Resolving => !obs.operatorOutcome.Resolved() && !StalledBranch(g, obs, s.resolvingCandidate)
    case _ => false
  }

  lemma EntersSplitIff(s: State, obs: Observation)
    ensures EntersSplit(s, obs) <==> Step(s, obs).0.phase == Split != s.phase
  {
    GatherFields(s, obs);
    StepFields(s, obs);
  }

  /** The separation point in hand on a tick: the tracked one, or else the one just found. */
  function InHand(s: State, obs: Observation): Option<BlockRef> {
    var tracked := ForkClock(s.forkCandidate, s.forkCandidateSince, obs).0;
    if tracked.Some? then tracked else obs.forkCandidate
  }

  /**
    A missing separation point is filled in exactly by a tick that enters SPLIT with a
    candidate in hand, and with that candidate; never by a search while the split stands.
   */
  lemma ForkIsFilledIff(s: State, obs: Observation)
    requires s.fork.None?
    ensures var n := Step(s, obs).0;
            && (n.fork.Some? <==> EntersSplit(s, obs) && InHand(s, obs).Some?)
            && (n.fork.Some? ==> n.fork == InHand(s, obs))
  {
    GatherFields(s, obs);
    StepFields(s, obs);
    EntersSplitIff(s, obs);
  }

  /** The time of detection is that of the latest tick that entered SPLIT without a separation point on record. */
  lemma DetectedIff(s: State, obs: Observation)
    ensures Step(s, obs).0.detectedAt == if s.fork.None? && EntersSplit(s, obs) then obs.at else s.detectedAt
  {
    GatherFields(s, obs);
    StepFields(s, obs);
    EntersSplitIff(s, obs);
  }

  /** Which chain seems to have won: none once the machine enters SPLIT, and named on entering RESOLVING only. */
  lemma CandidateAfterTick(s: State, obs: Observation)
    ensures var n := Step(s, obs).0;
            n.resolvingCandidate ==
              if EntersSplit(s, obs) then NO_PHASE
              else if s.phase == Split && n.phase == Resolving then (if n.sq.Stalled(obs) then ResolvedSFWon else ResolvedSQWon)
              else s.resolvingCandidate
  {
    GatherFields(s, obs);
    StepFields(s, obs);
    StepIsSafe(s, obs);
    EntersSplitIff(s, obs);
  }

  /** A split confirmed by a rejected branch before any search has succeeded has no separation point. */
  lemma RejectedSplitHasNoFork(s: State, obs: Observation)
    requires s.phase == Armed && s.fork.None? && obs.forkCandidate.None?
    requires ForkClock(s.forkCandidate, s.forkCandidateSince, obs).0.None?
    requires RejectedMatch(Held(obs.sqTip, s.sq.tip), obs)
    requires !TipsAgree(Held(obs.sfTip, s.sf.tip), Held(obs.sqTip, s.sq.tip), obs.splitConfirmDepth,
                        obs.sfAncestry, obs.sqAncestry)
    ensures Step(s, obs).0.phase == Split && Step(s, obs).0.fork.None?
  {
    GatherFields(s, obs);
    StepFields(s, obs);
  }

  /** A search that then finds it, with both chains alive, is not recorded. */
  lemma SearchDoesNotFill(s: State, obs: Observation)
    requires s.phase == Split && s.fork.None?
    requires Mutual(obs) && obs.at == 2000 && obs.stallFactor == 6.0
    requires s.sf.cadence.intervalSecs == s.sq.cadence.intervalSecs == NOMINAL_SECS
    requires s.sf.lastBlockAt == 1900 && s.sq.lastBlockAt == 1900
    requires s.sf.tip == obs.sfTip && s.sq.tip == obs.sqTip
    ensures var n := Step(s, obs).0;
            n.phase == Split && n.forkCandidate == obs.forkCandidate && n.forkCandidate.Some? && n.fork.None?
  {
    GatherFields(s, obs);
    GatherViews(s, obs);
    StepFields(s, obs);
    var g := Gather(s, obs).0;
    assert !g.sf.Stalled(obs) && !g.sq.Stalled(obs);
  }

  ghost predicate StaysSplit(s: State, trace: seq<Observation>) {
    forall k :: 0 <= k <= |trace| ==> After(s, trace[..k]).phase == Split
  }

  /** As long as the phase stays SPLIT, no number of searches ever fills it in. */
  lemma {:induction false} SearchesNeverFill(s: State, trace: seq<Observation>)
    requires s.fork.None? && StaysSplit(s, trace)
    ensures After(s, trace).fork.None?
    decreases |trace|
  {
    if trace != [] {
      var n := |trace| - 1;
      forall k | 0 <= k <= n ensures After(s, trace[..n][..k]).phase == Split {
        assert trace[..n][..k] == trace[..k];
      }
      SearchesNeverFill(s, trace[..n]);
      assert trace[..n + 1] == trace;
      assert After(s, trace[..n]).phase == Split && After(s, trace[..n + 1]).phase == Split;
      ForkIsFilledIff(After(s, trace[..n]), trace[n]);
      EntersSplitIff(After(s, trace[..n]), trace[n]);
    }
  }

  // ---- the trust anchor

  /** The heights the documentation says the anchor must not exceed, whatever their sign. */
  ghost predicate DocumentedBound(obs: Observation, fork: Option<BlockRef>, bound: int) {
    || (obs.divergenceHeight > 0 && bound == obs.divergenceHeight - 1)
    || (exists x :: x in obs.sfTips && x.Rejected() && bound == x.Base() - 1)
    || (fork.Some? && bound == fork.value.height)
    || (obs.sfTip.Some? && obs.reorgMargin > 0 && bound == obs.sfTip.value.height - obs.reorgMargin)
  }

  predicate LowestRejected(tips: seq<ChainTip>, x: ChainTip) {
    x in tips && x.Rejected() && forall y :: y in tips && y.Rejected() ==> x.Base() <= y.Base()
  }

  /** The same heights as the code weighs them: of the rejected branches, only the lowest. */
  ghost predicate WeighedBound(obs: Observation, fork: Option<BlockRef>, bound: int) {
    || (obs.divergenceHeight > 0 && bound == obs.divergenceHeight - 1)
    || (exists x :: LowestRejected(obs.sfTips, x) && bound == x.Base() - 1)
    || (fork.Some? && bound == fork.value.height)
    || (obs.sfTip.Some? && obs.reorgMargin > 0 && bound == obs.sfTip.value.height - obs.reorgMargin)
  }

  lemma LowestIsEarliest(obs: Observation, fork: Option<BlockRef>)
    ensures var rejected := EarliestRejected(obs.sfTips);
            && (rejected.Some? ==> WeighedBound(obs, fork, rejected.value - 1))
            && (forall x :: LowestRejected(obs.sfTips, x) ==> rejected.Some? && rejected.value == x.Base())
  {
    var rejected := EarliestRejected(obs.sfTips);
    if rejected.Some? {
      var lowest: int := rejected.value;
      var x :| x in obs.sfTips && x.Rejected() && x.Base() == lowest;
      assert LowestRejected(obs.sfTips, x);
      assert WeighedBound(obs, fork, lowest - 1);
    }
  }

  /** There is an anchor exactly when some weighed bound is not negative, and it is the least of those. */
  lemma AnchorIsLeastWeighed(obs: Observation, fork: Option<BlockRef>)
    ensures var anchor := TrustAnchorHeight(obs, fork);
            && (anchor.None? <==> forall b :: WeighedBound(obs, fork, b) ==> b < 0)
            && (anchor.Some? ==> anchor.value >= 0 && WeighedBound(obs, fork, anchor.value))
            && (anchor.Some? ==> forall b :: WeighedBound(obs, fork, b) && b >= 0 ==> anchor.value <= b)
  {
    var anchor := TrustAnchorHeight(obs, fork);
    AnchorIsWeighed(obs, fork);
    forall b | WeighedBound(obs, fork, b) && b >= 0 ensures anchor.Some? && anchor.value <= b {
      AnchorIsNoHigher(obs, fork, b);
    }
  }

  lemma AnchorIsWeighed(obs: Observation, fork: Option<BlockRef>)
    ensures var anchor := TrustAnchorHeight(obs, fork);
            anchor.Some? ==> anchor.value >= 0 && WeighedBound(obs, fork, anchor.value)
  {
    LowestIsEarliest(obs, fork);
  }

  lemma AnchorIsNoHigher(obs: Observation, fork: Option<BlockRef>, b: int)
    requires WeighedBound(obs, fork, b) && b >= 0
    ensures TrustAnchorHeight(obs, fork).Some? && TrustAnchorHeight(obs, fork).value <= b
  {
    LowestIsEarliest(obs, fork);
  }

  /**
    The anchor respects every documented bound exactly when none is negative: a negative
    bound is dropped, not clamped.
   */
  lemma AnchorRespectsBoundsIff(obs: Observation, fork: Option<BlockRef>)
    ensures var anchor := TrustAnchorHeight(obs, fork);
            && (anchor.Some? ==> anchor.value >= 0 && DocumentedBound(obs, fork, anchor.value))
            && (anchor.Some? ==>
                  ((forall b :: DocumentedBound(obs, fork, b) ==> anchor.value <= b)
                   <==> (forall b :: DocumentedBound(obs, fork, b) ==> b >= 0)))
            && (anchor.None? ==>
                  ((exists b :: DocumentedBound(obs, fork, b)) ==> exists b :: DocumentedBound(obs, fork, b) && b < 0))
  {
    AnchorIsLeastWeighed(obs, fork);
    var anchor := TrustAnchorHeight(obs, fork);
    forall b | WeighedBound(obs, fork, b) ensures DocumentedBound(obs, fork, b) {}
    forall b | DocumentedBound(obs, fork, b)
      ensures WeighedBound(obs, fork, b) || exists c :: WeighedBound(obs, fork, c) && c <= b
    {
      if !WeighedBound(obs, fork, b) {
        LowerRejection(obs, fork, b);
      }
    }
  }

  /** A rejection that is not weighed is no lower than one that is. */
  lemma LowerRejection(obs: Observation, fork: Option<BlockRef>, b: int)
    requires DocumentedBound(obs, fork, b) && !WeighedBound(obs, fork, b)
    ensures exists c :: WeighedBound(obs, fork, c) && c <= b
  {
    LowestIsEarliest(obs, fork);
    var x :| x in obs.sfTips && x.Rejected() && b == x.Base() - 1;
    assert WeighedBound(obs, fork, EarliestRejected(obs.sfTips).value - 1);
  }

  /** A node that rejected a branch from genesis still gets an anchor just below its own tip. */
  lemma AnchorIgnoresDeepRejection(obs: Observation, tip: BlockMeta)
    requires obs.sfTips == [ChainTip(7, 3, 3, true)]
    requires obs.divergenceHeight == 0 && obs.reorgMargin == 100
    requires obs.sfTip == Some(tip) && tip.height == 900000
    ensures DocumentedBound(obs, None, -1)
    ensures TrustAnchorHeight(obs, None) == Some(899900)
  {
    var x := obs.sfTips[0];
    assert x in obs.sfTips && x.Rejected() && x.Base() == 0;
    assert obs.sfTips[..0] == [];
    assert EarliestRejected(obs.sfTips) == Some(0);
  }

  /** After a tick the anchor is the bound worked out from the separation known before it, or is left as it was. */
  lemma AnchorAfterStep(s: State, obs: Observation)
    ensures var anchor := TrustAnchorHeight(obs, s.fork);
            Step(s, obs).0.trustAnchor == if anchor.Some? then anchor.value else s.trustAnchor
  {
    StepFields(s, obs);
    var s1 := TrackHealth(s, obs).0;
    var s2 := TrackForkCandidate(TrackDisagreement(s1, obs), obs);
    assert s2.fork == s.fork && s2.trustAnchor == s.trustAnchor;
    var s3 := TrackBlocks(s2, obs).0;
    assert s3.fork == s.fork && s3.trustAnchor == s.trustAnchor;
    assert Gather(s, obs).0.trustAnchor == TrackTrustAnchor(s3, obs).0.trustAnchor;
  }

  /** With every bound negative the old anchor stands, however far above them. */
  lemma AnchorCanBeStale(s: State, obs: Observation, tip: BlockMeta)
    requires obs.sfTips == [] && obs.divergenceHeight == 0 && obs.reorgMargin == 100
    requires obs.sfTip == Some(tip) && tip.height == 50 && s.fork.None? && s.trustAnchor == 400
    ensures DocumentedBound(obs, s.fork, -50) && Step(s, obs).0.trustAnchor == 400
  {
    AnchorAfterStep(s, obs);
  }

  /**
    On the tick that records a separation point the anchor is still worked out without it.
    It respects the new point exactly when some other bound already does, or when there is
    no other bound to weigh and the old anchor did.
   */
  lemma AnchorOnRecordingTickIff(s: State, obs: Observation)
    requires s.fork.None? && EntersSplit(s, obs) && InHand(s, obs).Some?
    ensures var n, h := Step(s, obs).0, InHand(s, obs).value.height;
            && n.fork == InHand(s, obs)
            && (n.trustAnchor <= h <==>
                  || (exists b :: WeighedBound(obs, None, b) && 0 <= b <= h)
                  || ((forall b :: WeighedBound(obs, None, b) ==> b < 0) && s.trustAnchor <= h))
  {
    ForkIsFilledIff(s, obs);
    AnchorAfterStep(s, obs);
    AnchorIsLeastWeighed(obs, None);
  }

  /** One tick that records a separation ten blocks down and leaves the anchor one block down. */
  lemma AnchorAboveNewFork(s: State, obs: Observation, sf: BlockMeta, sq: BlockMeta, fork: BlockRef)
    requires s.phase == Armed && s.fork.None? && s.forkCandidate.None?
    requires s.sf.tip == obs.sfTip == Some(sf) && s.sq.tip == obs.sqTip == Some(sq)
    requires sf.height == sq.height == 1000 && sf.hash != sq.hash && fork.height == 990
    requires obs.forkCandidate == Some(fork) && !obs.forkSearchFailed && obs.splitConfirmDepth == 6
    requires obs.divergenceHeight == 0 && obs.sfTips == [] && obs.reorgMargin == 1
    ensures var n := Step(s, obs).0;
            n.phase == Split && n.fork == Some(fork) && n.trustAnchor == 999 > fork.height
  {
    GatherFields(s, obs);
    StepFields(s, obs);
    AnchorAfterStep(s, obs);
  }

  /** From the tick after a separation point is recorded, the anchor never stands above it. */
  lemma AnchorStaysUnderFork(s: State, trace: seq<Observation>)
    requires s.fork.Some? && s.fork.value.height >= 0 && trace != []
    ensures 0 <= After(s, trace).trustAnchor <= s.fork.value.height
  {
    var n := |trace| - 1;
    RunIsSafe(s, trace[..n]);
    AnchorAfterStep(After(s, trace[..n]), trace[n]);
    AnchorRespectsFork(trace[n], s.fork);
  }

  lemma AnchorRespectsFork(obs: Observation, fork: Option<BlockRef>)
    requires fork.Some? && fork.value.height >= 0
    ensures TrustAnchorHeight(obs, fork).Some? && 0 <= TrustAnchorHeight(obs, fork).value <= fork.value.height
  {}
}
