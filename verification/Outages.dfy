/**
  What an outage can do to the phase. The documentation says it changes nothing; these are
  the exact conditions under which a tick that reads neither chain moves the machine.
 */
module Outages {
  import opened Options
  import opened BlockTree
  import opened Cadences
  import opened SplitState
  import opened SplitRuns

  /** A tick on which neither view could be read and no operator spoke. */
  ghost predicate Blind(obs: Observation) {
    obs.sfTip.None? && obs.sqTip.None? && obs.forkCandidate.None? && !obs.operatorOutcome.Resolved()
  }

  lemma BlindGather(s: State, obs: Observation)
    requires Blind(obs)
    ensures var g := Gather(s, obs).0;
            && g.sf == s.sf.(health := HealthAfter(s.sf, obs.sfHealth))
            && g.sq == s.sq.(health := HealthAfter(s.sq, obs.sqHealth))
            && g.phase == s.phase && g.resolvingCandidate == s.resolvingCandidate && g.fork == s.fork
            && g.forkCandidate == s.forkCandidate && g.forkCandidateSince == s.forkCandidateSince
  {
    GatherFields(s, obs);
    GatherViews(s, obs);
  }

  /**
    The separation recorded before the lights went out has, by the clock that kept running,
    stood for the confirmation time, and a chain's last known tip leads it far enough.
   */
  predicate LongApart(s: State, obs: Observation) {
    && obs.splitConfirmSecs > 0
    && s.forkCandidate.Some? && s.forkCandidateSince != 0
    && obs.at - s.forkCandidateSince >= obs.splitConfirmSecs
    && (|| Height(s.sf) - s.forkCandidate.value.height >= AtLeastOne(obs.splitConfirmDepth)
        || Height(s.sq) - s.forkCandidate.value.height >= AtLeastOne(obs.splitConfirmDepth))
  }

  /** The height a view has been seen to reach; zero before any tip was seen. */
  function Height(view: View): int {
    match view.tip
    case None => 0
    case Some(tip) => tip.height
  }

  predicate LastTipsAgree(s: State, obs: Observation) {
    TipsAgree(s.sf.tip, s.sq.tip, obs.splitConfirmDepth, obs.sfAncestry, obs.sqAncestry)
  }

  /** What a blind tick can still hold against the chains: a rejected branch, or the running clock. */
  predicate BlindEvidence(s: State, obs: Observation) {
    RejectedMatch(s.sq.tip, obs) || LongApart(s, obs)
  }

  lemma BlindEvidenceIsAll(s: State, g: State, obs: Observation)
    requires Blind(obs)
    requires g.sf.tip == s.sf.tip && g.sq.tip == s.sq.tip
    requires g.forkCandidate == s.forkCandidate && g.forkCandidateSince == s.forkCandidateSince
    ensures SplitEvidence(g, obs) != Nothing <==> BlindEvidence(s, obs)
  {}

  /** Whether a blind tick moves the machine, phase by phase. */
  predicate BlindMoves(s: State, obs: Observation) {
    match s.phase
    case Unarmed =>
      && HealthAfter(s.sf, obs.sfHealth).Usable() && HealthAfter(s.sq, obs.sqHealth).Usable()
      && (LastTipsAgree(s, obs) || BlindEvidence(s, obs))
    case Armed => !LastTipsAgree(s, obs) && BlindEvidence(s, obs)
    case Split => s.sf.Stalled(obs) != s.sq.Stalled(obs)
    case Resolving => !StalledBranch(s, obs, s.resolvingCandidate)
    case ResolvedSFWon => false
    case ResolvedSQWon => false
    case Unrecognised(_) => true
  }

  /**
    An outage moves the phase exactly so: out of UNARMED or ARMED when what was last known
    agrees, or holds the chains apart for long enough by a clock that kept running; out of
    SPLIT when one chain and only one counts as quiet; out of RESOLVING when the quiet chain
    no longer counts as quiet; never out of a resolved phase.
   */
  lemma OutageMovesIff(s: State, obs: Observation)
    requires Blind(obs)
    ensures Step(s, obs).0.phase != s.phase <==> BlindMoves(s, obs)
  {
    var g := Gather(s, obs).0;
    BlindGather(s, obs);
    StepFields(s, obs);
    BlindEvidenceIsAll(s, g, obs);
  }

  /** Where it moves to. */
  lemma OutageMovesTo(s: State, obs: Observation)
    requires Blind(obs) && BlindMoves(s, obs)
    ensures var n := Step(s, obs).0;
            match s.phase
            case Unarmed => n.phase == (if LastTipsAgree(s, obs) then Armed else Split)
            case Armed => n.phase == Split
            case Split => n.phase == Resolving
                          && n.resolvingCandidate == (if s.sq.Stalled(obs) then ResolvedSFWon else ResolvedSQWon)
            case Resolving => n.phase == Split
            case _ => n.phase == Unarmed
  {
    var g := Gather(s, obs).0;
    BlindGather(s, obs);
    StepFields(s, obs);
    BlindEvidenceIsAll(s, g, obs);
  }

  // ---- a run that shows it

  /** A tick that reads nothing, under the default six hundred seconds a block. */
  const DARK := Observation(0, None, None, NO_HEALTH, NO_HEALTH, [], [], [], None, false, None, false,
                            NO_PHASE, 3, 3600, 1200, 6.0, 0, 100)

  const SHARED := BlockMeta(10, 10, 9, 100)
  const OWN := BlockMeta(11, 11, 10, 700)
  const OTHER := BlockMeta(23, 13, 22, 900)
  const NEXT_OTHER := BlockMeta(24, 14, 23, 3900)

  /** The chains agree; then one stands a block and the other three blocks past what they share. */
  const TOGETHER := DARK.(at := 100, sfTip := Some(SHARED), sqTip := Some(SHARED), sfHealth := OK, sqHealth := OK)
  const APART := DARK.(at := 1000, sfTip := Some(OWN), sqTip := Some(OTHER), sfAncestry := [11, 10],
                       sqAncestry := [23, 22, 21, 10], forkCandidate := Some(SHARED.Ref()))
  /** Only the other chain can still be read; then neither. */
  const HALF_DARK := DARK.(at := 4000, sqTip := Some(NEXT_OTHER), sqAncestry := [24, 23, 22, 21])
  const DARK_ONE := DARK.(at := 4700)
  const DARK_TWO := DARK.(at := 4760)

  const BEFORE_DARK := [TOGETHER, APART, HALF_DARK]

  lemma RunOfThree(a: Observation, b: Observation, c: Observation)
    ensures After(NEW_STATE, [a, b, c]) == Step(Step(Step(NEW_STATE, a).0, b).0, c).0
  {
    assert [a, b, c] == [a, b] + [c] && [a, b] == [a] + [b] && [a] == [] + [a];
    RunExtends(NEW_STATE, [], a);
    RunExtends(NEW_STATE, [a], b);
    RunExtends(NEW_STATE, [a, b], c);
  }

  /** What matters of the state tick by tick, up to the one the lights go out on. */
  ghost predicate Agreed(s: State) {
    && s.phase == Armed && s.fork.None? && s.forkCandidate.None?
    && s.sf == s.sq == View(Some(SHARED), OK, Cadence(NOMINAL_SECS, 100, 0), 100)
  }

  ghost predicate Parted(s: State) {
    && s.phase == Armed && s.fork.None?
    && s.forkCandidate == Some(SHARED.Ref()) && s.forkCandidateSince == 1000
    && s.sf == View(Some(OWN), OK, Cadence(NOMINAL_SECS, 700, 1), 1000)
    && s.sq == View(Some(OTHER), OK, Cadence(660.0, 900, 1), 1000)
  }

  ghost predicate AtDusk(s: State) {
    && s.phase == Armed && s.fork.None?
    && s.forkCandidate == Some(SHARED.Ref()) && s.forkCandidateSince == 1000
    && LastSeen(s)
  }

  ghost predicate LastSeen(s: State) {
    && s.sf == View(Some(OWN), OK, Cadence(NOMINAL_SECS, 700, 1), 1000)
    && s.sq == View(Some(NEXT_OTHER), OK, Cadence(1362.0, 3900, 2), 4000)
  }

  lemma FirstTick()
    ensures Agreed(Step(NEW_STATE, TOGETHER).0)
  {
    GatherFields(NEW_STATE, TOGETHER);
    GatherViews(NEW_STATE, TOGETHER);
    StepFields(NEW_STATE, TOGETHER);
  }

  lemma SecondTick(s: State)
    requires Agreed(s)
    ensures Parted(Step(s, APART).0)
  {
    GatherFields(s, APART);
    GatherViews(s, APART);
    StepFields(s, APART);
  }

  lemma ThirdTick(s: State)
    requires Parted(s)
    ensures AtDusk(Step(s, HALF_DARK).0)
  {
    GatherFields(s, HALF_DARK);
    GatherViews(s, HALF_DARK);
    StepFields(s, HALF_DARK);
  }

  lemma FirstDarkTick(s: State)
    requires AtDusk(s)
    ensures Blind(DARK_ONE) && Step(s, DARK_ONE).0.phase == Split && LastSeen(Step(s, DARK_ONE).0)
  {
    OutageMovesTo(s, DARK_ONE);
    GatherViews(s, DARK_ONE);
    StepFields(s, DARK_ONE);
  }

  lemma SecondDarkTick(s: State)
    requires s.phase == Split && LastSeen(s)
    ensures var n := Step(s, DARK_TWO).0;
            Blind(DARK_TWO) && n.phase == Resolving && n.resolvingCandidate == ResolvedSQWon
  {
    OutageMovesTo(s, DARK_TWO);
  }

  lemma Dusk()
    ensures AtDusk(After(NEW_STATE, BEFORE_DARK))
  {
    RunOfThree(TOGETHER, APART, HALF_DARK);
    FirstTick();
    SecondTick(Step(NEW_STATE, TOGETHER).0);
    ThirdTick(Step(Step(NEW_STATE, TOGETHER).0, APART).0);
  }

  /** A machine that was watching declares a split in the dark: a block of its own stood against three, an hour ago. */
  lemma OutageCanDeclareSplit()
    ensures Blind(DARK_ONE)
    ensures After(NEW_STATE, BEFORE_DARK).phase == Armed
    ensures After(NEW_STATE, BEFORE_DARK + [DARK_ONE]).phase == Split
  {
    Dusk();
    RunExtends(NEW_STATE, BEFORE_DARK, DARK_ONE);
    FirstDarkTick(After(NEW_STATE, BEFORE_DARK));
  }

  /** A minute later it takes the same split to be resolving, against the chain that was last seen first. */
  lemma OutageCanLeaveSplit()
    ensures Blind(DARK_TWO)
    ensures var n := After(NEW_STATE, BEFORE_DARK + [DARK_ONE] + [DARK_TWO]);
            n.phase == Resolving && n.resolvingCandidate == ResolvedSQWon
  {
    Dusk();
    FirstDarkTick(After(NEW_STATE, BEFORE_DARK));
    RunExtends(NEW_STATE, BEFORE_DARK, DARK_ONE);
    RunExtends(NEW_STATE, BEFORE_DARK + [DARK_ONE], DARK_TWO);
    SecondDarkTick(After(NEW_STATE, BEFORE_DARK + [DARK_ONE]));
  }
}
