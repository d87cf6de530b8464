/**
  What the split detector observes and remembers, and one tick of it as a function of both.
  Time is in whole seconds; heights are integers.
 */
module SplitState {
  import opened Options
  import opened BlockTree
  import opened Cadences

  datatype Branch = SF | SQ

  datatype Phase =
    | Unarmed
    | Armed
    | Split
    | Resolving
    | ResolvedSFWon
    | ResolvedSQWon
    | Unrecognised(name: string)
  {
    predicate Resolved() {
      this == ResolvedSFWon || this == ResolvedSQWon
    }
  }

  const NO_PHASE := Unrecognised("")

  datatype Health = Syncing | OK | Degraded | EclipseSuspect | WrongBranch | Down | OtherHealth(name: string) {
    predicate Usable() {
      this == OK || this == Degraded
    }
  }

  const NO_HEALTH := OtherHealth("")

  /** A branch tip as the user's own node reports it; branchLen counts blocks off its active chain. */
  datatype ChainTip = ChainTip(hash: Hash, height: int, branchLen: int, invalid: bool) {
    predicate Rejected() {
      invalid
    }

    /** Where the rejected branch leaves the active chain. */
    function Base(): nat {
      if height < branchLen then 0 else height - branchLen
    }
  }

  datatype HeightDisagreement = HeightDisagreement(height: int, sfHash: Hash, sqHash: Hash)

  datatype Observation = Observation(
    at: int,
    sfTip: Option<BlockMeta>,
    sqTip: Option<BlockMeta>,
    sfHealth: Health,
    sqHealth: Health,
    sfTips: seq<ChainTip>,
    sqAncestry: seq<Hash>,
    sfAncestry: seq<Hash>,
    forkCandidate: Option<BlockRef>,
    forkSearchFailed: bool,
    disagreement: Option<HeightDisagreement>,
    sharedHeightAgreed: bool,
    operatorOutcome: Phase,
    splitConfirmDepth: int,
    splitConfirmSecs: int,
    splitSuspectSecs: int,
    stallFactor: real,
    divergenceHeight: int,
    reorgMargin: int)

  /** What is remembered of one chain: its last tip, its health, its pace, and when a block was last seen. */
  datatype View = View(tip: Option<BlockMeta>, health: Health, cadence: Cadence, lastBlockAt: int) {
    predicate Stalled(obs: Observation) {
      cadence.Stalled(obs.at, lastBlockAt, obs.stallFactor)
    }
  }

  datatype State = State(
    phase: Phase,
    fork: Option<BlockRef>,
    forkCandidate: Option<BlockRef>,
    forkCandidateSince: int,
    disagreement: Option<HeightDisagreement>,
    disagreementSince: int,
    splitSuspected: bool,
    detectedAt: int,
    sf: View,
    sq: View,
    bothDownSince: int,
    resolvingCandidate: Phase,
    trustAnchor: int)

  const NEW_VIEW := View(None, Down, INITIAL, 0)

  const NEW_STATE := State(Unarmed, None, None, 0, None, 0, false, 0, NEW_VIEW, NEW_VIEW, 0, NO_PHASE, 0)

  /** Why a phase changed: the explanation shown to the user, as a value. */
  datatype Reason =
    | Unexplained
    | OperatorSaid
    | ChainsAgree
    | BlockRejected
    | BothBuiltPast
    | HeldApart
    | QuietChainIsBack
    | OtherChainQuiet
    | OwnChainQuiet
    | StateReset

  datatype Effect =
    | PersistState
    | PhaseChanged(oldPhase: Phase, newPhase: Phase, why: Reason)
    | BranchExtended(branch: Branch, block: BlockMeta, sinceForkDepth: int, intervalSecs: real)
    | HealthChanged(branch: Branch, oldHealth: Health, newHealth: Health)
    | BothViewsDown
    | TrustAnchorChanged(height: int)

  const BOTH_DOWN_GRACE_SECS := 600

  // ---- one tick, helper by helper

  function HealthNews(branch: Branch, view: View, reported: Health): (View, seq<Effect>) {
    if reported != NO_HEALTH && reported != view.health
    then (view.(health := reported), [HealthChanged(branch, view.health, reported)])
    else (view, [])
  }

  function TrackHealth(s: State, obs: Observation): (State, seq<Effect>) {
    var (sf, e1) := HealthNews(SF, s.sf, obs.sfHealth);
    var (sq, e2) := HealthNews(SQ, s.sq, obs.sqHealth);
    var bothDown := sf.health == Down && sq.health == Down;
    var report := bothDown && s.bothDownSince != 0 && obs.at - s.bothDownSince >= BOTH_DOWN_GRACE_SECS;
    (s.(sf := sf, sq := sq,
        bothDownSince := if !bothDown then 0
                         else if s.bothDownSince == 0 || report then obs.at
                         else s.bothDownSince),
     e1 + e2 + if report then [BothViewsDown] else [])
  }

  /** The standing hash disagreement and its start, after one more comparison. */
  function DisagreementClock(standing: Option<HeightDisagreement>, since: int, obs: Observation)
    : (Option<HeightDisagreement>, int)
  {
    match obs.disagreement
    case None =>
      if obs.sharedHeightAgreed then (None, 0) else (standing, since)
    case Some(found) =>
      var moved :=
        || standing.None?
        || standing.value.sfHash != found.sfHash
        || standing.value.sqHash != found.sqHash;
      (Some(found), if moved || since == 0 then obs.at else since)
  }

  function TrackDisagreement(s: State, obs: Observation): State {
    var (standing, since) := DisagreementClock(s.disagreement, s.disagreementSince, obs);
    s.(disagreement := standing, disagreementSince := since)
  }

  /** Both tips were read and the search, if one was needed, came back with an answer. */
  predicate Informative(obs: Observation) {
    obs.sfTip.Some? && obs.sqTip.Some? && !obs.forkSearchFailed
  }

  /** Both chains hold a block beyond the separation point found this tick. */
  predicate Mutual(obs: Observation) {
    && Informative(obs)
    && obs.forkCandidate.Some?
    && obs.sfTip.value.height > obs.forkCandidate.value.height
    && obs.sqTip.value.height > obs.forkCandidate.value.height
  }

  /** The tracked separation point and its start, after one more tick. */
  function ForkClock(candidate: Option<BlockRef>, since: int, obs: Observation): (Option<BlockRef>, int) {
    if !Informative(obs) then
      (candidate, since)
    else if !Mutual(obs) then
      (None, 0)
    else
      var moved := candidate.None? || candidate.value.hash != obs.forkCandidate.value.hash;
      (obs.forkCandidate, if moved || since == 0 then obs.at else since)
  }

  function TrackForkCandidate(s: State, obs: Observation): State {
    var (candidate, since) := ForkClock(s.forkCandidate, s.forkCandidateSince, obs);
    s.(forkCandidate := candidate, forkCandidateSince := since)
  }

  function Separation(s: State): Option<BlockRef> {
    if s.fork.Some? then s.fork else s.forkCandidate
  }

  /** Whether an observed tip is one the state does not already hold. */
  predicate NewTip(observed: Option<BlockMeta>, stored: Option<BlockMeta>) {
    observed.Some? && (stored.None? || stored.value.hash != observed.value.hash)
  }

  function Extended(branch: Branch, tip: BlockMeta, cadence: Cadence, fork: Option<BlockRef>): Effect {
    BranchExtended(branch, tip, if fork.Some? then tip.height - fork.value.height else 0, cadence.intervalSecs)
  }

  function TrackBranch(branch: Branch, view: View, observed: Option<BlockMeta>, fork: Option<BlockRef>, now: int)
    : (View, seq<Effect>)
  {
    if NewTip(observed, view.tip) then
      var cadence := view.cadence.Observe(observed.value.time);
      (View(observed, view.health, cadence, now), [Extended(branch, observed.value, cadence, fork)])
    else
      (view, [])
  }

  function TrackBlocks(s: State, obs: Observation): (State, seq<Effect>) {
    var (sf, e1) := TrackBranch(SF, s.sf, obs.sfTip, Separation(s), obs.at);
    var (sq, e2) := TrackBranch(SQ, s.sq, obs.sqTip, Separation(s), obs.at);
    (s.(sf := sf, sq := sq), e1 + e2)
  }

  /** The lowest base among the branches the user's node rejected. */
  function EarliestRejected(tips: seq<ChainTip>): (r: Option<nat>)
    ensures r.Some? <==> exists t :: t in tips && t.Rejected()
    ensures r.Some? ==> exists t :: t in tips && t.Rejected() && t.Base() == r.value
    ensures r.Some? ==> forall t :: t in tips && t.Rejected() ==> r.value <= t.Base()
  {
    if tips == [] then
      None
    else
      var n := |tips| - 1;
      var before := EarliestRejected(tips[..n]);
      assert tips == tips[..n] + [tips[n]];
      if tips[n].Rejected() && (before.None? || tips[n].Base() < before.value)
      then Some(tips[n].Base()) else before
  }

  /** Folds one more bound into the best so far; a negative bound is ignored. */
  function Consider(best: Option<int>, bound: int): Option<int> {
    if bound < 0 then best
    else if best.None? || bound < best.value then Some(bound)
    else best
  }

  function TrustAnchorHeight(obs: Observation, fork: Option<BlockRef>): Option<int> {
    var b1 := if obs.divergenceHeight > 0 then Consider(None, obs.divergenceHeight - 1) else None;
    var rejected := EarliestRejected(obs.sfTips);
    var b2 := if rejected.Some? then Consider(b1, rejected.value - 1) else b1;
    var b3 := if fork.Some? then Consider(b2, fork.value.height) else b2;
    if obs.sfTip.Some? && obs.reorgMargin > 0
    then Consider(b3, obs.sfTip.value.height - obs.reorgMargin) else b3
  }

  function TrackTrustAnchor(s: State, obs: Observation): (State, seq<Effect>) {
    var anchor := TrustAnchorHeight(obs, s.fork);
    if anchor.None? || anchor.value == s.trustAnchor then (s, [])
    else (s.(trustAnchor := anchor.value), [TrustAnchorChanged(anchor.value)])
  }

  function TipHeight(tip: Option<BlockMeta>): int {
    if tip.None? then 0 else tip.value.height
  }

  function DivergedDepth(tipHeight: int, forkHeight: int): nat {
    if tipHeight < forkHeight then 0 else tipHeight - forkHeight
  }

  predicate Lasted(obs: Observation, since: int) {
    obs.splitSuspectSecs > 0 && since > 0 && obs.at - since >= obs.splitSuspectSecs
  }

  predicate SuspectSplit(s: State, obs: Observation) {
    if s.disagreement.Some? && Lasted(obs, s.disagreementSince) then
      true
    else if s.forkCandidate.None? || s.forkCandidateSince == 0 then
      false
    else if DivergedDepth(TipHeight(s.sf.tip), s.forkCandidate.value.height) > 1
         || DivergedDepth(TipHeight(s.sq.tip), s.forkCandidate.value.height) > 1 then
      true
    else
      Lasted(obs, s.forkCandidateSince)
  }

  // ---- the transition table

  function AtLeastOne(depth: int): (d: int) {
    if depth < 1 then 1 else depth
  }

  /** Whether h is among the first limit hashes, which are ordered newest first. */
  predicate ContainsWithin(hashes: seq<Hash>, h: Hash, limit: int) {
    exists i | 0 <= i < |hashes| :: i < limit && hashes[i] == h
  }

  predicate TipsAgree(sf: Option<BlockMeta>, sq: Option<BlockMeta>, confirmDepth: int,
                      sfAncestry: seq<Hash>, sqAncestry: seq<Hash>)
  {
    if sf.None? || sq.None? then
      false
    else if sf.value.hash == sq.value.hash then
      true
    else
      var depth := AtLeastOne(confirmDepth);
      if sf.value.height < sq.value.height && sq.value.height - sf.value.height <= depth then
        ContainsWithin(sqAncestry, sf.value.hash, depth + 1)
      else if sq.value.height < sf.value.height && sf.value.height - sq.value.height <= depth then
        ContainsWithin(sfAncestry, sq.value.hash, depth + 1)
      else
        false
  }

  predicate InvalidTipMatchesSQ(sqAncestry: seq<Hash>, sqTip: Hash, tip: ChainTip) {
    && tip.Rejected()
    && (tip.hash == sqTip || ContainsWithin(sqAncestry, tip.hash, AtLeastOne(tip.branchLen)))
  }

  /** Some branch the user's node rejected leads to the watched chain. */
  predicate RejectedMatch(sqTip: Option<BlockMeta>, obs: Observation) {
    && sqTip.Some?
    && exists i | 0 <= i < |obs.sfTips| :: InvalidTipMatchesSQ(obs.sqAncestry, sqTip.value.hash, obs.sfTips[i])
  }

  datatype Evidence = Nothing | Rejected | DivergedFar | DivergedSustained

  function SplitEvidence(s: State, obs: Observation): Evidence {
    var depth := AtLeastOne(obs.splitConfirmDepth);
    if RejectedMatch(s.sq.tip, obs) then
      Rejected
    else if obs.forkCandidate.Some? && s.sf.tip.Some? && s.sq.tip.Some?
            && DivergedDepth(s.sf.tip.value.height, obs.forkCandidate.value.height) >= depth
            && DivergedDepth(s.sq.tip.value.height, obs.forkCandidate.value.height) >= depth then
      DivergedFar
    else if obs.splitConfirmSecs <= 0 || s.forkCandidateSince == 0
            || obs.at - s.forkCandidateSince < obs.splitConfirmSecs || s.forkCandidate.None? then
      Nothing
    else
      var sfLead := DivergedDepth(TipHeight(s.sf.tip), s.forkCandidate.value.height);
      var sqLead := DivergedDepth(TipHeight(s.sq.tip), s.forkCandidate.value.height);
      if (if sqLead > sfLead then sqLead else sfLead) >= depth then DivergedSustained else Nothing
  }

  function OnEvidence(s: State, obs: Observation): (Phase, Reason) {
    match SplitEvidence(s, obs)
    case Rejected => (Split, BlockRejected)
    case DivergedFar => (Split, BothBuiltPast)
    case DivergedSustained => (Split, HeldApart)
    case Nothing => (s.phase, Unexplained)
  }

  function DecideFromUnarmed(s: State, obs: Observation): (Phase, Reason)
    requires s.phase == Unarmed
  {
    if !s.sf.health.Usable() || !s.sq.health.Usable() then
      (Unarmed, Unexplained)
    else if TipsAgree(s.sf.tip, s.sq.tip, obs.splitConfirmDepth, obs.sfAncestry, obs.sqAncestry) then
      (Armed, ChainsAgree)
    else
      OnEvidence(s, obs)
  }

  function DecideFromArmed(s: State, obs: Observation): (Phase, Reason)
    requires s.phase == Armed
  {
    if TipsAgree(s.sf.tip, s.sq.tip, obs.splitConfirmDepth, obs.sfAncestry, obs.sqAncestry) then
      (Armed, Unexplained)
    else
      OnEvidence(s, obs)
  }

  /** Whether the chain that would not have persisted, were candidate the outcome, has gone quiet. */
  predicate StalledBranch(s: State, obs: Observation, candidate: Phase) {
    match candidate
    case ResolvedSFWon => s.sq.Stalled(obs)
    case ResolvedSQWon => s.sf.Stalled(obs)
    case _ => false
  }

  function DecideFromSplit(s: State, obs: Observation): (Phase, Reason) {
    var sfStalled := StalledBranch(s, obs, ResolvedSQWon);
    var sqStalled := StalledBranch(s, obs, ResolvedSFWon);
    if sqStalled && !sfStalled then (Resolving, OtherChainQuiet)
    else if sfStalled && !sqStalled then (Resolving, OwnChainQuiet)
    else (Split, Unexplained)
  }

  function DecidePhase(s: State, obs: Observation): (Phase, Reason) {
    if s.phase == Resolving && obs.operatorOutcome.Resolved() then
      (obs.operatorOutcome, OperatorSaid)
    else
      match s.phase
      case Unarmed => DecideFromUnarmed(s, obs)
      case Armed => DecideFromArmed(s, obs)
      case Split => DecideFromSplit(s, obs)
      case Resolving =>
        if !StalledBranch(s, obs, s.resolvingCandidate) then (Split, QuietChainIsBack) else (Resolving, Unexplained)
      case ResolvedSFWon => (s.phase, Unexplained)
      case ResolvedSQWon => (s.phase, Unexplained)
      case Unrecognised(_) => (Unarmed, StateReset)
  }

  function ApplyPhase(s: State, to: Phase, obs: Observation): State {
    match to
    case Split =>
      var fork := if s.fork.Some? then s.fork
                  else if s.forkCandidate.Some? then s.forkCandidate
                  else obs.forkCandidate;
      s.(fork := fork,
         detectedAt := if s.fork.None? then obs.at else s.detectedAt,
         resolvingCandidate := NO_PHASE,
         phase := to)
    case Resolving =>
      s.(resolvingCandidate :=
           if s.sq.Stalled(obs) then ResolvedSFWon else ResolvedSQWon,
         phase := to)
    case _ =>
      s.(phase := to)
  }

  // ---- the tick

  /** Everything a tick does before the phase is decided. */
  function Gather(s: State, obs: Observation): (State, seq<Effect>) {
    var (s1, e1) := TrackHealth(s, obs);
    var s2 := TrackForkCandidate(TrackDisagreement(s1, obs), obs);
    var (s3, e3) := TrackBlocks(s2, obs);
    var (s4, e4) := TrackTrustAnchor(s3, obs);
    (s4.(splitSuspected := SuspectSplit(s4, obs)), e1 + e3 + e4)
  }

  function Step(s: State, obs: Observation): (State, seq<Effect>) {
    var (g, said) := Gather(s, obs);
    var (phase, why) := DecidePhase(g, obs);
    if phase != g.phase
    then (ApplyPhase(g, phase, obs), said + [PersistState, PhaseChanged(g.phase, phase, why)])
    else (g, said)
  }

  /** The state and everything said after a whole sequence of ticks. */
  function Run(s: State, trace: seq<Observation>): (State, seq<Effect>)
    decreases |trace|
  {
    if trace == [] then
      (s, [])
    else
      var n := |trace| - 1;
      var (mid, said) := Run(s, trace[..n]);
      var (next, more) := Step(mid, trace[n]);
      (next, said + more)
  }

  function After(s: State, trace: seq<Observation>): State {
    Run(s, trace).0
  }
}
