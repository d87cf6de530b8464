/**
  One tick as it runs: a mutable copy of the state, updated field by field by the tracking
  helpers, each proved against the function of the same name in SplitState.
 */
module SplitTracker {
  import opened Options
  import opened BlockTree
  import opened Cadences
  import opened SplitState

  /** Linear search of the first limit hashes. */
  method FindWithin(hashes: seq<Hash>, h: Hash, limit: int) returns (found: bool)
    ensures found <==> ContainsWithin(hashes, h, limit)
  {
    for i := 0 to |hashes|
      invariant forall j :: 0 <= j < i ==> j < limit && hashes[j] != h
    {
      if i >= limit {
        return false;
      }
      if hashes[i] == h {
        return true;
      }
    }
    return false;
  }

  /** Scans every branch tip for a rejected one that leads to the watched chain. */
  method AnyRejectedMatch(sqTip: Option<BlockMeta>, obs: Observation) returns (found: bool)
    ensures found <==> RejectedMatch(sqTip, obs)
  {
    if sqTip.None? {
      return false;
    }
    for i := 0 to |obs.sfTips|
      invariant forall j :: 0 <= j < i ==> !InvalidTipMatchesSQ(obs.sqAncestry, sqTip.value.hash, obs.sfTips[j])
    {
      var tip := obs.sfTips[i];
      if tip.Rejected() {
        var within := FindWithin(obs.sqAncestry, tip.hash, AtLeastOne(tip.branchLen));
        if tip.hash == sqTip.value.hash || within {
          return true;
        }
      }
    }
    return false;
  }

  /** The lowest height at which the user's node rejected a branch. */
  method EarliestRejectedHeight(tips: seq<ChainTip>) returns (lowest: int, found: bool)
    ensures found == EarliestRejected(tips).Some?
    ensures found ==> lowest == EarliestRejected(tips).value
  {
    found, lowest := false, 0;
    for i := 0 to |tips|
      invariant found == EarliestRejected(tips[..i]).Some?
      invariant found ==> lowest == EarliestRejected(tips[..i]).value
    {
      assert tips[..i + 1][..i] == tips[..i];
      var tip := tips[i];
      if tip.Rejected() {
        var base := tip.height - tip.branchLen;
        if base < 0 {
          base := 0;
        }
        if !found || base < lowest {
          lowest, found := base, true;
        }
      }
    }
    assert tips[..|tips|] == tips;
  }

  /** The least of the available bounds, if there is any. */
  method ComputeTrustAnchor(obs: Observation, fork: Option<BlockRef>) returns (anchor: int, ok: bool)
    ensures ok == TrustAnchorHeight(obs, fork).Some?
    ensures ok ==> anchor == TrustAnchorHeight(obs, fork).value
  {
    var best: Option<int> := None;
    if obs.divergenceHeight > 0 {
      best := Consider(best, obs.divergenceHeight - 1);
    }
    var lowest, found := EarliestRejectedHeight(obs.sfTips);
    if found {
      best := Consider(best, lowest - 1);
    }
    if fork.Some? {
      best := Consider(best, fork.value.height);
    }
    if obs.sfTip.Some? && obs.reorgMargin > 0 {
      best := Consider(best, obs.sfTip.value.height - obs.reorgMargin);
    }
    match best
    case None => return 0, false;
    case Some(b) => return b, true;
  }

  /** The working copy of the state that one tick updates in place. */
  class Tracker {
    var phase: Phase
    var fork: Option<BlockRef>
    var forkCandidate: Option<BlockRef>
    var forkCandidateSince: int
    var disagreement: Option<HeightDisagreement>
    var disagreementSince: int
    var splitSuspected: bool
    var detectedAt: int
    var sfTip: Option<BlockMeta>
    var sqTip: Option<BlockMeta>
    var sfHealth: Health
    var sqHealth: Health
    var sfCadence: Cadence
    var sqCadence: Cadence
    var lastSFBlockAt: int
    var lastSQBlockAt: int
    var bothDownSince: int
    var resolvingCandidate: Phase
    var trustAnchor: int

    function Value(): State
      reads this
    {
      State(phase, fork, forkCandidate, forkCandidateSince, disagreement, disagreementSince,
            splitSuspected, detectedAt,
            View(sfTip, sfHealth, sfCadence, lastSFBlockAt), View(sqTip, sqHealth, sqCadence, lastSQBlockAt),
            bothDownSince, resolvingCandidate, trustAnchor)
    }

    constructor (s: State)
      ensures Value() == s
    {
      phase, fork := s.phase, s.fork;
      forkCandidate, forkCandidateSince := s.forkCandidate, s.forkCandidateSince;
      disagreement, disagreementSince := s.disagreement, s.disagreementSince;
      splitSuspected, detectedAt := s.splitSuspected, s.detectedAt;
      sfTip, sfHealth, sfCadence, lastSFBlockAt := s.sf.tip, s.sf.health, s.sf.cadence, s.sf.lastBlockAt;
      sqTip, sqHealth, sqCadence, lastSQBlockAt := s.sq.tip, s.sq.health, s.sq.cadence, s.sq.lastBlockAt;
      bothDownSince, resolvingCandidate, trustAnchor := s.bothDownSince, s.resolvingCandidate, s.trustAnchor;
    }

    method NoteHealth(branch: Branch, reported: Health) returns (effects: seq<Effect>)
      modifies this
      ensures var was := old(Value());
              if branch == SF then
                && Value() == was.(sf := HealthNews(SF, was.sf, reported).0)
                && effects == HealthNews(SF, was.sf, reported).1
              else
                && Value() == was.(sq := HealthNews(SQ, was.sq, reported).0)
                && effects == HealthNews(SQ, was.sq, reported).1
    {
      effects := [];
      match branch
      case SF =>
        if reported != NO_HEALTH && reported != sfHealth {
          effects := [HealthChanged(SF, sfHealth, reported)];
          sfHealth := reported;
        }
      case SQ =>
        if reported != NO_HEALTH && reported != sqHealth {
          effects := [HealthChanged(SQ, sqHealth, reported)];
          sqHealth := reported;
        }
    }

    method TrackHealth(obs: Observation) returns (effects: seq<Effect>)
      modifies this
      ensures Value() == SplitState.TrackHealth(old(Value()), obs).0
      ensures effects == SplitState.TrackHealth(old(Value()), obs).1
    {
      var own := NoteHealth(SF, obs.sfHealth);
      var other := NoteHealth(SQ, obs.sqHealth);
      effects := own + other;
      var bothDown := sfHealth == Down && sqHealth == Down;
      if bothDown && bothDownSince == 0 {
        bothDownSince := obs.at;
      } else if bothDown && obs.at - bothDownSince >= BOTH_DOWN_GRACE_SECS {
        effects := effects + [BothViewsDown];
        bothDownSince := obs.at;
      } else if !bothDown {
        bothDownSince := 0;
      }
    }

    method TrackDisagreement(obs: Observation)
      modifies this
      ensures Value() == SplitState.TrackDisagreement(old(Value()), obs)
    {
      if obs.disagreement.None? {
        if obs.sharedHeightAgreed {
          disagreement := None;
          disagreementSince := 0;
        }
        return;
      }
      var found := obs.disagreement.value;
      var moved := disagreement.None? || disagreement.value.sfHash != found.sfHash
                   || disagreement.value.sqHash != found.sqHash;
      disagreement := Some(found);
      if moved || disagreementSince == 0 {
        disagreementSince := obs.at;
      }
    }

    method TrackForkCandidate(obs: Observation)
      modifies this
      ensures Value() == SplitState.TrackForkCandidate(old(Value()), obs)
    {
      if obs.sfTip.None? || obs.sqTip.None? || obs.forkSearchFailed {
        return;
      }
      var mutual := obs.forkCandidate.Some?
                    && obs.sfTip.value.height > obs.forkCandidate.value.height
                    && obs.sqTip.value.height > obs.forkCandidate.value.height;
      if !mutual {
        forkCandidate := None;
        forkCandidateSince := 0;
        return;
      }
      var candidate := obs.forkCandidate.value;
      var moved := forkCandidate.None? || forkCandidate.value.hash != candidate.hash;
      forkCandidate := Some(candidate);
      if moved || forkCandidateSince == 0 {
        forkCandidateSince := obs.at;
      }
    }

    method TrackBranch(branch: Branch, observed: Option<BlockMeta>, separation: Option<BlockRef>, now: int)
      returns (effects: seq<Effect>)
      modifies this
      ensures var was := old(Value());
              if branch == SF then
                && Value() == was.(sf := SplitState.TrackBranch(SF, was.sf, observed, separation, now).0)
                && effects == SplitState.TrackBranch(SF, was.sf, observed, separation, now).1
              else
                && Value() == was.(sq := SplitState.TrackBranch(SQ, was.sq, observed, separation, now).0)
                && effects == SplitState.TrackBranch(SQ, was.sq, observed, separation, now).1
    {
      effects := [];
      match branch
      case SF =>
        if observed.Some? && (sfTip.None? || sfTip.value.hash != observed.value.hash) {
          sfTip := observed;
          sfCadence := sfCadence.Observe(observed.value.time);
          lastSFBlockAt := now;
          effects := [Extended(SF, observed.value, sfCadence, separation)];
        }
      case SQ =>
        if observed.Some? && (sqTip.None? || sqTip.value.hash != observed.value.hash) {
          sqTip := observed;
          sqCadence := sqCadence.Observe(observed.value.time);
          lastSQBlockAt := now;
          effects := [Extended(SQ, observed.value, sqCadence, separation)];
        }
    }

    method TrackBlocks(obs: Observation) returns (effects: seq<Effect>)
      modifies this
      ensures Value() == SplitState.TrackBlocks(old(Value()), obs).0
      ensures effects == SplitState.TrackBlocks(old(Value()), obs).1
    {
      var separation := Separation(Value());
      var own := TrackBranch(SF, obs.sfTip, separation, obs.at);
      var other := TrackBranch(SQ, obs.sqTip, separation, obs.at);
      effects := own + other;
    }

    method TrackTrustAnchor(obs: Observation) returns (effects: seq<Effect>)
      modifies this
      ensures Value() == SplitState.TrackTrustAnchor(old(Value()), obs).0
      ensures effects == SplitState.TrackTrustAnchor(old(Value()), obs).1
    {
      var anchor, ok := ComputeTrustAnchor(obs, fork);
      if !ok || anchor == trustAnchor {
        return [];
      }
      trustAnchor := anchor;
      return [TrustAnchorChanged(anchor)];
    }

    method ApplyPhase(to: Phase, obs: Observation)
      modifies this
      ensures Value() == SplitState.ApplyPhase(old(Value()), to, obs)
    {
      match to {
      case Split =>
        if fork.None? && forkCandidate.Some? {
          fork := forkCandidate;
          detectedAt := obs.at;
        } else if fork.None? && obs.forkCandidate.Some? {
          fork := obs.forkCandidate;
          detectedAt := obs.at;
        } else if fork.None? {
          detectedAt := obs.at;
        }
        resolvingCandidate := NO_PHASE;
      case Resolving =>
        resolvingCandidate :=
          if sqCadence.Stalled(obs.at, lastSQBlockAt, obs.stallFactor) then ResolvedSFWon else ResolvedSQWon;
      case _ =>
      }
      phase := to;
    }
  }

  /** One tick, as the daemon runs it. */
  method RunStep(prev: State, obs: Observation) returns (next: State, effects: seq<Effect>)
    ensures (next, effects) == Step(prev, obs)
  {
    var tracker := new Tracker(prev);
    effects := tracker.TrackHealth(obs);
    tracker.TrackDisagreement(obs);
    tracker.TrackForkCandidate(obs);
    var blocks := tracker.TrackBlocks(obs);
    effects := effects + blocks;
    var anchor := tracker.TrackTrustAnchor(obs);
    effects := effects + anchor;
    tracker.splitSuspected := SuspectSplit(tracker.Value(), obs);
    var (phase, why) := DecidePhase(tracker.Value(), obs);
    if phase != tracker.phase {
      var before := tracker.phase;
      tracker.ApplyPhase(phase, obs);
      effects := effects + [PersistState, PhaseChanged(before, phase, why)];
    }
    next := tracker.Value();
  }
}
