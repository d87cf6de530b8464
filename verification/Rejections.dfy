/**
  The strongest evidence of a split, a block of the other chain that the user's own node
  refused, said of the block tree: exactly when it is believed.
 */
module Rejections {
  import opened Options
  import opened BlockTree
  import opened SplitState
  import opened SplitRuns

  /** The history read this tick, newest first from the tip itself, as far back as it was read. */
  ghost predicate RecentHistory(t: Tree, hashes: seq<Hash>, tip: BlockMeta) {
    && Known(t, tip)
    && |hashes| <= tip.height + 1
    && forall i :: 0 <= i < |hashes| ==> hashes[i] == AncestorAt(t, tip, tip.height - i).hash
  }

  /** The block of that hash is the tip, or the tip was built on it fewer than `within` blocks ago. */
  ghost predicate RecentlyOn(t: Tree, h: Hash, tip: BlockMeta, within: int)
    requires Known(t, tip)
  {
    && h in t && Ancestor(t, t[h], tip)
    && (h == tip.hash || tip.height - t[h].height < within)
  }

  /** How far back a rejected branch is looked for: as long as the branch itself, and one block at least. */
  function Reach(x: ChainTip): int {
    if x.branchLen < 1 then 1 else x.branchLen
  }

  /** The user's node refused a block of the watched chain, no further back than its rejected branch is long. */
  ghost predicate Refused(t: Tree, x: ChainTip, tip: BlockMeta)
    requires Known(t, tip)
  {
    x.invalid && RecentlyOn(t, x.hash, tip, Reach(x))
  }

  function Least(a: int, b: int): int {
    if a < b then a else b
  }

  lemma ListedIff(t: Tree, hashes: seq<Hash>, tip: BlockMeta, h: Hash, limit: int)
    requires RecentHistory(t, hashes, tip)
    ensures h == tip.hash || ContainsWithin(hashes, h, limit) <==> RecentlyOn(t, h, tip, Least(limit, |hashes|))
  {
    assert Ancestor(t, tip, tip);
    if h in t && Ancestor(t, t[h], tip) {
      var lag := tip.height - t[h].height;
      assert lag < |hashes| ==> hashes[lag] == h;
      forall i | 0 <= i < |hashes| && hashes[i] == h ensures i == lag {
        assert AncestorAt(t, tip, tip.height - i) == t[h];
      }
    } else {
      forall i | 0 <= i < |hashes| ensures hashes[i] != h {
        var c := AncestorAt(t, tip, tip.height - i);
        assert Known(t, c) && Ancestor(t, c, tip);
      }
    }
  }

  /** However much history was read, a refusal is recognised exactly within it and within the branch's own length. */
  lemma RecognisedIff(t: Tree, obs: Observation, sq: BlockMeta)
    requires RecentHistory(t, obs.sqAncestry, sq)
    ensures RejectedMatch(Some(sq), obs) <==>
              exists x :: x in obs.sfTips && x.invalid && RecentlyOn(t, x.hash, sq, Least(Reach(x), |obs.sqAncestry|))
  {
    forall x: ChainTip
      ensures InvalidTipMatchesSQ(obs.sqAncestry, sq.hash, x) <==>
                x.invalid && RecentlyOn(t, x.hash, sq, Least(Reach(x), |obs.sqAncestry|))
    {
      ListedIff(t, obs.sqAncestry, sq, x.hash, Reach(x));
    }
    if x :| x in obs.sfTips && x.invalid && RecentlyOn(t, x.hash, sq, Least(Reach(x), |obs.sqAncestry|)) {
      var i :| 0 <= i < |obs.sfTips| && obs.sfTips[i] == x;
      assert InvalidTipMatchesSQ(obs.sqAncestry, sq.hash, obs.sfTips[i]);
    }
  }

  /** History as deep as every rejected branch is long, or back to genesis. */
  predicate DeepEnough(obs: Observation, sq: BlockMeta) {
    forall x :: x in obs.sfTips && x.invalid ==> |obs.sqAncestry| >= Reach(x) || |obs.sqAncestry| > sq.height
  }

  /** With such history a refusal is recognised whenever there was one. */
  lemma RecognisedWhenever(t: Tree, obs: Observation, sq: BlockMeta)
    requires RecentHistory(t, obs.sqAncestry, sq) && DeepEnough(obs, sq)
    ensures RejectedMatch(Some(sq), obs) <==> exists x :: x in obs.sfTips && Refused(t, x, sq)
  {
    RecognisedIff(t, obs, sq);
    forall x | x in obs.sfTips && x.invalid
      ensures RecentlyOn(t, x.hash, sq, Least(Reach(x), |obs.sqAncestry|)) <==> Refused(t, x, sq)
    {}
  }

  /** Watching for a split: agreement seen before, or both views usable as of this tick. */
  predicate Watching(s: State, obs: Observation) {
    || s.phase == Armed
    || (s.phase == Unarmed && HealthAfter(s.sf, obs.sfHealth) in {OK, Degraded}
        && HealthAfter(s.sq, obs.sqHealth) in {OK, Degraded})
  }

  /** Which phase changes a tick announces, with their reasons. */
  ghost predicate Announces(s: State, obs: Observation, to: Phase, why: Reason) {
    exists from :: PhaseChanged(from, to, why) in Step(s, obs).1
  }

  lemma AnnouncesDecision(s: State, obs: Observation, to: Phase, why: Reason)
    ensures Announces(s, obs, to, why) <==> DecidePhase(Gather(s, obs).0, obs) == (to, why) && to != s.phase
  {
    GatherFields(s, obs);
    StepFields(s, obs);
    SaidOnlyOnce(s, obs);
    var (g, said) := Gather(s, obs);
    var (phase, reason) := DecidePhase(g, obs);
    if phase != g.phase {
      var last := [PersistState, PhaseChanged(g.phase, phase, reason)];
      assert Step(s, obs).1 == said + last;
      assert last[1] in Step(s, obs).1;
    }
  }

  lemma AnnouncesRefusalIff(s: State, obs: Observation)
    ensures var g := Gather(s, obs).0;
            Announces(s, obs, Split, BlockRejected) <==>
              && Watching(s, obs)
              && !TipsAgree(g.sf.tip, g.sq.tip, obs.splitConfirmDepth, obs.sfAncestry, obs.sqAncestry)
              && RejectedMatch(g.sq.tip, obs)
  {
    GatherFields(s, obs);
    GatherViews(s, obs);
    AnnouncesDecision(s, obs, Split, BlockRejected);
  }

  /**
    A split is announced for a refused block exactly when the machine is watching, the two
    chains are not within the confirmation depth of each other on one branch, and the user's
    node has refused a block the watched chain was recently built on. It is then a split at once.
   */
  lemma RefusalIsBelievedIff(t: Tree, s: State, obs: Observation, sf: BlockMeta, sq: BlockMeta)
    requires Held(obs.sfTip, s.sf.tip) == Some(sf) && Held(obs.sqTip, s.sq.tip) == Some(sq)
    requires FullHistory(t, obs.sfAncestry, sf, AtLeastOne(obs.splitConfirmDepth))
    requires FullHistory(t, obs.sqAncestry, sq, AtLeastOne(obs.splitConfirmDepth)) && DeepEnough(obs, sq)
    ensures var depth := if obs.splitConfirmDepth < 1 then 1 else obs.splitConfirmDepth;
            Announces(s, obs, Split, BlockRejected) <==>
              && Watching(s, obs)
              && (Diverged(t, sf, sq) || sf.height - sq.height > depth || sq.height - sf.height > depth)
              && exists x :: x in obs.sfTips && Refused(t, x, sq)
    ensures Announces(s, obs, Split, BlockRejected) ==> Step(s, obs).0.phase == Split
  {
    GatherFields(s, obs);
    AnnouncesRefusalIff(s, obs);
    AgreeIffCloseOnOneChain(t, sf, sq, obs.splitConfirmDepth, obs.sfAncestry, obs.sqAncestry);
    RecognisedWhenever(t, obs, sq);
    RefusalIsASplit(s, obs);
  }

  lemma RefusalIsASplit(s: State, obs: Observation)
    ensures Announces(s, obs, Split, BlockRejected) ==> Step(s, obs).0.phase == Split
  {
    SaidOnlyOnce(s, obs);
    StepFields(s, obs);
  }

  /** Without a tip of the watched chain there is nothing to have been refused. */
  lemma NothingRefusedUnseen(s: State, obs: Observation)
    requires obs.sqTip.None? && s.sq.tip.None?
    ensures !Announces(s, obs, Split, BlockRejected)
  {
    GatherFields(s, obs);
    AnnouncesRefusalIff(s, obs);
  }

  // ---- the other reasons

  /** Both chains have built at least the confirmation depth past the separation found this tick. */
  predicate FarApart(s: State, obs: Observation) {
    var sf, sq := Held(obs.sfTip, s.sf.tip), Held(obs.sqTip, s.sq.tip);
    var depth := if obs.splitConfirmDepth < 1 then 1 else obs.splitConfirmDepth;
    && obs.forkCandidate.Some? && sf.Some? && sq.Some?
    && sf.value.height - obs.forkCandidate.value.height >= depth
    && sq.value.height - obs.forkCandidate.value.height >= depth
  }

  function HeightOf(tip: Option<BlockMeta>): int {
    match tip
    case None => 0
    case Some(block) => block.height
  }

  /** The separation tracked as of this tick has stood for the confirmation time, and one chain is far enough past it. */
  predicate ApartForLong(s: State, obs: Observation) {
    var (candidate, since) := ForkClock(s.forkCandidate, s.forkCandidateSince, obs);
    var depth := if obs.splitConfirmDepth < 1 then 1 else obs.splitConfirmDepth;
    && obs.splitConfirmSecs > 0 && candidate.Some? && since != 0 && obs.at - since >= obs.splitConfirmSecs
    && (|| HeightOf(Held(obs.sfTip, s.sf.tip)) - candidate.value.height >= depth
        || HeightOf(Held(obs.sqTip, s.sq.tip)) - candidate.value.height >= depth)
  }

  predicate AgreeNow(s: State, obs: Observation) {
    TipsAgree(Held(obs.sfTip, s.sf.tip), Held(obs.sqTip, s.sq.tip), obs.splitConfirmDepth, obs.sfAncestry, obs.sqAncestry)
  }

  /** The evidence as it is weighed: a refusal before distance, and distance before persistence. */
  lemma EvidenceMeans(s: State, obs: Observation)
    ensures SplitEvidence(Gather(s, obs).0, obs)
         == if RejectedMatch(Held(obs.sqTip, s.sq.tip), obs) then Rejected
            else if FarApart(s, obs) then DivergedFar
            else if ApartForLong(s, obs) then DivergedSustained
            else Nothing
  {
    GatherFields(s, obs);
  }

  lemma DeclaringIff(s: State, obs: Observation, why: Reason)
    requires why == BlockRejected || why == BothBuiltPast || why == HeldApart
    ensures var evidence := SplitEvidence(Gather(s, obs).0, obs);
            Announces(s, obs, Split, why) <==>
              && Watching(s, obs) && !AgreeNow(s, obs)
              && evidence == (if why == BlockRejected then Rejected else if why == BothBuiltPast then DivergedFar else DivergedSustained)
  {
    GatherFields(s, obs);
    GatherViews(s, obs);
    AnnouncesDecision(s, obs, Split, why);
  }

  /**
    The three reasons for declaring a split, each with exactly when it is given: a refusal
    before distance, and distance before persistence.
   */
  lemma AlarmIsGivenIff(s: State, obs: Observation)
    ensures var refused := RejectedMatch(Held(obs.sqTip, s.sq.tip), obs);
            var open := Watching(s, obs) && !AgreeNow(s, obs);
            && (Announces(s, obs, Split, BlockRejected) <==> open && refused)
            && (Announces(s, obs, Split, BothBuiltPast) <==> open && !refused && FarApart(s, obs))
            && (Announces(s, obs, Split, HeldApart) <==> open && !refused && !FarApart(s, obs) && ApartForLong(s, obs))
  {
    EvidenceMeans(s, obs);
    DeclaringIff(s, obs, BlockRejected);
    DeclaringIff(s, obs, BothBuiltPast);
    DeclaringIff(s, obs, HeldApart);
  }

  /** Arming: both views usable and the chains found to agree. */
  lemma ArmingIsGivenIff(s: State, obs: Observation)
    ensures Announces(s, obs, Armed, ChainsAgree) <==>
              s.phase == Unarmed && Watching(s, obs) && AgreeNow(s, obs)
  {
    GatherFields(s, obs);
    GatherViews(s, obs);
    AnnouncesDecision(s, obs, Armed, ChainsAgree);
  }

  /** Whether a chain counts as quiet once this tick's tip, if new, is taken in. */
  predicate Quiet(view: View, observed: Option<BlockMeta>, obs: Observation) {
    !NewTip(observed, view.tip) && view.cadence.Stalled(obs.at, view.lastBlockAt, obs.stallFactor)
  }

  lemma QuietAfter(s: State, obs: Observation)
    ensures var g := Gather(s, obs).0;
            && (g.sf.Stalled(obs) <==> Quiet(s.sf, obs.sfTip, obs))
            && (g.sq.Stalled(obs) <==> Quiet(s.sq, obs.sqTip, obs))
  {
    GatherViews(s, obs);
  }

  /**
    From SPLIT a chain going quiet while the other does not, with the reason naming which;
    back to SPLIT when the quiet one is heard of again; out of RESOLVING by an operator's word.
   */
  lemma ResolvingIsGivenIff(s: State, obs: Observation)
    ensures var sf, sq := Quiet(s.sf, obs.sfTip, obs), Quiet(s.sq, obs.sqTip, obs);
            && (Announces(s, obs, Resolving, OtherChainQuiet) <==> s.phase == Split && sq && !sf)
            && (Announces(s, obs, Resolving, OwnChainQuiet) <==> s.phase == Split && sf && !sq)
            && (Announces(s, obs, Split, QuietChainIsBack) <==>
                  && s.phase == Resolving && !obs.operatorOutcome.Resolved()
                  && !(s.resolvingCandidate == ResolvedSFWon && sq) && !(s.resolvingCandidate == ResolvedSQWon && sf))
            && (Announces(s, obs, obs.operatorOutcome, OperatorSaid) <==>
                  s.phase == Resolving && (obs.operatorOutcome == ResolvedSFWon || obs.operatorOutcome == ResolvedSQWon))
  {
    GatherFields(s, obs);
    QuietAfter(s, obs);
    AnnouncesDecision(s, obs, Resolving, OtherChainQuiet);
    AnnouncesDecision(s, obs, Resolving, OwnChainQuiet);
    AnnouncesDecision(s, obs, Split, QuietChainIsBack);
    AnnouncesDecision(s, obs, obs.operatorOutcome, OperatorSaid);
  }
}
