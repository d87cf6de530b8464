/** When a split is suspected, said of the run: of the differences and separations seen, and since when. */
module Suspicion {
  import opened Options
  import opened BlockTree
  import opened SplitState
  import opened SplitRuns

  // ---- the clock of differing hashes

  /** A tick on which the two chains were compared at a height they share. */
  predicate Weighs(obs: Observation) {
    obs.disagreement.Some? || obs.sharedHeightAgreed
  }

  function Weighed(trace: seq<Observation>): (r: seq<Observation>)
    ensures forall i :: 0 <= i < |r| ==> Weighs(r[i])
    ensures forall o :: o in r ==> o in trace
    decreases |trace|
  {
    if trace == [] then []
    else
      var n := |trace| - 1;
      Weighed(trace[..n]) + if Weighs(trace[n]) then [trace[n]] else []
  }

  function DifferenceAfter(standing: Option<HeightDisagreement>, since: int, trace: seq<Observation>)
    : (Option<HeightDisagreement>, int)
    decreases |trace|
  {
    if trace == [] then
      (standing, since)
    else
      var n := |trace| - 1;
      var (d, x) := DifferenceAfter(standing, since, trace[..n]);
      DisagreementClock(d, x, trace[n])
  }

  lemma {:induction false} DifferenceIsIndependent(s: State, trace: seq<Observation>)
    ensures var n := After(s, trace);
            (n.disagreement, n.disagreementSince) == DifferenceAfter(s.disagreement, s.disagreementSince, trace)
    decreases |trace|
  {
    if trace != [] {
      var n := |trace| - 1;
      DifferenceIsIndependent(s, trace[..n]);
      GatherFields(After(s, trace[..n]), trace[n]);
      StepFields(After(s, trace[..n]), trace[n]);
    }
  }

  lemma {:induction false} DifferenceAfterWeighed(trace: seq<Observation>)
    ensures DifferenceAfter(None, 0, trace) == DifferenceAfter(None, 0, Weighed(trace))
    decreases |trace|
  {
    if trace != [] {
      var n := |trace| - 1;
      DifferenceAfterWeighed(trace[..n]);
      var weighed := Weighed(trace[..n]);
      assert Weighs(trace[n]) ==> (weighed + [trace[n]])[..|weighed|] == weighed;
      assert weighed + [] == weighed;
    }
  }

  ghost predicate SameDifference(a: Observation, b: Observation) {
    && a.disagreement.Some? && b.disagreement.Some?
    && a.disagreement.value.sfHash == b.disagreement.value.sfHash
    && a.disagreement.value.sqHash == b.disagreement.value.sqHash
  }

  /** k begins the longest run of comparisons, up to the last, that found one and the same difference. */
  ghost predicate DifferenceFrom(weighed: seq<Observation>, k: int) {
    && 0 <= k < |weighed|
    && (forall j :: k <= j < |weighed| ==> SameDifference(weighed[j], weighed[|weighed| - 1]))
    && (k > 0 ==> !SameDifference(weighed[k - 1], weighed[|weighed| - 1]))
  }

  lemma DifferenceIsUnique(weighed: seq<Observation>, j: int, k: int)
    requires DifferenceFrom(weighed, j) && DifferenceFrom(weighed, k)
    ensures j == k
  {
    assert k > 0 ==> !SameDifference(weighed[k - 1], weighed[|weighed| - 1]);
    assert j > 0 ==> !SameDifference(weighed[j - 1], weighed[|weighed| - 1]);
  }

  lemma {:induction false} WeighedClock(weighed: seq<Observation>)
    requires Timed(weighed) && forall i :: 0 <= i < |weighed| ==> Weighs(weighed[i])
    ensures var (standing, since) := DifferenceAfter(None, 0, weighed);
            if weighed == [] || weighed[|weighed| - 1].disagreement.None?
            then standing == None && since == 0
            else standing == weighed[|weighed| - 1].disagreement
                 && exists k :: DifferenceFrom(weighed, k) && since == weighed[k].at
    decreases |weighed|
  {
    if weighed != [] {
      var n := |weighed| - 1;
      var before := weighed[..n];
      WeighedClock(before);
      if weighed[n].disagreement.Some? {
        if before != [] && SameDifference(before[n - 1], weighed[n]) {
          var k :| DifferenceFrom(before, k) && DifferenceAfter(None, 0, before).1 == weighed[k].at;
          assert DifferenceFrom(weighed, k);
        } else {
          assert DifferenceFrom(weighed, n);
        }
      }
    }
  }

  /**
    A difference stands exactly while the last comparison found one, and its clock shows the
    first of the unbroken run of comparisons that found that same difference.
   */
  lemma DifferenceMeaning(trace: seq<Observation>)
    requires Timed(trace)
    ensures var n, weighed := After(NEW_STATE, trace), Weighed(trace);
            && (n.disagreement.Some? <==> weighed != [] && weighed[|weighed| - 1].disagreement.Some?)
            && (n.disagreement.Some? ==> n.disagreement == weighed[|weighed| - 1].disagreement
                                         && exists k :: DifferenceFrom(weighed, k))
            && forall k :: DifferenceFrom(weighed, k) ==> n.disagreement.Some? && n.disagreementSince == weighed[k].at
  {
    var weighed := Weighed(trace);
    forall i | 0 <= i < |weighed| ensures weighed[i].at > 0 {
      assert weighed[i] in trace;
    }
    DifferenceIsIndependent(NEW_STATE, trace);
    DifferenceAfterWeighed(trace);
    WeighedClock(weighed);
    forall k | DifferenceFrom(weighed, k) ensures DifferenceAfter(None, 0, weighed).1 == weighed[k].at {
      assert SameDifference(weighed[|weighed| - 1], weighed[|weighed| - 1]);
      var j :| DifferenceFrom(weighed, j) && DifferenceAfter(None, 0, weighed).1 == weighed[j].at;
      DifferenceIsUnique(weighed, j, k);
    }
  }

  // ---- suspicion

  predicate LeadsByMoreThan(n: State, fork: BlockRef, blocks: int) {
    || TipHeight(n.sf.tip) - fork.height > blocks
    || TipHeight(n.sq.tip) - fork.height > blocks
  }

  /** A streak that has lasted, or one chain of which leads by more than a block. */
  ghost predicate WorryingStreak(heard: seq<Observation>, k: int, n: State, obs: Observation) {
    && StreakFrom(heard, k) && heard[|heard| - 1].forkCandidate.Some?
    && (|| LeadsByMoreThan(n, heard[|heard| - 1].forkCandidate.value, 1)
        || 0 < obs.splitSuspectSecs <= obs.at - heard[k].at)
  }

  ghost predicate SomeStreakWorries(heard: seq<Observation>, n: State, obs: Observation) {
    exists k :: WorryingStreak(heard, k, n, obs)
  }

  /** The same difference, found by every comparison for long enough. */
  ghost predicate LastingDifference(weighed: seq<Observation>, k: int, obs: Observation) {
    DifferenceFrom(weighed, k) && 0 < obs.splitSuspectSecs <= obs.at - weighed[k].at
  }

  /** A running clock that has lasted, or one chain of which leads by more than a block. */
  predicate SeparationWorries(n: State, obs: Observation) {
    && n.forkCandidate.Some? && n.forkCandidateSince != 0
    && (LeadsByMoreThan(n, n.forkCandidate.value, 1) || Lasted(obs, n.forkCandidateSince))
  }

  lemma SuspectedAsDecided(s: State, obs: Observation)
    ensures var n := Step(s, obs).0;
            n.splitSuspected <==>
              || (n.disagreement.Some? && Lasted(obs, n.disagreementSince))
              || SeparationWorries(n, obs)
  {
    GatherSuspects(s, obs);
    StepFields(s, obs);
  }

  lemma DifferenceWorries(trace: seq<Observation>, obs: Observation)
    requires Timed(trace)
    ensures var n := After(NEW_STATE, trace);
            (n.disagreement.Some? && Lasted(obs, n.disagreementSince))
            <==> exists k :: LastingDifference(Weighed(trace), k, obs)
  {
    DifferenceMeaning(trace);
    var n, weighed := After(NEW_STATE, trace), Weighed(trace);
    forall k | DifferenceFrom(weighed, k) ensures weighed[k].at > 0 {
      assert weighed[k] in trace;
    }
    if n.disagreement.Some? {
      var k :| DifferenceFrom(weighed, k);
      assert Lasted(obs, n.disagreementSince) <==> LastingDifference(weighed, k, obs);
      forall j | DifferenceFrom(weighed, j) ensures j == k {
        DifferenceIsUnique(weighed, j, k);
      }
    }
  }

  /** The separation clock of a state means what it should of the ticks heard. */
  ghost predicate TellsStreak(n: State, heard: seq<Observation>) {
    && (n.forkCandidateSince == 0 <==> n.forkCandidate == None)
    && (n.forkCandidateSince != 0 <==> heard != [] && Mutual(heard[|heard| - 1]))
    && (n.forkCandidateSince != 0 ==>
          n.forkCandidate == heard[|heard| - 1].forkCandidate && exists k :: StreakFrom(heard, k))
    && forall k :: StreakFrom(heard, k) ==> n.forkCandidateSince == heard[k].at
  }

  lemma ClockTellsStreak(trace: seq<Observation>)
    requires Timed(trace)
    ensures TellsStreak(After(NEW_STATE, trace), Heard(trace))
  {
    ClockMeaning(trace);
  }

  lemma StreakWorries(trace: seq<Observation>, obs: Observation)
    requires Timed(trace)
    ensures var n := After(NEW_STATE, trace);
            SeparationWorries(n, obs) <==> SomeStreakWorries(Heard(trace), n, obs)
  {
    ClockTellsStreak(trace);
    HeardIsTimed(trace);
    StreakOfClock(After(NEW_STATE, trace), Heard(trace), obs);
  }

  lemma HeardIsTimed(trace: seq<Observation>)
    requires Timed(trace)
    ensures Timed(Heard(trace))
  {
    forall k | 0 <= k < |Heard(trace)| ensures Heard(trace)[k].at > 0 {
      assert Heard(trace)[k] in trace;
    }
  }

  /** The same of any state whose clock means what it should. */
  lemma StreakOfClock(n: State, heard: seq<Observation>, obs: Observation)
    requires Timed(heard)
    requires TellsStreak(n, heard)
    ensures SeparationWorries(n, obs) <==> SomeStreakWorries(heard, n, obs)
  {
    if n.forkCandidateSince != 0 {
      var k :| StreakFrom(heard, k);
      OneStreakWorries(heard, k, n, obs);
    } else {
      NoStreakWithoutMutual(heard);
    }
  }

  lemma NoStreakWithoutMutual(heard: seq<Observation>)
    requires heard == [] || !Mutual(heard[|heard| - 1])
    ensures forall k :: !StreakFrom(heard, k)
  {
    forall k ensures !StreakFrom(heard, k) {
      assert StreakFrom(heard, k) ==> SameSeparation(heard[|heard| - 1], heard[|heard| - 1]);
    }
  }

  lemma OneStreakWorries(heard: seq<Observation>, k: int, n: State, obs: Observation)
    requires StreakFrom(heard, k) && heard[k].at > 0 && n.forkCandidateSince == heard[k].at
    requires n.forkCandidate == heard[|heard| - 1].forkCandidate && n.forkCandidate.Some?
    ensures (exists j :: WorryingStreak(heard, j, n, obs)) <==>
              LeadsByMoreThan(n, n.forkCandidate.value, 1) || Lasted(obs, n.forkCandidateSince)
  {
    assert WorryingStreak(heard, k, n, obs) <==>
        LeadsByMoreThan(n, n.forkCandidate.value, 1) || Lasted(obs, n.forkCandidateSince);
    forall j | StreakFrom(heard, j) ensures j == k {
      StreakIsUnique(heard, j, k);
    }
  }

  /**
    In any run a split is suspected exactly when every comparison for long enough has found
    the same difference, or the chains have been apart without a break for long enough or
    with one chain leading by more than a block.
   */
  lemma SuspectedExactlyWhen(trace: seq<Observation>, obs: Observation)
    requires Timed(trace + [obs])
    ensures var n := After(NEW_STATE, trace + [obs]);
            n.splitSuspected <==>
              || (exists k :: LastingDifference(Weighed(trace + [obs]), k, obs))
              || (exists k :: WorryingStreak(Heard(trace + [obs]), k, n, obs))
  {
    RunExtends(NEW_STATE, trace, obs);
    SuspectedAsDecided(After(NEW_STATE, trace), obs);
    DifferenceWorries(trace + [obs], obs);
    StreakWorries(trace + [obs], obs);
    assert SomeStreakWorries(Heard(trace + [obs]), After(NEW_STATE, trace + [obs]), obs) <==>
        exists k :: WorryingStreak(Heard(trace + [obs]), k, After(NEW_STATE, trace + [obs]), obs);
  }
}
