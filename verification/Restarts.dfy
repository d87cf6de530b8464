/**
  What a restart keeps of the split detector: the shell that saves after every tick and loads
  at start, and what holds over any run of ticks and restarts.
 */
module Restarts {
  import opened Options
  import opened BlockTree
  import opened Cadences
  import opened SplitState
  import opened SplitRuns
  import SplitTracker
  import opened Outages

  /** What is on disk: the split record, the trust anchor, and the separation clock under its three keys. */
  datatype Record = Record(
    phase: Phase,
    fork: Option<BlockRef>,
    detectedAt: int,
    trustAnchor: int,
    hash: Option<Hash>,
    height: int,
    since: int)

  const NEW_RECORD := Record(Unarmed, None, 0, 0, None, 0, 0)

  function CandidateHash(s: State): Option<Hash> {
    if s.forkCandidate.Some? then Some(s.forkCandidate.value.hash) else None
  }

  function CandidateHeight(s: State): int {
    if s.forkCandidate.Some? then s.forkCandidate.value.height else 0
  }

  predicate SameCandidate(s: State, n: State) {
    s.forkCandidateSince == n.forkCandidateSince && CandidateHash(s) == CandidateHash(n)
  }

  /** What one effect writes. */
  function Save(r: Record, n: State, e: Effect): Record {
    match e
    case PersistState => r.(phase := n.phase, fork := n.fork, detectedAt := n.detectedAt)
    case TrustAnchorChanged(height) => r.(trustAnchor := height)
    case _ => r
  }

  function SaveAll(r: Record, n: State, said: seq<Effect>): Record
    decreases |said|
  {
    if said == [] then r else Save(SaveAll(r, n, said[..|said| - 1]), n, said[|said| - 1])
  }

  /** The separation clock, written only when it moved. */
  function SaveCandidate(r: Record, s: State, n: State): Record {
    if SameCandidate(s, n) then r
    else r.(hash := CandidateHash(n), height := CandidateHeight(n), since := n.forkCandidateSince)
  }

  /** Whether the recorded separation clock is one that can be taken up again. */
  predicate Resumable(r: Record) {
    r.since > 0 && r.hash.Some? && r.height >= 0
  }

  /** What a start makes of the record: a new state with what was saved put back. */
  function Load(r: Record): State {
    NEW_STATE.(phase := if r.phase.Unrecognised? then Unarmed else r.phase,
               fork := r.fork,
               detectedAt := r.detectedAt,
               trustAnchor := r.trustAnchor,
               forkCandidate := if Resumable(r) then Some(BlockRef(r.hash.value, r.height)) else None,
               forkCandidateSince := if Resumable(r) then r.since else 0)
  }

  datatype Daemon = Daemon(state: State, record: Record)

  function Ticked(d: Daemon, obs: Observation): Daemon {
    var (n, said) := Step(d.state, obs);
    Daemon(n, SaveCandidate(SaveAll(d.record, n, said), d.state, n))
  }

  function Restarted(d: Daemon): Daemon {
    Daemon(Load(d.record), d.record)
  }

  // ---- the shell, in place

  class Sentinel {
    var state: State
    var record: Record

    function Value(): Daemon
      reads this
    {
      Daemon(state, record)
    }

    /** A first start. */
    constructor ()
      ensures Value() == Restarted(Daemon(NEW_STATE, NEW_RECORD))
    {
      state, record := Load(NEW_RECORD), NEW_RECORD;
    }

    method LoadState()
      modifies this
      ensures Value() == Restarted(old(Value()))
    {
      var next := NEW_STATE.(phase := record.phase, fork := record.fork, detectedAt := record.detectedAt,
      trustAnchor := record.trustAnchor);
      if record.phase.Unrecognised? {
        next := next.(phase := Unarmed);
      }
      if record.since > 0 && record.hash.Some? && record.height >= 0 {
        next := next.(forkCandidate := Some(BlockRef(record.hash.value, record.height)),
        forkCandidateSince := record.since);
      }
      state := next;
    }

    /** Performs what a tick asks for, in order. */
    method Apply(next: State, effects: seq<Effect>)
      modifies this`record
      ensures record == SaveAll(old(record), next, effects)
    {
      for i := 0 to |effects|
        invariant record == SaveAll(old(record), next, effects[..i])
      {
        assert effects[..i + 1][..i] == effects[..i];
        match effects[i] {
          case PersistState =>
            record := record.(phase := next.phase, fork := next.fork, detectedAt := next.detectedAt);
          case TrustAnchorChanged(height) =>
            record := record.(trustAnchor := height);
          case _ =>
        }
      }
      assert effects[..|effects|] == effects;
    }

    method PersistForkCandidate(prev: State, next: State)
      modifies this`record
      ensures record == SaveCandidate(old(record), prev, next)
    {
      if SameCandidate(prev, next) {
        return;
      }
      var hash, height := None, 0;
      if next.forkCandidate.Some? {
        hash, height := Some(next.forkCandidate.value.hash), next.forkCandidate.value.height;
      }
      record := record.(hash := hash, height := height, since := next.forkCandidateSince);
    }

    method Tick(obs: Observation)
      modifies this
      ensures Value() == Ticked(old(Value()), obs)
    {
      var prev := state;
      var next, effects := SplitTracker.RunStep(prev, obs);
      state := next;
      Apply(next, effects);
      PersistForkCandidate(prev, next);
    }
  }

  // ---- runs of ticks and restarts

  datatype Event = Tick(obs: Observation) | Restart

  function Next(d: Daemon, e: Event): Daemon {
    match e
    case Tick(obs) => Ticked(d, obs)
    case Restart => Restarted(d)
  }

  function From(d: Daemon, events: seq<Event>): Daemon
    decreases |events|
  {
    if events == [] then d else Next(From(d, events[..|events| - 1]), events[|events| - 1])
  }

  /** The daemon after any events since its first start. */
  function Live(events: seq<Event>): Daemon {
    From(Restarted(Daemon(NEW_STATE, NEW_RECORD)), events)
  }

  /** The ticks of a run, as if it had never been restarted. */
  function Ticks(events: seq<Event>): seq<Observation>
    decreases |events|
  {
    if events == [] then []
    else
      var e := events[|events| - 1];
      Ticks(events[..|events| - 1]) + if e.Tick? then [e.obs] else []
  }

  lemma OneMore(d: Daemon, events: seq<Event>, e: Event)
    ensures From(d, events + [e]) == Next(From(d, events), e)
    ensures Ticks(events + [e]) == Ticks(events) + if e.Tick? then [e.obs] else []
  {
    assert (events + [e])[..|events|] == events;
  }

  /**
    What a start brings back, and what it does not: the record of a split and the trust
    anchor always, the separation clock only if it was running at a height that can be, and
    nothing of tips, healths, paces, differences, suspicions or which chain was quiet.
   */
  lemma LoadMeans(r: Record)
    ensures var s := Load(r);
            && s.phase == (if r.phase.Unrecognised? then Unarmed else r.phase)
            && s.fork == r.fork && s.detectedAt == r.detectedAt && s.trustAnchor == r.trustAnchor
            && (r.hash.Some? && r.since > 0 && r.height >= 0 ==>
                  s.forkCandidate == Some(BlockRef(r.hash.value, r.height)) && s.forkCandidateSince == r.since)
            && (r.hash.None? || r.since <= 0 || r.height < 0 ==> s.forkCandidate.None? && s.forkCandidateSince == 0)
            && s.sf == s.sq == View(None, Down, Cadence(600.0, 0, 0), 0)
            && s.disagreement.None? && s.disagreementSince == 0 && !s.splitSuspected && s.bothDownSince == 0
            && s.resolvingCandidate == Unrecognised("")
  {}

  /** Whatever moved it, its hash or its start, the clock on disk is the one in memory after the tick. */
  lemma ClockIsOnDisk(r: Record, s: State, n: State)
    requires r.hash == CandidateHash(s) && r.since == s.forkCandidateSince
    ensures var m := SaveCandidate(r, s, n);
            && m.hash == (if n.forkCandidate.Some? then Some(n.forkCandidate.value.hash) else None)
            && m.since == n.forkCandidateSince
            && m == r.(hash := m.hash, height := m.height, since := m.since)
  {}

  // ---- the record is never behind

  /** The split record on disk is the one in memory. */
  ghost predicate UpToDate(d: Daemon) {
    && d.record.phase == d.state.phase
    && d.record.fork == d.state.fork
    && d.record.detectedAt == d.state.detectedAt
    && d.record.trustAnchor == d.state.trustAnchor
    && !d.state.phase.Unrecognised?
  }

  lemma {:induction false} SaveInTwo(r: Record, n: State, a: seq<Effect>, b: seq<Effect>)
    ensures SaveAll(r, n, a + b) == SaveAll(SaveAll(r, n, a), n, b)
    decreases |b|
  {
    if b == [] {
      assert a + b == a;
    } else {
      var k := |b| - 1;
      SaveInTwo(r, n, a, b[..k]);
      assert (a + b)[..|a| + k] == a + b[..k];
    }
  }

  predicate Unsaved(e: Effect) {
    !e.PersistState? && !e.TrustAnchorChanged?
  }

  lemma {:induction false} SavesNothing(r: Record, n: State, said: seq<Effect>)
    requires forall e :: e in said ==> Unsaved(e)
    ensures SaveAll(r, n, said) == r
    decreases |said|
  {
    if said != [] {
      SavesNothing(r, n, said[..|said| - 1]);
      assert said[|said| - 1] in said;
    }
  }

  lemma GatherSaves(r: Record, s: State, obs: Observation, n: State)
    requires r.trustAnchor == s.trustAnchor
    ensures SaveAll(r, n, Gather(s, obs).1) == r.(trustAnchor := Gather(s, obs).0.trustAnchor)
  {
    var (s1, e1) := TrackHealth(s, obs);
    var s2 := TrackForkCandidate(TrackDisagreement(s1, obs), obs);
    var (s3, e3) := TrackBlocks(s2, obs);
    var (s4, e4) := TrackTrustAnchor(s3, obs);
    assert s3.trustAnchor == s2.trustAnchor == s1.trustAnchor == s.trustAnchor;
    SavesNothing(r, n, e1 + e3);
    SaveInTwo(r, n, e1 + e3, e4);
    if e4 != [] {
      assert e4[..0] == [];
      assert SaveAll(r, n, e4) == Save(r, n, e4[0]);
    }
  }

  lemma SavesPhase(r: Record, n: State, from: Phase, to: Phase, why: Reason)
    ensures SaveAll(r, n, [PersistState, PhaseChanged(from, to, why)])
            == r.(phase := n.phase, fork := n.fork, detectedAt := n.detectedAt)
  {
    var said := [PersistState, PhaseChanged(from, to, why)];
    assert said[..1] == [PersistState] && said[..1][..0] == [];
    assert SaveAll(r, n, said[..1]) == Save(r, n, PersistState);
  }

  /** A tick that moves the phase saves it, with the separation; one that does not has nothing to save. */
  lemma StepSaves(r: Record, s: State, obs: Observation)
    requires r.trustAnchor == s.trustAnchor
    ensures var (n, said) := Step(s, obs);
            var m := r.(trustAnchor := n.trustAnchor);
            SaveAll(r, n, said)
            == if n.phase == s.phase then m else m.(phase := n.phase, fork := n.fork, detectedAt := n.detectedAt)
  {
    var (g, said) := Gather(s, obs);
    var n := Step(s, obs).0;
    var (phase, why) := DecidePhase(g, obs);
    GatherSaves(r, s, obs, n);
    GatherFields(s, obs);
    StepFields(s, obs);
    SaveInTwo(r, n, said, [PersistState, PhaseChanged(g.phase, phase, why)]);
    SavesPhase(SaveAll(r, n, said), n, g.phase, phase, why);
  }

  lemma StepKeepsUpToDate(r: Record, s: State, obs: Observation)
    requires UpToDate(Daemon(s, r))
    ensures UpToDate(Daemon(Step(s, obs).0, SaveAll(r, Step(s, obs).0, Step(s, obs).1)))
  {
    StepSaves(r, s, obs);
    StepIsSafe(s, obs);
  }

  lemma {:induction false} AlwaysUpToDate(d: Daemon, events: seq<Event>)
    requires UpToDate(d)
    ensures UpToDate(From(d, events))
    decreases |events|
  {
    if events != [] {
      var k := |events| - 1;
      AlwaysUpToDate(d, events[..k]);
      var before := From(d, events[..k]);
      match events[k] {
        case Tick(obs) => StepKeepsUpToDate(before.record, before.state, obs);
        case Restart =>
      }
    }
  }

  /**
    No run of ticks and restarts takes back what was recorded: the phase rank never falls, a
    recorded separation and its detection time stay, and a resolved phase is final.
   */
  lemma {:induction false} RestartsLoseNothing(before: seq<Event>, events: seq<Event>)
    ensures var s, n := Live(before).state, From(Live(before), events).state;
            && Rank(s.phase) <= Rank(n.phase)
            && (s.fork.Some? ==> n.fork == s.fork && n.detectedAt == s.detectedAt)
            && (s.phase.Resolved() ==> n.phase == s.phase)
    ensures UpToDate(From(Live(before), events))
    decreases |events|
  {
    AlwaysUpToDate(Restarted(Daemon(NEW_STATE, NEW_RECORD)), before);
    AlwaysUpToDate(Live(before), events);
    if events != [] {
      var k := |events| - 1;
      RestartsLoseNothing(before, events[..k]);
      var mid := From(Live(before), events[..k]);
      match events[k] {
        case Tick(obs) => StepIsSafe(mid.state, obs);
        case Restart =>
      }
    }
  }

  // ---- the separation clock

  /** Every tick of the run is dated and drawn from the tree. */
  ghost predicate Genuine(t: Tree, events: seq<Event>) {
    forall i :: 0 <= i < |events| ==> GenuineAt(t, events, i)
  }

  ghost predicate GenuineAt(t: Tree, events: seq<Event>, i: int)
    requires 0 <= i < |events|
  {
    events[i].Tick? ==> Truthful(t, events[i].obs) && events[i].obs.at > 0
  }

  ghost predicate InTree(t: Tree, r: BlockRef) {
    r.hash in t && t[r.hash].height == r.height
  }

  /** The clock on disk is the one in memory, and can be taken up again if it runs. */
  ghost predicate ClockSaved(t: Tree, d: Daemon) {
    && d.record.hash == CandidateHash(d.state)
    && d.record.height == CandidateHeight(d.state)
    && d.record.since == d.state.forkCandidateSince >= 0
    && (d.state.forkCandidate.Some? <==> d.state.forkCandidateSince > 0)
    && (d.state.forkCandidate.Some? ==> InTree(t, d.state.forkCandidate.value))
  }

  lemma {:induction false} SaveLeavesClock(r: Record, n: State, said: seq<Effect>)
    ensures var m := SaveAll(r, n, said); m.hash == r.hash && m.height == r.height && m.since == r.since
    decreases |said|
  {
    if said != [] {
      SaveLeavesClock(r, n, said[..|said| - 1]);
    }
  }

  lemma TickSavesClock(t: Tree, d: Daemon, obs: Observation)
    requires ClockSaved(t, d) && Truthful(t, obs) && obs.at > 0
    ensures var n := Ticked(d, obs);
            && ClockSaved(t, n)
            && (n.state.forkCandidate, n.state.forkCandidateSince)
               == ForkClock(d.state.forkCandidate, d.state.forkCandidateSince, obs)
  {
    var (n, said) := Step(d.state, obs);
    SaveLeavesClock(d.record, n, said);
    GatherFields(d.state, obs);
    StepFields(d.state, obs);
  }

  lemma RestartKeepsClock(t: Tree, d: Daemon)
    requires ClockSaved(t, d)
    ensures var n := Restarted(d);
            && ClockSaved(t, n)
            && n.state.forkCandidate == d.state.forkCandidate
            && n.state.forkCandidateSince == d.state.forkCandidateSince
  {}

  lemma {:induction false} ClockIsSaved(t: Tree, events: seq<Event>)
    requires Genuine(t, events)
    ensures var n := Live(events);
            && ClockSaved(t, n)
            && (n.state.forkCandidate, n.state.forkCandidateSince) == ClockAfter(None, 0, Ticks(events))
    decreases |events|
  {
    if events != [] {
      var k := |events| - 1;
      forall i | 0 <= i < k ensures GenuineAt(t, events[..k], i) {
        assert GenuineAt(t, events, i);
      }
      ClockIsSaved(t, events[..k]);
      assert GenuineAt(t, events, k);
      match events[k] {
        case Tick(obs) =>
          TickSavesClock(t, Live(events[..k]), obs);
          assert Ticks(events)[..|Ticks(events[..k])|] == Ticks(events[..k]);
        case Restart =>
          RestartKeepsClock(t, Live(events[..k]));
          assert Ticks(events) == Ticks(events[..k]);
      }
    }
  }

  /** However often the daemon is restarted, candidate and clock are those of the same ticks without a restart. */
  lemma ClockSurvivesRestarts(t: Tree, events: seq<Event>)
    requires Genuine(t, events)
    ensures var n, m := Live(events).state, After(NEW_STATE, Ticks(events));
            n.forkCandidate == m.forkCandidate && n.forkCandidateSince == m.forkCandidateSince
  {
    ClockIsSaved(t, events);
    ClockIsIndependent(NEW_STATE, Ticks(events));
  }

  ghost predicate TipsKnown(t: Tree, s: State) {
    && (s.sf.tip.Some? ==> Known(t, s.sf.tip.value))
    && (s.sq.tip.Some? ==> Known(t, s.sq.tip.value))
  }

  lemma TickTipsKnown(t: Tree, s: State, obs: Observation)
    requires TipsKnown(t, s) && Truthful(t, obs)
    ensures TipsKnown(t, Step(s, obs).0)
  {
    GatherFields(s, obs);
    StepFields(s, obs);
  }

  lemma {:induction false} LiveTipsKnown(t: Tree, events: seq<Event>)
    requires Genuine(t, events)
    ensures TipsKnown(t, Live(events).state)
    decreases |events|
  {
    if events != [] {
      var k := |events| - 1;
      forall i | 0 <= i < k ensures GenuineAt(t, events[..k], i) {
        assert GenuineAt(t, events, i);
      }
      LiveTipsKnown(t, events[..k]);
      assert GenuineAt(t, events, k);
      if events[k].Tick? {
        TickTipsKnown(t, Live(events[..k]).state, events[k].obs);
      }
    }
  }

  lemma {:induction false} TicksTimed(t: Tree, events: seq<Event>)
    requires Genuine(t, events)
    ensures Timed(Ticks(events))
    decreases |events|
  {
    if events != [] {
      var k := |events| - 1;
      forall i | 0 <= i < k ensures GenuineAt(t, events[..k], i) {
        assert GenuineAt(t, events, i);
      }
      TicksTimed(t, events[..k]);
      assert GenuineAt(t, events, k);
    }
  }

  /**
    No split is missed for being restarted: if one separation has stood for the confirmation
    time, counted over all ticks of all lives of the daemon, with either chain far enough
    past it, the tick that can tell records the split.
   */
  lemma NoMissedSplitAcrossRestarts(t: Tree, events: seq<Event>, obs: Observation, k: int)
    requires Genuine(t, events) && obs.at > 0 && Truthful(t, obs) && Mutual(obs)
    requires TruthfulAncestry(t, obs.sfAncestry, obs.sfTip) && TruthfulAncestry(t, obs.sqAncestry, obs.sqTip)
    requires StreakFrom(Heard(Ticks(events) + [obs]), k)
    requires obs.at - Heard(Ticks(events) + [obs])[k].at >= obs.splitConfirmSecs > 0
    requires obs.sfTip.value.height - obs.forkCandidate.value.height >= AtLeastOne(obs.splitConfirmDepth)
             || obs.sqTip.value.height - obs.forkCandidate.value.height >= AtLeastOne(obs.splitConfirmDepth)
    ensures var before, after := Live(events).state, Live(events + [Tick(obs)]).state;
            && (before.phase == Armed ==> after.phase == Split)
            && (before.phase == Unarmed && after.sf.health.Usable() && after.sq.health.Usable() ==> after.phase == Split)
  {
    var s := Live(events).state;
    LiveTicks(events, obs);
    LiveClock(t, events, obs, k);
    LiveTipsKnown(t, events);
    SustainedTick(t, s, obs);
  }

  lemma LiveClock(t: Tree, events: seq<Event>, obs: Observation, k: int)
    requires Genuine(t, events) && obs.at > 0 && StreakFrom(Heard(Ticks(events) + [obs]), k)
    ensures var s := Live(events).state;
            ForkClock(s.forkCandidate, s.forkCandidateSince, obs).1 == Heard(Ticks(events) + [obs])[k].at > 0
  {
    TicksTimed(t, events);
    ClockIsSaved(t, events);
    ClockReaches(Live(events).state, Ticks(events), obs, k);
  }

  lemma LiveTicks(events: seq<Event>, obs: Observation)
    ensures Live(events + [Tick(obs)]).state == Step(Live(events).state, obs).0
  {
    OneMore(Restarted(Daemon(NEW_STATE, NEW_RECORD)), events, Tick(obs));
  }

  /** The clock a tick goes by is that of the streak it ends. */
  lemma ClockReaches(s: State, ticks: seq<Observation>, obs: Observation, k: int)
    requires Timed(ticks + [obs]) && StreakFrom(Heard(ticks + [obs]), k)
    requires (s.forkCandidate, s.forkCandidateSince) == ClockAfter(None, 0, ticks)
    ensures ForkClock(s.forkCandidate, s.forkCandidateSince, obs).1 == Heard(ticks + [obs])[k].at > 0
  {
    var whole := ticks + [obs];
    assert whole[..|ticks|] == ticks;
    ClockMeaning(whole);
    ClockIsIndependent(NEW_STATE, whole);
    assert Heard(whole)[k] in whole;
  }

  // ---- what a restart does forget

  /**
    Contrary to "resumes rather than restarts": a machine restarted while RESOLVING has forgotten which chain was quiet: unless an
    operator speaks on it, the first tick takes it back to SPLIT, whatever it sees.
   */
  lemma RestartForgetsResolving(events: seq<Event>, obs: Observation)
    requires Live(events).state.phase == Resolving
    ensures var s := Live(events + [Restart]).state;
            && s.phase == Resolving
            && Step(s, obs).0.phase == if obs.operatorOutcome.Resolved() then obs.operatorOutcome else Split
  {
    OneMore(Restarted(Daemon(NEW_STATE, NEW_RECORD)), events, Restart);
    AlwaysUpToDate(Restarted(Daemon(NEW_STATE, NEW_RECORD)), events);
    var s := Live(events + [Restart]).state;
    GatherFields(s, obs);
    StepFields(s, obs);
  }

  /** The run in the dark, as the shell goes through it. */
  const IN_THE_DARK := [] + [Tick(TOGETHER)] + [Tick(APART)] + [Tick(HALF_DARK)] + [Tick(DARK_ONE)] + [Tick(DARK_TWO)]

  lemma DarkRun()
    ensures Live(IN_THE_DARK).state.phase == Resolving
  {
    assert Live([]).state == NEW_STATE;
    LiveTicks([], TOGETHER);
    FirstTick();
    var one := [] + [Tick(TOGETHER)];
    LiveTicks(one, APART);
    SecondTick(Live(one).state);
    var two := one + [Tick(APART)];
    LiveTicks(two, HALF_DARK);
    ThirdTick(Live(two).state);
    DarkRunOn(two + [Tick(HALF_DARK)]);
  }

  lemma DarkRunOn(events: seq<Event>)
    requires AtDusk(Live(events).state)
    ensures Live(events + [Tick(DARK_ONE)] + [Tick(DARK_TWO)]).state.phase == Resolving
  {
    LiveTicks(events, DARK_ONE);
    FirstDarkTick(Live(events).state);
    LiveTicks(events + [Tick(DARK_ONE)], DARK_TWO);
    SecondDarkTick(Live(events + [Tick(DARK_ONE)]).state);
  }

  /** Restarted in the dark, the machine says of the same split that it is not resolving after all. */
  lemma OutageCanReturnToSplit()
    ensures && Live(IN_THE_DARK).state.phase == Resolving
            && Live(IN_THE_DARK + [Restart]).state.phase == Resolving
            && Blind(DARK_TWO) && Live(IN_THE_DARK + [Restart] + [Tick(DARK_TWO)]).state.phase == Split
  {
    DarkRun();
    RestartForgetsResolving(IN_THE_DARK, DARK_TWO);
    LiveTicks(IN_THE_DARK + [Restart], DARK_TWO);
  }

  /** Neither chain was last seen before a moment, if it was seen at all. */
  ghost predicate SeenSince(s: State, from: int) {
    && (s.sf.lastBlockAt == 0 || s.sf.lastBlockAt >= from)
    && (s.sq.lastBlockAt == 0 || s.sq.lastBlockAt >= from)
  }

  /** Within the nominal stall time of that moment, in which neither chain can count as quiet. */
  predicate Soon(obs: Observation, from: int) {
    var factor := if obs.stallFactor <= 0.0 then DEFAULT_STALL_FACTOR else obs.stallFactor;
    from <= obs.at && (obs.at - from) as real <= NOMINAL_SECS * factor
  }

  lemma NotQuietSoon(view: View, obs: Observation, from: int)
    requires Soon(obs, from) && (view.lastBlockAt == 0 || view.lastBlockAt >= from)
    ensures !view.Stalled(obs)
  {
    var factor := if obs.stallFactor <= 0.0 then DEFAULT_STALL_FACTOR else obs.stallFactor;
    var quiet, expected := (obs.at - view.lastBlockAt) as real, view.cadence.ExpectedInterval() as real;
    NominalAtLeast(view.cadence);
    if view.lastBlockAt != 0 {
      AsReal(obs.at - view.lastBlockAt, obs.at - from);
      Patience(quiet, (obs.at - from) as real, expected, factor);
      assert view.Stalled(obs) ==> quiet > expected * factor;
    }
  }

  lemma NominalAtLeast(c: Cadence)
    ensures c.ExpectedInterval() as real >= NOMINAL_SECS
  {
    var secs := if c.intervalSecs < NOMINAL_SECS then NOMINAL_SECS else c.intervalSecs;
    assert secs.Floor >= NOMINAL_SECS.Floor == 600;
    AsReal(600, c.ExpectedInterval());
  }

  lemma AsReal(a: int, b: int)
    requires a <= b
    ensures a as real <= b as real
  {}

  lemma Patience(quiet: real, window: real, expected: real, factor: real)
    requires quiet <= window <= NOMINAL_SECS * factor && NOMINAL_SECS <= expected && factor > 0.0
    ensures quiet <= expected * factor
  {
    assert (expected - NOMINAL_SECS) * factor >= 0.0;
  }

  lemma SoonTick(s: State, obs: Observation, from: int)
    requires SeenSince(s, from) && Soon(obs, from)
    ensures SeenSince(Step(s, obs).0, from)
    ensures s.phase == Split ==> Step(s, obs).0.phase == Split
  {
    GatherFields(s, obs);
    GatherViews(s, obs);
    StepFields(s, obs);
    StepIsSafe(s, obs);
    var g := Gather(s, obs).0;
    NotQuietSoon(g.sf, obs, from);
    NotQuietSoon(g.sq, obs, from);
  }

  /**
    Unlike the separation clock, the quiet of a chain is measured from the restart: within
    the nominal stall time of its first tick after one, a machine that was in SPLIT is in
    SPLIT, whatever it sees and whatever an operator says. Restarted at least that often, it
    never resolves.
   */
  lemma {:induction false} RestartPostponesResolving(events: seq<Event>, trace: seq<Observation>, from: int)
    requires Live(events).state.phase == Split
    requires forall i :: 0 <= i < |trace| ==> Soon(trace[i], from)
    ensures var n := After(Live(events + [Restart]).state, trace); n.phase == Split && SeenSince(n, from)
    decreases |trace|
  {
    OneMore(Restarted(Daemon(NEW_STATE, NEW_RECORD)), events, Restart);
    AlwaysUpToDate(Restarted(Daemon(NEW_STATE, NEW_RECORD)), events);
    var s := Live(events + [Restart]).state;
    if trace != [] {
      var k := |trace| - 1;
      RestartPostponesResolving(events, trace[..k], from);
      SoonTick(After(s, trace[..k]), trace[k], from);
    }
  }

  // ---- a crash in the middle of a save

  /** The clock is saved under three keys one after another, in any order: what a crash leaves of it. */
  function Torn(r: Record, n: State, hash: bool, height: bool, since: bool): Record {
    r.(hash := if hash then CandidateHash(n) else r.hash,
       height := if height then CandidateHeight(n) else r.height,
       since := if since then n.forkCandidateSince else r.since)
  }

  /** What a start makes of the record when the daemon crashed while saving the clock on a tick. */
  function Crashed(d: Daemon, obs: Observation, hash: bool, height: bool, since: bool): State {
    var (n, said) := Step(d.state, obs);
    Load(Torn(SaveAll(d.record, n, said), n, hash, height, since))
  }

  /**
    A crash while the clock moves to a new separation makes the clock count from before that
    separation was first seen exactly when its hash was written and its start was not; it
    then stands at the start of the separation before.
   */
  lemma TornClockIff(t: Tree, events: seq<Event>, obs: Observation, hash: bool, height: bool, since: bool,
                     later: Observation)
    requires Genuine(t, events) && Live(events).state.forkCandidate.Some?
    requires Truthful(t, obs) && Mutual(obs) && obs.at > Live(events).state.forkCandidateSince
    requires obs.forkCandidate.value.hash != Live(events).state.forkCandidate.value.hash
    requires Truthful(t, later) && SameSeparation(obs, later) && later.at >= obs.at
    ensures var s := Crashed(Live(events), obs, hash, height, since);
            var clock := ForkClock(s.forkCandidate, s.forkCandidateSince, later).1;
            && (clock < obs.at <==> hash && !since)
            && (hash && !since ==> clock == Live(events).state.forkCandidateSince)
  {
    ClockIsSaved(t, events);
    TornClock(t, Live(events), obs, hash, height, since, later);
  }

  lemma TornClock(t: Tree, d: Daemon, obs: Observation, hash: bool, height: bool, since: bool, later: Observation)
    requires ClockSaved(t, d) && d.state.forkCandidate.Some?
    requires Truthful(t, obs) && Mutual(obs) && obs.at > d.state.forkCandidateSince
    requires obs.forkCandidate.value.hash != d.state.forkCandidate.value.hash
    requires Truthful(t, later) && SameSeparation(obs, later) && later.at >= obs.at
    ensures var s := Crashed(d, obs, hash, height, since);
            var clock := ForkClock(s.forkCandidate, s.forkCandidateSince, later).1;
            && (clock < obs.at <==> hash && !since)
            && (hash && !since ==> clock == d.state.forkCandidateSince)
  {
    var (n, said) := Step(d.state, obs);
    SaveLeavesClock(d.record, n, said);
    GatherFields(d.state, obs);
    StepFields(d.state, obs);
  }
}
