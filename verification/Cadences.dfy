/** A running estimate of how far apart one chain's blocks are, and when silence becomes a stall. */
module Cadences {
  const ALPHA := 0.3
  const NOMINAL_SECS := 600.0
  const MAX_INTERVAL_SECS := 86400.0
  const DEFAULT_STALL_FACTOR := 6.0

  datatype Cadence = Cadence(intervalSecs: real, lastBlockTime: int, samples: nat) {
    /** Folds in a new block's header timestamp. */
    function Observe(headerTime: int): Cadence {
      if lastBlockTime == 0 then
        this.(lastBlockTime := headerTime)
      else if headerTime <= lastBlockTime then
        // out of order or repeated: the later reference stands
        this
      else
        var measured := (headerTime - lastBlockTime) as real;
        var interval := if measured > MAX_INTERVAL_SECS then MAX_INTERVAL_SECS else measured;
        Cadence(ALPHA * interval + (1.0 - ALPHA) * intervalSecs, headerTime, samples + 1)
    }

    /** The interval to reason about, in whole seconds and never below the nominal rate. */
    function ExpectedInterval(): int {
      (if intervalSecs < NOMINAL_SECS then NOMINAL_SECS else intervalSecs).Floor
    }

    /** Whether the chain has been silent for longer than its own pace explains. */
    predicate Stalled(now: int, lastBlockAt: int, factor: real) {
      if lastBlockAt <= 0 || now <= lastBlockAt then
        false
      else
        var used := if factor <= 0.0 then DEFAULT_STALL_FACTOR else factor;
        (now - lastBlockAt) as real > ExpectedInterval() as real * used
    }
  }

  const INITIAL := Cadence(NOMINAL_SECS, 0, 0)

  function ObserveAll(c: Cadence, times: seq<int>): Cadence
    decreases |times|
  {
    if times == [] then c else ObserveAll(c.Observe(times[0]), times[1..])
  }

  /**
    Whatever header times a miner claims, in whatever order, one chain's estimate stays
    between a second and a day and its reference point never moves back.
   */
  lemma {:induction false} EstimateStaysSane(c: Cadence, times: seq<int>)
    requires 1.0 <= c.intervalSecs <= MAX_INTERVAL_SECS
    ensures var r := ObserveAll(c, times);
            && 1.0 <= r.intervalSecs <= MAX_INTERVAL_SECS
            && (c.lastBlockTime > 0 ==> r.lastBlockTime >= c.lastBlockTime)
            && c.samples <= r.samples <= c.samples + |times|
    decreases |times|
  {
    if times != [] {
      var d := c.Observe(times[0]);
      assert 1.0 <= d.intervalSecs <= MAX_INTERVAL_SECS;
      EstimateStaysSane(d, times[1..]);
    }
  }

  /** A stall only ends with a new block: until one arrives, a later look still sees it. */
  lemma SilenceOnlyGrows(c: Cadence, now: int, later: int, lastBlockAt: int, factor: real)
    requires now <= later && c.Stalled(now, lastBlockAt, factor)
    ensures c.Stalled(later, lastBlockAt, factor)
  {}

  // ---- the estimate of a steady chain

  function Power(x: real, n: nat): real {
    if n == 0 then 1.0 else x * Power(x, n - 1)
  }

  /** n blocks, every one `apart` seconds after the one before. */
  function Steady(from: int, apart: int, n: nat): seq<int>
    decreases n
  {
    if n == 0 then [] else [from + apart] + Steady(from + apart, apart, n - 1)
  }

  function Pace(apart: int): real {
    if apart <= 86400 then apart as real else 86400.0
  }

  /** What is left of the way from an estimate to a pace, after n blocks that each close three tenths of it. */
  function LeftToLearn(pace: real, from: real, n: nat): real {
    Power(0.7, n) * (from - pace)
  }

  lemma OneStepCloser(pace: real, from: real, n: nat)
    ensures LeftToLearn(pace, from, n + 1) == LeftToLearn(pace, 0.3 * pace + 0.7 * from, n)
  {
    var p := Power(0.7, n);
    assert (0.3 * pace + 0.7 * from) - pace == 0.7 * (from - pace);
    assert p * (0.7 * (from - pace)) == (0.7 * p) * (from - pace);
  }

  /**
    A chain that keeps a pace is learnt: every block closes three tenths of what is left
    between the estimate and that pace, or a day if the pace is slower than that.
   */
  lemma {:induction false} PaceIsLearnt(c: Cadence, apart: int, n: nat)
    requires c.lastBlockTime > 0 && apart > 0
    ensures var r := ObserveAll(c, Steady(c.lastBlockTime, apart, n));
            r.intervalSecs - Pace(apart) == LeftToLearn(Pace(apart), c.intervalSecs, n) && r.samples == c.samples + n
    decreases n
  {
    if n == 0 {
      assert Power(0.7, 0) == 1.0;
    } else {
      var d := c.Observe(c.lastBlockTime + apart);
      OneAtPace(c, apart);
      PaceIsLearnt(d, apart, n - 1);
      OneStepCloser(Pace(apart), c.intervalSecs, n - 1);
      FirstObserved(c, apart, n);
    }
  }

  lemma FirstObserved(c: Cadence, apart: int, n: nat)
    requires n > 0
    ensures var next := c.lastBlockTime + apart;
            ObserveAll(c, Steady(c.lastBlockTime, apart, n)) == ObserveAll(c.Observe(next), Steady(next, apart, n - 1))
  {
    var times := Steady(c.lastBlockTime, apart, n);
    assert times[1..] == Steady(c.lastBlockTime + apart, apart, n - 1);
  }

  lemma OneAtPace(c: Cadence, apart: int)
    requires c.lastBlockTime > 0 && apart > 0
    ensures c.Observe(c.lastBlockTime + apart)
         == Cadence(0.3 * Pace(apart) + 0.7 * c.intervalSecs, c.lastBlockTime + apart, c.samples + 1)
  {}

  // ---- when silence is a stall

  lemma Scaled(a: real, b: real, factor: real)
    requires a <= b && factor > 0.0
    ensures a * factor <= b * factor
  {
    assert (b - a) * factor >= 0.0;
  }

  lemma WholePace(c: Cadence)
    ensures var pace := if c.intervalSecs < 600.0 then 600.0 else c.intervalSecs;
            var whole := c.ExpectedInterval() as real;
            600.0 <= whole && pace - 1.0 <= whole <= pace
  {
    var pace := if c.intervalSecs < 600.0 then 600.0 else c.intervalSecs;
    assert c.ExpectedInterval() == pace.Floor;
    assert pace.Floor as real <= pace < pace.Floor as real + 1.0;
    assert pace.Floor >= 600;
  }

  lemma StalledIff(c: Cadence, now: int, lastBlockAt: int, factor: real)
    ensures var times := if factor <= 0.0 then 6.0 else factor;
            c.Stalled(now, lastBlockAt, factor) <==>
              lastBlockAt > 0 && now > lastBlockAt && (now - lastBlockAt) as real > c.ExpectedInterval() as real * times
  {}

  /**
    A chain is stalled once it has been silent for longer than `factor` times its pace, or
    times ten minutes if it is faster than that; no sooner than within a second of the pace.
    A factor that is not positive stands for six.
   */
  lemma StallTakes(c: Cadence, now: int, lastBlockAt: int, factor: real)
    ensures var times := if factor <= 0.0 then 6.0 else factor;
            var pace := if c.intervalSecs < 600.0 then 600.0 else c.intervalSecs;
            var silent := (now - lastBlockAt) as real;
            && (c.Stalled(now, lastBlockAt, factor) ==>
                  lastBlockAt > 0 && silent > 600.0 * times && silent > (pace - 1.0) * times)
            && (lastBlockAt > 0 && silent > pace * times ==> c.Stalled(now, lastBlockAt, factor))
  {
    var times := if factor <= 0.0 then 6.0 else factor;
    var pace := if c.intervalSecs < 600.0 then 600.0 else c.intervalSecs;
    var whole := c.ExpectedInterval() as real;
    StalledIff(c, now, lastBlockAt, factor);
    WholePace(c);
    Between((now - lastBlockAt) as real, whole, pace, times);
    assert (now - lastBlockAt) as real > 0.0 ==> now > lastBlockAt;
  }

  lemma Between(silent: real, whole: real, pace: real, times: real)
    requires 600.0 <= whole && pace - 1.0 <= whole <= pace && times > 0.0
    ensures silent > whole * times ==> silent > 600.0 * times && silent > (pace - 1.0) * times
    ensures silent > pace * times ==> silent > whole * times && silent > 0.0
  {
    Scaled(600.0, whole, times);
    Scaled(pace - 1.0, whole, times);
    Scaled(whole, pace, times);
    Scaled(0.0, pace, times);
  }
}
