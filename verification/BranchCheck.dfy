/** Does the second view follow the other chain? Two views compared at sampled heights. */
module BranchCheck {
  import opened Options
  import opened BlockTree

  datatype Reading = Found(hash: Hash) | NotFound | Failed

  /** What a backend answers, height by height; it does not have the heights not listed. */
  datatype View = View(answers: map<int, Reading>) {
    function Read(height: int): Reading {
      if height in answers then answers[height] else NotFound
    }
  }

  datatype Error = WrongBranch | CannotVerify | ReadFailed

  // ---- sampling

  function Candidates(anchor: nat): seq<int> {
    [anchor, anchor - 1, anchor / 2, anchor / 4, anchor / 8, 1000, 1, 0]
  }

  /** The first mention of every candidate within range. */
  function Unseen(candidates: seq<int>, anchor: int, seen: set<int>): (out: seq<int>)
    ensures forall h :: h in out <==> h in candidates && 0 <= h <= anchor && h !in seen
    ensures forall i, j :: 0 <= i < j < |out| ==> out[i] != out[j]
    decreases |candidates|
  {
    if candidates == [] then []
    else
      var h := candidates[0];
      if h < 0 || h > anchor || h in seen then Unseen(candidates[1..], anchor, seen)
      else [h] + Unseen(candidates[1..], anchor, seen + {h})
  }

  function Samples(anchor: int): seq<int> {
    if anchor < 0 then [] else Unseen(Candidates(anchor), anchor, {})
  }

  method BranchSampleHeights(anchor: int) returns (out: seq<int>)
    ensures out == Samples(anchor)
  {
    if anchor < 0 {
      return [];
    }
    out := KeepUnseen([anchor, anchor - 1, anchor / 2, anchor / 4, anchor / 8, 1000, 1, 0], anchor);
  }

  lemma OneMoreCandidate(candidates: seq<int>, k: nat, anchor: int, seen: set<int>)
    requires k < |candidates|
    ensures var h := candidates[k];
            Unseen(candidates[k..], anchor, seen)
            == if h < 0 || h > anchor || h in seen then Unseen(candidates[k + 1..], anchor, seen)
               else [h] + Unseen(candidates[k + 1..], anchor, seen + {h})
  {
    assert candidates[k..][1..] == candidates[k + 1..];
  }

  lemma Regroup(out: seq<int>, h: int, rest: seq<int>)
    ensures out + ([h] + rest) == (out + [h]) + rest
  {}

  method KeepUnseen(candidates: seq<int>, anchor: nat) returns (out: seq<int>)
    ensures out == Unseen(candidates, anchor, {})
  {
    var seen: set<int>, k := {}, 0;
    out := [];
    while k < |candidates|
      invariant 0 <= k <= |candidates|
      invariant out + Unseen(candidates[k..], anchor, seen) == Unseen(candidates, anchor, {})
    {
      OneMoreCandidate(candidates, k, anchor, seen);
      var h := candidates[k];
      if !(h < 0 || h > anchor) && h !in seen {
        Regroup(out, h, Unseen(candidates[k + 1..], anchor, seen + {h}));
        seen := seen + {h};
        out := out + [h];
      }
      k := k + 1;
    }
  }

  // ---- comparing

  /** How many heights above genesis were compared, and what stopped the comparison, if anything did. */
  function CompareAll(sf: View, sq: View, heights: seq<int>): (nat, Option<Error>)
    decreases |heights|
  {
    if heights == [] then (0, None)
    else
      var h, (n, err) := heights[0], CompareAll(sf, sq, heights[1..]);
      match sf.Read(h)
      case NotFound => (n, err)
      case Failed => (0, Some(ReadFailed))
      case Found(x) =>
        match sq.Read(h)
        case NotFound => (n, err)
        case Failed => (0, Some(ReadFailed))
        case Found(y) => if x != y then (0, Some(WrongBranch)) else ((if h > 0 then 1 else 0) + n, err)
  }

  method VerifySharedHistory(sf: View, sq: View, anchor: int) returns (compared: nat, err: Option<Error>)
    ensures compared == CompareAll(sf, sq, Samples(anchor)).0 && err == CompareAll(sf, sq, Samples(anchor)).1
  {
    var heights := BranchSampleHeights(anchor);
    compared, err := CompareHeights(sf, sq, heights);
  }

  method CompareHeights(sf: View, sq: View, heights: seq<int>) returns (compared: nat, err: Option<Error>)
    ensures compared == CompareAll(sf, sq, heights).0 && err == CompareAll(sf, sq, heights).1
  {
    compared, err := 0, None;
    var k := 0;
    while k < |heights|
      invariant 0 <= k <= |heights|
      invariant CompareAll(sf, sq, heights).0 == compared + CompareAll(sf, sq, heights[k..]).0
      invariant CompareAll(sf, sq, heights).1 == CompareAll(sf, sq, heights[k..]).1
    {
      assert heights[k..][1..] == heights[k + 1..];
      var h := heights[k];
      var mine := sf.Read(h);
      if mine.Failed? {
        return compared, Some(ReadFailed);
      }
      if mine.Found? {
        var theirs := sq.Read(h);
        if theirs.Failed? {
          return compared, Some(ReadFailed);
        }
        if theirs.Found? {
          if mine.hash != theirs.hash {
            return compared, Some(WrongBranch);
          }
          if h > 0 {
            compared := compared + 1;
          }
        }
      }
      k := k + 1;
    }
  }

  function Divergence(sf: View, sq: View, fork: BlockRef): Option<Error> {
    var mine, theirs := sf.Read(fork.height + 1), sq.Read(fork.height + 1);
    if mine.NotFound? || theirs.NotFound? then Some(CannotVerify)
    else if mine.Failed? || theirs.Failed? then Some(ReadFailed)
    else if mine == theirs then Some(WrongBranch)
    else None
  }

  function VerifyAt(sf: View, sq: View, heights: seq<int>, fork: Option<BlockRef>): Option<Error> {
    var (compared, err) := CompareAll(sf, sq, heights);
    if err.Some? then err
    else if fork.Some? then Divergence(sf, sq, fork.value)
    else if compared == 0 then Some(CannotVerify)
    else None
  }

  /** None when the check passed. */
  function Verify(sf: View, sq: View, anchor: int, fork: Option<BlockRef>): Option<Error> {
    VerifyAt(sf, sq, Samples(anchor), fork)
  }

  method VerifyBranch(sf: View, sq: View, anchor: int, fork: Option<BlockRef>) returns (err: Option<Error>)
    ensures err == Verify(sf, sq, anchor, fork)
  {
    var compared;
    compared, err := VerifySharedHistory(sf, sq, anchor);
    if err.Some? {
      return;
    }
    if fork.Some? {
      return Divergence(sf, sq, fork.value);
    }
    if compared == 0 {
      return Some(CannotVerify);
    }
  }

  // ---- what passing means, whatever the backends answer

  predicate BothFound(sf: View, sq: View, h: int) {
    sf.Read(h).Found? && sq.Read(h).Found?
  }

  /** Both answered, and gave the same block. */
  predicate SameAt(sf: View, sq: View, h: int) {
    BothFound(sf, sq, h) && sf.Read(h) == sq.Read(h)
  }

  lemma {:induction false} ComparedMeans(sf: View, sq: View, heights: seq<int>)
    requires CompareAll(sf, sq, heights).1.None?
    ensures forall h :: h in heights && BothFound(sf, sq, h) ==> SameAt(sf, sq, h)
    ensures CompareAll(sf, sq, heights).0 > 0 <==> exists h :: h in heights && h > 0 && SameAt(sf, sq, h)
    decreases |heights|
  {
    if heights != [] {
      ComparedMeans(sf, sq, heights[1..]);
      assert forall h :: h in heights <==> h == heights[0] || h in heights[1..];
      if h :| h in heights[1..] && h > 0 && SameAt(sf, sq, h) {
        assert h in heights;
      }
      if heights[0] > 0 && SameAt(sf, sq, heights[0]) {
        assert heights[0] in heights;
      }
    }
  }

  /** A height at which the comparison ends: it could not be read where it matters, or the two blocks differ. */
  predicate Stops(sf: View, sq: View, h: int) {
    || sf.Read(h) == Failed
    || (sf.Read(h).Found? && (sq.Read(h) == Failed || (sq.Read(h).Found? && sq.Read(h) != sf.Read(h))))
  }

  function StopReason(sf: View, sq: View, h: int): Error {
    if sf.Read(h).Found? && sq.Read(h).Found? then WrongBranch else ReadFailed
  }

  predicate FirstStop(sf: View, sq: View, heights: seq<int>, k: int) {
    0 <= k < |heights| && Stops(sf, sq, heights[k]) && forall i :: 0 <= i < k ==> !Stops(sf, sq, heights[i])
  }

  /** The heights above genesis at which both answered and agreed. */
  function Vouched(sf: View, sq: View, heights: seq<int>): seq<int>
    decreases |heights|
  {
    if heights == [] then []
    else (if heights[0] > 0 && SameAt(sf, sq, heights[0]) then [heights[0]] else []) + Vouched(sf, sq, heights[1..])
  }

  /** The comparison ends at the first height that stops it, with that height's reason, and otherwise counts what agreed. */
  lemma {:induction false} ComparisonEnds(sf: View, sq: View, heights: seq<int>)
    ensures var (n, err) := CompareAll(sf, sq, heights);
            && (err.None? <==> forall k :: 0 <= k < |heights| ==> !Stops(sf, sq, heights[k]))
            && (err.None? ==> n == |Vouched(sf, sq, heights)|)
            && (forall k :: FirstStop(sf, sq, heights, k) ==> err == Some(StopReason(sf, sq, heights[k])))
    decreases |heights|
  {
    if heights != [] {
      var rest := heights[1..];
      ComparisonEnds(sf, sq, rest);
      if !Stops(sf, sq, heights[0]) {
        assert forall k :: 0 < k < |heights| ==> heights[k] == rest[k - 1];
        forall k | FirstStop(sf, sq, heights, k)
          ensures CompareAll(sf, sq, heights).1 == Some(StopReason(sf, sq, heights[k]))
        {
          assert forall i :: 0 <= i < k - 1 ==> rest[i] == heights[i + 1];
          assert FirstStop(sf, sq, rest, k - 1);
        }
      }
    }
  }

  /** A sample that could not be read where it matters fails the whole check, whatever else agrees. */
  lemma UnreadSampleFails(sf: View, sq: View, heights: seq<int>, fork: Option<BlockRef>, h: int)
    requires h in heights
    requires sf.Read(h) == Failed || (sf.Read(h).Found? && sq.Read(h) == Failed)
    ensures VerifyAt(sf, sq, heights, fork).Some?
  {
    ComparisonEnds(sf, sq, heights);
    var k :| 0 <= k < |heights| && heights[k] == h;
    assert Stops(sf, sq, heights[k]);
  }

  /** When the samples pass, the verdict: whether anything was compared, or what stands just above the separation. */
  lemma VerdictAfterSamples(sf: View, sq: View, heights: seq<int>, fork: Option<BlockRef>)
    requires forall h :: h in heights ==> !Stops(sf, sq, h)
    ensures fork.None? ==>
              VerifyAt(sf, sq, heights, fork) == if Vouched(sf, sq, heights) == [] then Some(CannotVerify) else None
    ensures fork.Some? ==>
              var mine, theirs := sf.Read(fork.value.height + 1), sq.Read(fork.value.height + 1);
              VerifyAt(sf, sq, heights, fork)
              == if mine == NotFound || theirs == NotFound then Some(CannotVerify)
                 else if mine == Failed || theirs == Failed then Some(ReadFailed)
                 else if mine.hash == theirs.hash then Some(WrongBranch)
                 else None
  {
    ComparisonEnds(sf, sq, heights);
  }

  /** With no separation known, success is never returned without a comparison above genesis that agreed. */
  lemma SilenceIsNotSuccess(sf: View, sq: View, anchor: int)
    requires Verify(sf, sq, anchor, None).None?
    ensures exists h :: 0 < h <= anchor && SameAt(sf, sq, h)
  {
    ComparedMeans(sf, sq, Samples(anchor));
  }

  // ---- what it means for two chains

  /** The view answers every height of the chain ending in tip, and nothing else. */
  ghost predicate Follows(t: Tree, tip: BlockMeta, v: View) {
    && Known(t, tip)
    && forall h: int :: v.Read(h) == if 0 <= h <= tip.height then Found(AncestorAt(t, tip, h).hash) else NotFound
  }

  ghost predicate Agree(t: Tree, a: BlockMeta, b: BlockMeta, h: nat)
    requires Known(t, a) && Known(t, b) && h <= a.height && h <= b.height
  {
    AncestorAt(t, a, h) == AncestorAt(t, b, h)
  }

  lemma SameMeansAgree(t: Tree, a: BlockMeta, b: BlockMeta, sf: View, sq: View, h: int)
    requires Follows(t, a, sf) && Follows(t, b, sq)
    ensures BothFound(sf, sq, h) <==> 0 <= h <= a.height && h <= b.height
    ensures BothFound(sf, sq, h) ==> (SameAt(sf, sq, h) <==> Agree(t, a, b, h))
  {
    var _ := sf.Read(h);
    var _ := sq.Read(h);
  }

  /** Agreement at a height is agreement at every height below it. */
  lemma AgreeBelow(t: Tree, a: BlockMeta, b: BlockMeta, mid: nat, low: nat)
    requires Known(t, a) && Known(t, b) && low <= mid <= a.height && mid <= b.height && Agree(t, a, b, mid)
    ensures Agree(t, a, b, low)
  {
    SharedBelow(t, a, b, mid, low);
  }

  /** Without read errors the samples decide: they pass exactly when every one both chains reach agrees. */
  lemma {:induction false} ComparesExactly(t: Tree, a: BlockMeta, b: BlockMeta, sf: View, sq: View, heights: seq<int>)
    requires Follows(t, a, sf) && Follows(t, b, sq)
    ensures var err := CompareAll(sf, sq, heights).1;
            && (err == None || err == Some(WrongBranch))
            && (err == None <==> forall h :: h in heights && 0 <= h <= a.height && h <= b.height ==> Agree(t, a, b, h))
    decreases |heights|
  {
    if heights != [] {
      ComparesExactly(t, a, b, sf, sq, heights[1..]);
      SameMeansAgree(t, a, b, sf, sq, heights[0]);
      assert sf.Read(heights[0]) != Failed && sq.Read(heights[0]) != Failed;
      assert forall h :: h in heights <==> h == heights[0] || h in heights[1..];
      assert heights[0] in heights;
    }
  }

  /** One of the heights looked at, and both chains reach it. */
  predicate Compared(a: BlockMeta, b: BlockMeta, heights: seq<int>, h: int) {
    h in heights && 0 <= h <= a.height && h <= b.height
  }

  lemma SampleAt(anchor: nat, k: nat, h: int)
    requires k < 8 && Candidates(anchor)[k] == h && 0 <= h <= anchor
    ensures h in Samples(anchor)
  {}

  lemma SamplesInclude(anchor: nat)
    ensures anchor in Samples(anchor) && 0 in Samples(anchor)
    ensures forall h :: h in Samples(anchor) ==> 0 <= h <= anchor
  {
    var c := Candidates(anchor);
    assert c[0] == anchor && c[7] == 0;
  }

  /** Halving down from the anchor to an eighth of it. */
  lemma SamplesHalve(anchor: nat)
    ensures anchor / 2 in Samples(anchor) && anchor / 4 in Samples(anchor) && anchor / 8 in Samples(anchor)
  {
    SampleAt(anchor, 2, anchor / 2);
    SampleAt(anchor, 3, anchor / 4);
    SampleAt(anchor, 4, anchor / 8);
  }

  /** The block before the anchor, and two fixed heights. */
  lemma SamplesFixed(anchor: nat)
    ensures anchor >= 1 ==> anchor - 1 in Samples(anchor) && 1 in Samples(anchor)
    ensures anchor >= 1000 ==> 1000 in Samples(anchor)
  {
    if anchor >= 1 {
      SampleAt(anchor, 1, anchor - 1);
      SampleAt(anchor, 6, 1);
    }
    if anchor >= 1000 {
      SampleAt(anchor, 5, 1000);
    }
  }

  /**
    With no separation known the check passes exactly when there is something above genesis
    to compare and the chains agree at every sample they both reach, and when it does they
    agree at every height up to the highest of those.
   */
  lemma PassesIffSamplesAgree(t: Tree, a: BlockMeta, b: BlockMeta, sf: View, sq: View, heights: seq<int>)
    requires Follows(t, a, sf) && Follows(t, b, sq)
    ensures VerifyAt(sf, sq, heights, None).None? <==>
              && (exists h :: h > 0 && Compared(a, b, heights, h))
              && (forall h :: Compared(a, b, heights, h) ==> Agree(t, a, b, h))
    ensures VerifyAt(sf, sq, heights, None).None? ==>
              forall h, low: nat :: Compared(a, b, heights, h) && low <= h ==> Agree(t, a, b, low)
  {
    ComparesExactly(t, a, b, sf, sq, heights);
    if CompareAll(sf, sq, heights).1.None? {
      ComparedMeans(sf, sq, heights);
      forall h ensures SameAt(sf, sq, h) <==> 0 <= h <= a.height && h <= b.height && Agree(t, a, b, h) {
        SameMeansAgree(t, a, b, sf, sq, h);
      }
      assert forall h :: h in heights && SameAt(sf, sq, h) ==> Compared(a, b, heights, h);
      forall h, low: nat | Compared(a, b, heights, h) && low <= h ensures Agree(t, a, b, low) {
        AgreeBelow(t, a, b, h, low);
      }
    }
    assert forall h :: Compared(a, b, heights, h) ==> h in heights;
  }

  /**
    Sampling is complete: once both views reach the anchor, the check passes exactly when
    the two chains agree at every height up to it, and otherwise names the wrong branch.
   */
  lemma SamplingIsComplete(t: Tree, a: BlockMeta, b: BlockMeta, sf: View, sq: View, anchor: nat)
    requires Follows(t, a, sf) && Follows(t, b, sq)
    requires 0 < anchor <= a.height && anchor <= b.height
    ensures Verify(sf, sq, anchor, None) ==
              if forall h: nat :: h <= anchor ==> Agree(t, a, b, h) then None else Some(WrongBranch)
  {
    SamplesInclude(anchor);
    ComparesExactly(t, a, b, sf, sq, Samples(anchor));
    PassesIffSamplesAgree(t, a, b, sf, sq, Samples(anchor));
    assert Compared(a, b, Samples(anchor), anchor);
    if CompareAll(sf, sq, Samples(anchor)).1.None? {
      forall h: nat | h <= anchor ensures Agree(t, a, b, h) {
        AgreeBelow(t, a, b, anchor, h);
      }
    } else {
      var h :| h in Samples(anchor) && 0 <= h <= a.height && h <= b.height && !Agree(t, a, b, h);
    }
  }

  /** Height of the lower of two tips, no higher than the anchor. */
  function Shared(a: BlockMeta, b: BlockMeta, anchor: nat): int {
    var low := if a.height < b.height then a.height else b.height;
    if low < anchor then low else anchor
  }

  lemma SampleVouches(t: Tree, a: BlockMeta, b: BlockMeta, sf: View, sq: View, anchor: nat, at: nat)
    requires Follows(t, a, sf) && Follows(t, b, sq) && at in Samples(anchor) && at <= Shared(a, b, anchor)
    requires Verify(sf, sq, anchor, None).None?
    ensures forall h: nat :: h <= at ==> Agree(t, a, b, h)
  {
    PassesIffSamplesAgree(t, a, b, sf, sq, Samples(anchor));
    assert Compared(a, b, Samples(anchor), at);
  }

  /** The highest of the halvings that is reached, at least half of what is. */
  function Half(anchor: nat, shared: nat): (at: nat)
    requires anchor / 8 <= shared <= anchor
    ensures at <= shared <= 2 * at + 1 && at in {anchor, anchor / 2, anchor / 4, anchor / 8}
  {
    if shared == anchor then anchor else if shared >= anchor / 2 then anchor / 2
    else if shared >= anchor / 4 then anchor / 4 else anchor / 8
  }

  lemma HalfIsSampled(anchor: nat, shared: nat)
    requires anchor / 8 <= shared <= anchor
    ensures Half(anchor, shared) in Samples(anchor)
  {
    SamplesInclude(anchor);
    SamplesHalve(anchor);
  }

  /**
    What a pass is worth while a view is still short of the anchor: once both reach an
    eighth of it, the chains agree at least up to half of what both reach.
   */
  lemma SamplingReachesHalf(t: Tree, a: BlockMeta, b: BlockMeta, sf: View, sq: View, anchor: nat, h: nat)
    requires Follows(t, a, sf) && Follows(t, b, sq) && Verify(sf, sq, anchor, None).None?
    requires anchor / 8 <= Shared(a, b, anchor) && 2 * h <= Shared(a, b, anchor)
    ensures Agree(t, a, b, h)
  {
    var shared: nat := Shared(a, b, anchor);
    HalfIsSampled(anchor, shared);
    SampleVouches(t, a, b, sf, sq, anchor, Half(anchor, shared));
  }

  lemma OneShortIsSampled(anchor: nat, shared: nat)
    requires anchor - 1 <= shared <= anchor
    ensures shared in Samples(anchor)
  {
    SampleAt(anchor, if shared == anchor then 0 else 1, shared);
  }

  /** With only the last block missing they agree all the way. */
  lemma SamplingReachesLast(t: Tree, a: BlockMeta, b: BlockMeta, sf: View, sq: View, anchor: nat, h: nat)
    requires Follows(t, a, sf) && Follows(t, b, sq) && Verify(sf, sq, anchor, None).None?
    requires h <= Shared(a, b, anchor) && Shared(a, b, anchor) >= anchor - 1
    ensures Agree(t, a, b, h)
  {
    OneShortIsSampled(anchor, Shared(a, b, anchor));
    SampleVouches(t, a, b, sf, sq, anchor, Shared(a, b, anchor));
  }

  /** And up to a thousand as soon as both reach that. */
  lemma SamplingReachesThousand(t: Tree, a: BlockMeta, b: BlockMeta, sf: View, sq: View, anchor: nat, h: nat)
    requires Follows(t, a, sf) && Follows(t, b, sq) && Verify(sf, sq, anchor, None).None?
    requires h <= 1000 <= Shared(a, b, anchor)
    ensures Agree(t, a, b, h)
  {
    SamplesFixed(anchor);
    SampleVouches(t, a, b, sf, sq, anchor, 1000);
  }

  /** As soon as both views hold a block above genesis there is something to compare. */
  lemma SomethingIsCompared(t: Tree, a: BlockMeta, b: BlockMeta, sf: View, sq: View, anchor: nat)
    requires Follows(t, a, sf) && Follows(t, b, sq) && Shared(a, b, anchor) >= 1
    ensures Verify(sf, sq, anchor, None) != Some(CannotVerify)
  {
    SamplesFixed(anchor);
    ComparesExactly(t, a, b, sf, sq, Samples(anchor));
    PassesIffSamplesAgree(t, a, b, sf, sq, Samples(anchor));
    assert Compared(a, b, Samples(anchor), 1);
  }

  /** Above a separation the chains stay separate. */
  lemma SeparateAbove(t: Tree, a: BlockMeta, b: BlockMeta, low: nat)
    requires Known(t, a) && Known(t, b) && low <= a.height && low <= b.height && !Agree(t, a, b, low)
    ensures forall h: nat :: low <= h <= a.height && h <= b.height ==> !Agree(t, a, b, h)
  {
    forall h: nat | low <= h <= a.height && h <= b.height ensures !Agree(t, a, b, h) {
      if Agree(t, a, b, h) {
        AgreeBelow(t, a, b, h, low);
      }
    }
  }

  /** Above a separation said to be at the fork, both chains have a block and the two blocks differ. */
  ghost predicate SeparateAfter(t: Tree, a: BlockMeta, b: BlockMeta, fork: BlockRef)
    requires Known(t, a) && Known(t, b)
  {
    0 <= fork.height + 1 <= a.height && fork.height + 1 <= b.height && !Agree(t, a, b, fork.height + 1)
  }

  lemma DivergenceMeans(t: Tree, a: BlockMeta, b: BlockMeta, sf: View, sq: View, fork: BlockRef)
    requires Follows(t, a, sf) && Follows(t, b, sq)
    ensures Divergence(sf, sq, fork).None? <==> SeparateAfter(t, a, b, fork)
  {
    SameMeansAgree(t, a, b, sf, sq, fork.height + 1);
    assert sf.Read(fork.height + 1) != Failed && sq.Read(fork.height + 1) != Failed;
  }

  /**
    With a separation known, the check passes exactly when no sample both chains reach tells
    against it and they have separated just above it; then they differ at every height above
    it that both reach.
   */
  lemma PassingMeansSeparate(t: Tree, a: BlockMeta, b: BlockMeta, sf: View, sq: View, heights: seq<int>, fork: BlockRef)
    requires Follows(t, a, sf) && Follows(t, b, sq)
    ensures VerifyAt(sf, sq, heights, Some(fork)).None? <==>
              SeparateAfter(t, a, b, fork) && forall h :: Compared(a, b, heights, h) ==> Agree(t, a, b, h)
    ensures VerifyAt(sf, sq, heights, Some(fork)).None? ==>
              forall h: nat :: fork.height < h <= a.height && h <= b.height ==> !Agree(t, a, b, h)
  {
    ComparesExactly(t, a, b, sf, sq, heights);
    DivergenceMeans(t, a, b, sf, sq, fork);
    assert forall h :: h in heights && 0 <= h <= a.height && h <= b.height ==> Compared(a, b, heights, h);
    if SeparateAfter(t, a, b, fork) {
      SeparateAbove(t, a, b, fork.height + 1);
    }
  }

  lemma SamplesAgree(t: Tree, a: BlockMeta, b: BlockMeta, heights: seq<int>, fork: BlockRef)
    requires Known(t, a) && Known(t, b) && HighestCommon(t, fork, a, b)
    requires forall h :: h in heights ==> h <= fork.height
    ensures forall h :: Compared(a, b, heights, h) ==> Agree(t, a, b, h)
  {
    forall h | Compared(a, b, heights, h) ensures Agree(t, a, b, h) {
      AgreeExactlyBelow(t, fork, a, b, h);
    }
  }

  lemma SeparateAfterTheFork(t: Tree, a: BlockMeta, b: BlockMeta, fork: BlockRef)
    requires Known(t, a) && Known(t, b) && HighestCommon(t, fork, a, b)
    ensures SeparateAfter(t, a, b, fork) <==> Diverged(t, a, b)
  {
    BothAboveIffDiverged(t, fork, a, b);
    if a.height > fork.height && b.height > fork.height {
      DifferJustAbove(t, a, b, fork);
    }
  }

  lemma DifferJustAbove(t: Tree, a: BlockMeta, b: BlockMeta, fork: BlockRef)
    requires Known(t, a) && Known(t, b) && HighestCommon(t, fork, a, b)
    requires a.height > fork.height && b.height > fork.height
    ensures fork.height >= 0 && !Agree(t, a, b, fork.height + 1)
  {
    AgreeExactlyBelow(t, fork, a, b, fork.height + 1);
  }

  /**
    Against the true separation point, at or above the anchor, the check passes exactly
    when both chains have a block of their own.
   */
  lemma TrueForkPassesIff(t: Tree, a: BlockMeta, b: BlockMeta, sf: View, sq: View, anchor: int, fork: BlockRef)
    requires Follows(t, a, sf) && Follows(t, b, sq) && HighestCommon(t, fork, a, b) && anchor <= fork.height
    ensures Verify(sf, sq, anchor, Some(fork)).None? <==> Diverged(t, a, b)
  {
    if anchor >= 0 {
      SamplesInclude(anchor);
    }
    SamplesAgree(t, a, b, Samples(anchor), fork);
    SeparateAfterTheFork(t, a, b, fork);
    PassingMeansSeparate(t, a, b, sf, sq, Samples(anchor), fork);
  }
}
