/** The bounded walk from two tips back to the last block they share, through the header cache. */
module ForkSearch {
  import opened Options
  import opened BlockTree
  import opened SplitState
  import opened HeaderCaches

  datatype FetchResult = Got(meta: BlockMeta) | NotFound | Fault

  /**
    What one view answers to header requests: the headers it has, and those it fails on.
    One search asks each view for a header at most once, so a fixed answer is general.
   */
  datatype HeaderFetcher = HeaderFetcher(headers: map<Hash, BlockMeta>, faulty: set<Hash>) {
    function Fetch(h: Hash): FetchResult {
      if h in faulty then Fault else if h in headers then Got(headers[h]) else NotFound
    }
  }

  datatype SearchResult =
    | Found(fork: BlockRef)
    | TooDeep(steps: nat)
    | NoCommonAncestor
    | Pruned(missing: Hash)
    | Failed(asked: Hash)

  const DEFAULT_MAX_ANCESTOR_WALK := 20000

  function WalkLimit(maxWalk: int): nat {
    if maxWalk <= 0 then DEFAULT_MAX_ANCESTOR_WALK else maxWalk
  }

  function Max(x: int, y: int): int {
    if x < y then y else x
  }

  /** Whatever the view answers about a hash is that block's header. */
  ghost predicate Honest(t: Tree, fetch: HeaderFetcher) {
    forall h :: fetch.Fetch(h).Got? ==> h in t && fetch.Fetch(h).meta == t[h]
  }

  /** What is cached is the header it is filed under. */
  ghost predicate Coherent(t: Tree, contents: map<Key, BlockMeta>) {
    forall k :: k in contents ==> k.hash in t && contents[k] == t[k.hash]
  }

  /** No cache, or a well-formed one that agrees with the tree. */
  ghost predicate CacheReady(cache: HeaderCache?, t: Tree)
    reads cache, CacheRepr(cache)
  {
    cache != null ==> cache.Valid() && Coherent(t, cache.Contents())
  }

  ghost function CacheRepr(cache: HeaderCache?): set<object>
    reads cache
  {
    if cache == null then {} else cache.Repr
  }

  /** Every header below b, down to the given height, can be had from the view. */
  ghost predicate Obtainable(t: Tree, fetch: HeaderFetcher, b: BlockMeta, low: int)
    requires Known(t, b)
  {
    forall h: nat :: low <= h < b.height ==> fetch.Fetch(AncestorAt(t, b, h).hash).Got?
  }

  /** What a search without a cache needs in order to find r, having counted some steps already. */
  ghost predicate Findable(t: Tree, sf: HeaderFetcher, sq: HeaderFetcher, a: BlockMeta, b: BlockMeta,
                           counted: nat, limit: nat, r: BlockRef)
    requires Known(t, a) && Known(t, b)
  {
    && HighestCommon(t, r, a, b)
    && counted + Max(a.height, b.height) - r.height <= limit
    && Obtainable(t, sf, a, r.height)
    && Obtainable(t, sq, b, r.height)
  }

  /**
    What a search may answer, having counted some steps already: only the highest common
    ancestor within the limit, always that when it is findable, without a cache only then,
    and for its failures, true reasons.
   */
  ghost predicate ExactAnswer(t: Tree, sf: HeaderFetcher, sq: HeaderFetcher, a: BlockMeta, b: BlockMeta,
                              counted: nat, limit: nat, uncached: bool, result: SearchResult)
    requires Known(t, a) && Known(t, b)
  {
    && (result.Found? ==>
          && HighestCommon(t, result.fork, a, b)
          && counted + Max(a.height, b.height) - result.fork.height <= limit
          && (uncached ==> Findable(t, sf, sq, a, b, counted, limit, result.fork)))
    && (!result.Found? ==> forall r :: !Findable(t, sf, sq, a, b, counted, limit, r))
    && (result.TooDeep? ==> result.steps == limit + 1)
    && (result.NoCommonAncestor? ==> forall r :: !HighestCommon(t, r, a, b))
  }

  lemma HighestCommonIsUnique(t: Tree, r: BlockRef, r': BlockRef, a: BlockMeta, b: BlockMeta)
    requires Known(t, a) && Known(t, b)
    requires HighestCommon(t, r, a, b) && HighestCommon(t, r', a, b)
    ensures r == r'
  {
    assert t[r.hash] == AncestorAt(t, a, r.height) && t[r'.hash] == AncestorAt(t, a, r'.height);
  }

  /** Two chains that meet at a height, and not one higher, share nothing higher still. */
  lemma MeetingIsHighest(t: Tree, a: BlockMeta, b: BlockMeta, height: nat)
    requires Known(t, a) && Known(t, b) && height <= a.height && height <= b.height
    requires AncestorAt(t, a, height) == AncestorAt(t, b, height)
    requires height < a.height && height < b.height ==>
               AncestorAt(t, a, height + 1) != AncestorAt(t, b, height + 1)
    ensures HighestCommon(t, AncestorAt(t, a, height).Ref(), a, b)
  {
    forall c | Known(t, c) && Ancestor(t, c, a) && Ancestor(t, c, b) ensures c.height <= height {
      if c.height > height {
        SharedBelow(t, a, b, c.height, height + 1);
        assert false;
      }
    }
  }

  lemma StepBack(t: Tree, tip: BlockMeta, a: BlockMeta)
    requires Known(t, tip) && Known(t, a) && Ancestor(t, a, tip) && a.height > 0
    ensures a.prevHash in t && Ancestor(t, t[a.prevHash], tip) && t[a.prevHash].height == a.height - 1
  {
    AncestorAtTwice(t, tip, a.height, a.height - 1);
  }

  method FetchHeader(fetch: HeaderFetcher, cache: HeaderCache?, branch: Branch, h: Hash, ghost t: Tree)
    returns (meta: Option<BlockMeta>, fault: SearchResult)
    requires Honest(t, fetch)
    requires CacheReady(cache, t)
    modifies CacheRepr(cache)
    ensures CacheReady(cache, t) && fresh(CacheRepr(cache) - old(CacheRepr(cache)))
    ensures meta.Some? ==> h in t && meta.value == t[h]
    ensures fetch.Fetch(h).Got? ==> meta.Some?
    ensures cache == null && meta.Some? ==> fetch.Fetch(h).Got?
    ensures meta.None? ==> fault == if fetch.Fetch(h).NotFound? then Pruned(h) else Failed(h)
  {
    meta, fault := None, Failed(h);
    if cache != null {
      var found, cached := cache.Get(branch, h);
      if found {
        return Some(cached), fault;
      }
    }
    match fetch.Fetch(h)
    case Got(m) =>
      if cache != null {
        cache.Put(branch, m);
      }
      return Some(m), fault;
    case NotFound =>
      return None, Pruned(h);
    case Fault =>
      return None, Failed(h);
  }

  /** However a search ends, it has counted at most one step past the limit, and that one only to give up. */
  predicate Counted(steps: nat, limit: nat, result: SearchResult) {
    steps <= limit + 1 && (result.TooDeep? <==> steps == limit + 1) && (result.TooDeep? ==> result.steps == steps)
  }

  /** Brings the taller side down to the other's height, one header and one counted step at a time. */
  method BringDown(fetch: HeaderFetcher, cache: HeaderCache?, branch: Branch, tip: BlockMeta, height: nat,
                   limit: nat, ghost t: Tree)
    returns (r: Option<BlockMeta>, steps: nat, fault: SearchResult)
    requires Honest(t, fetch) && Known(t, tip) && height <= tip.height
    requires CacheReady(cache, t)
    modifies CacheRepr(cache)
    ensures CacheReady(cache, t) && fresh(CacheRepr(cache) - old(CacheRepr(cache)))
    ensures r.Some? ==> r.value == AncestorAt(t, tip, height) && steps == tip.height - height <= limit
    ensures Obtainable(t, fetch, tip, height) && tip.height - height <= limit ==> r.Some?
    ensures cache == null && r.Some? ==> Obtainable(t, fetch, tip, height)
    ensures r.None? ==> !fault.Found? && !fault.NoCommonAncestor?
    ensures r.None? && fault.TooDeep? ==> fault.steps == limit + 1
    ensures r.None? ==> Counted(steps, limit, fault)
  {
    var a := tip;
    steps, fault := 0, NoCommonAncestor;
    while a.height > height
      invariant Known(t, a) && Ancestor(t, a, tip) && a.height >= height
      invariant steps == tip.height - a.height <= limit
      invariant cache == null ==> Obtainable(t, fetch, tip, a.height)
      invariant CacheReady(cache, t) && fresh(CacheRepr(cache) - old(CacheRepr(cache)))
      decreases a.height
    {
      StepBack(t, tip, a);
      assert AncestorAt(t, tip, a.height - 1).hash == a.prevHash;
      var next;
      next, fault := FetchHeader(fetch, cache, branch, a.prevHash, t);
      if next.None? {
        return None, steps, fault;
      }
      a := next.value;
      steps := steps + 1;
      if steps > limit {
        return None, steps, TooDeep(steps);
      }
    }
    return Some(a), steps, fault;
  }

  /** The parents of both blocks, own chain first; none if either header cannot be had. */
  method FetchParents(sf: HeaderFetcher, sq: HeaderFetcher, a: BlockMeta, b: BlockMeta,
                      cache: HeaderCache?, ghost t: Tree)
    returns (parents: Option<(BlockMeta, BlockMeta)>, fault: SearchResult)
    requires Honest(t, sf) && Honest(t, sq)
    requires CacheReady(cache, t)
    modifies CacheRepr(cache)
    ensures CacheReady(cache, t) && fresh(CacheRepr(cache) - old(CacheRepr(cache)))
    ensures parents.Some? ==>
              && a.prevHash in t && b.prevHash in t
              && parents.value == (t[a.prevHash], t[b.prevHash])
    ensures sf.Fetch(a.prevHash).Got? && sq.Fetch(b.prevHash).Got? ==> parents.Some?
    ensures cache == null && parents.Some? ==> sf.Fetch(a.prevHash).Got? && sq.Fetch(b.prevHash).Got?
    ensures parents.None? ==> fault.Pruned? || fault.Failed?
  {
    var own, other;
    own, fault := FetchHeader(sf, cache, SF, a.prevHash, t);
    if own.None? {
      return None, fault;
    }
    other, fault := FetchHeader(sq, cache, SQ, b.prevHash, t);
    if other.None? {
      return None, fault;
    }
    return Some((own.value, other.value)), fault;
  }

  /** Both sides stand at one height, having differed at every height above it. */
  ghost predicate Walked(t: Tree, sfFrom: BlockMeta, sqFrom: BlockMeta, a: BlockMeta, b: BlockMeta)
    requires Known(t, sfFrom) && Known(t, sqFrom)
  {
    && Known(t, a) && Known(t, b) && Ancestor(t, a, sfFrom) && Ancestor(t, b, sqFrom)
    && a.height == b.height
    && (a.height < sfFrom.height && b.height < sqFrom.height ==>
          AncestorAt(t, sfFrom, a.height + 1) != AncestorAt(t, sqFrom, a.height + 1))
  }

  lemma OneMoreObtainable(t: Tree, fetch: HeaderFetcher, tip: BlockMeta, a: BlockMeta)
    requires Known(t, tip) && Known(t, a) && Ancestor(t, a, tip) && a.height > 0
    ensures Obtainable(t, fetch, tip, a.height - 1) <==>
            Obtainable(t, fetch, tip, a.height) && fetch.Fetch(a.prevHash).Got?
  {
    StepBack(t, tip, a);
    assert AncestorAt(t, tip, a.height - 1).hash == a.prevHash;
  }

  /** Where the two sides still differ, the common ancestor lies below, and one more step keeps the walk going. */
  lemma WalkStep(t: Tree, sf: HeaderFetcher, sq: HeaderFetcher, sfFrom: BlockMeta, sqFrom: BlockMeta,
                 a: BlockMeta, b: BlockMeta)
    requires Known(t, sfFrom) && Known(t, sqFrom) && Walked(t, sfFrom, sqFrom, a, b) && a.hash != b.hash
    ensures forall r :: HighestCommon(t, r, sfFrom, sqFrom) ==> r.height < a.height
    ensures a.height > 0 ==>
              && a.prevHash in t && b.prevHash in t
              && Walked(t, sfFrom, sqFrom, t[a.prevHash], t[b.prevHash])
              && t[a.prevHash].height == a.height - 1
              && (Obtainable(t, sf, sfFrom, a.height - 1) <==>
                  Obtainable(t, sf, sfFrom, a.height) && sf.Fetch(a.prevHash).Got?)
              && (Obtainable(t, sq, sqFrom, a.height - 1) <==>
                  Obtainable(t, sq, sqFrom, a.height) && sq.Fetch(b.prevHash).Got?)
  {
    forall r | HighestCommon(t, r, sfFrom, sqFrom) ensures r.height < a.height {
      AgreeExactlyBelow(t, r, sfFrom, sqFrom, a.height);
    }
    if a.height > 0 {
      StepBack(t, sfFrom, a);
      StepBack(t, sqFrom, b);
      OneMoreObtainable(t, sf, sfFrom, a);
      OneMoreObtainable(t, sq, sqFrom, b);
    }
  }

  lemma ObtainableFrom(t: Tree, fetch: HeaderFetcher, b: BlockMeta, low: int, high: int)
    requires Known(t, b) && Obtainable(t, fetch, b, low) && low <= high
    ensures Obtainable(t, fetch, b, high)
  {}

  /** While the two sides differ, whatever is findable takes another step, and its headers can be had. */
  lemma StepIsNeeded(t: Tree, sf: HeaderFetcher, sq: HeaderFetcher, sfFrom: BlockMeta, sqFrom: BlockMeta,
                     counted: nat, limit: nat, a: BlockMeta, b: BlockMeta)
    requires Known(t, sfFrom) && Known(t, sqFrom) && Walked(t, sfFrom, sqFrom, a, b)
    requires sfFrom.height == sqFrom.height && a.hash != b.hash && a.height > 0
    ensures forall r :: Findable(t, sf, sq, sfFrom, sqFrom, counted, limit, r) ==>
              && sf.Fetch(a.prevHash).Got? && sq.Fetch(b.prevHash).Got?
              && counted + sfFrom.height - a.height + 1 <= limit
  {
    WalkStep(t, sf, sq, sfFrom, sqFrom, a, b);
    forall r | Findable(t, sf, sq, sfFrom, sqFrom, counted, limit, r)
      ensures sf.Fetch(a.prevHash).Got? && sq.Fetch(b.prevHash).Got?
      ensures counted + sfFrom.height - a.height + 1 <= limit
    {
      ObtainableFrom(t, sf, sfFrom, r.height, a.height - 1);
      ObtainableFrom(t, sq, sqFrom, r.height, a.height - 1);
    }
  }

  /** Steps both sides back together from one height until they meet. */
  method WalkTogether(sf: HeaderFetcher, sq: HeaderFetcher, sfFrom: BlockMeta, sqFrom: BlockMeta,
                      counted: nat, limit: nat, cache: HeaderCache?, ghost t: Tree)
    returns (result: SearchResult, steps: nat)
    requires Honest(t, sf) && Honest(t, sq) && Known(t, sfFrom) && Known(t, sqFrom)
    requires sfFrom.height == sqFrom.height && counted <= limit
    requires CacheReady(cache, t)
    modifies CacheRepr(cache)
    ensures CacheReady(cache, t) && fresh(CacheRepr(cache) - old(CacheRepr(cache)))
    ensures ExactAnswer(t, sf, sq, sfFrom, sqFrom, counted, limit, cache == null, result)
    ensures Counted(steps, limit, result)
    ensures result.Found? ==> steps == counted + sfFrom.height - result.fork.height
  {
    var a, b := sfFrom, sqFrom;
    steps := counted;
    while a.hash != b.hash
      invariant Walked(t, sfFrom, sqFrom, a, b)
      invariant steps == counted + sfFrom.height - a.height <= limit
      invariant cache == null ==> Obtainable(t, sf, sfFrom, a.height) && Obtainable(t, sq, sqFrom, a.height)
      invariant CacheReady(cache, t) && fresh(CacheRepr(cache) - old(CacheRepr(cache)))
      decreases a.height
    {
      WalkStep(t, sf, sq, sfFrom, sqFrom, a, b);
      if a.height == 0 || b.height == 0 {
        return NoCommonAncestor, steps;
      }
      StepIsNeeded(t, sf, sq, sfFrom, sqFrom, counted, limit, a, b);
      var parents, fault := FetchParents(sf, sq, a, b, cache, t);
      if parents.None? {
        return fault, steps;
      }
      a, b := parents.value.0, parents.value.1;
      steps := steps + 1;
      if steps > limit {
        return TooDeep(steps), steps;
      }
    }
    MeetingIsHighest(t, sfFrom, sqFrom, a.height);
    return Found(BlockRef(a.hash, a.height)), steps;
  }

  /** Walking the taller side down changes neither what the chains share nor what is left to fetch. */
  lemma LevelKeepsMeeting(t: Tree, a: BlockMeta, b: BlockMeta, r: BlockRef)
    requires Known(t, a) && Known(t, b) && b.height <= a.height
    ensures HighestCommon(t, r, AncestorAt(t, a, b.height), b) <==> HighestCommon(t, r, a, b)
    ensures HighestCommon(t, r, b, AncestorAt(t, a, b.height)) <==> HighestCommon(t, r, b, a)
  {
    var low := AncestorAt(t, a, b.height);
    forall c | Known(t, c) && c.height <= b.height ensures Ancestor(t, c, low) <==> Ancestor(t, c, a) {
      AncestorAtTwice(t, a, b.height, c.height);
    }
  }

  lemma LevelKeepsHeaders(t: Tree, fetch: HeaderFetcher, a: BlockMeta, mid: nat, low: int)
    requires Known(t, a) && 0 <= low <= mid <= a.height
    ensures Obtainable(t, fetch, a, low) <==>
            Obtainable(t, fetch, a, mid) && Obtainable(t, fetch, AncestorAt(t, a, mid), low)
  {
    forall h: nat | low <= h < mid
      ensures AncestorAt(t, AncestorAt(t, a, mid), h) == AncestorAt(t, a, h)
    {
      AncestorAtTwice(t, a, mid, h);
    }
  }

  /** Levelling the user's chain first: the same answers are left to find, and nothing else. */
  lemma LevelSF(t: Tree, sf: HeaderFetcher, sq: HeaderFetcher, sfTip: BlockMeta, sqTip: BlockMeta, limit: nat, r: BlockRef)
    requires Known(t, sfTip) && Known(t, sqTip) && sqTip.height <= sfTip.height
    ensures var low := AncestorAt(t, sfTip, sqTip.height);
            && (HighestCommon(t, r, low, sqTip) <==> HighestCommon(t, r, sfTip, sqTip))
            && (Findable(t, sf, sq, sfTip, sqTip, 0, limit, r) <==>
                  Findable(t, sf, sq, low, sqTip, sfTip.height - sqTip.height, limit, r)
                  && Obtainable(t, sf, sfTip, sqTip.height))
    ensures Findable(t, sf, sq, sfTip, sqTip, 0, limit, r) ==> sfTip.height - sqTip.height <= limit
  {
    LevelKeepsMeeting(t, sfTip, sqTip, r);
    if HighestCommon(t, r, sfTip, sqTip) {
      LevelKeepsHeaders(t, sf, sfTip, sqTip.height, r.height);
    }
  }

  /** The same for the other chain. */
  lemma LevelSQ(t: Tree, sf: HeaderFetcher, sq: HeaderFetcher, sfTip: BlockMeta, sqTip: BlockMeta, limit: nat, r: BlockRef)
    requires Known(t, sfTip) && Known(t, sqTip) && sfTip.height <= sqTip.height
    ensures var low := AncestorAt(t, sqTip, sfTip.height);
            && (HighestCommon(t, r, sfTip, low) <==> HighestCommon(t, r, sfTip, sqTip))
            && (Findable(t, sf, sq, sfTip, sqTip, 0, limit, r) <==>
                  Findable(t, sf, sq, sfTip, low, sqTip.height - sfTip.height, limit, r)
                  && Obtainable(t, sq, sqTip, sfTip.height))
    ensures Findable(t, sf, sq, sfTip, sqTip, 0, limit, r) ==> sqTip.height - sfTip.height <= limit
  {
    LevelKeepsMeeting(t, sqTip, sfTip, r);
    if HighestCommon(t, r, sfTip, sqTip) {
      LevelKeepsHeaders(t, sq, sqTip, sfTip.height, r.height);
    }
  }

  lemma LevelSFAnswers(t: Tree, sf: HeaderFetcher, sq: HeaderFetcher, sfTip: BlockMeta, sqTip: BlockMeta,
                       low: BlockMeta, counted: nat, limit: nat, uncached: bool, result: SearchResult)
    requires Known(t, sfTip) && Known(t, sqTip) && sqTip.height <= sfTip.height
    requires low == AncestorAt(t, sfTip, sqTip.height) && counted == sfTip.height - sqTip.height
    requires uncached ==> Obtainable(t, sf, sfTip, sqTip.height)
    requires ExactAnswer(t, sf, sq, low, sqTip, counted, limit, uncached, result)
    ensures ExactAnswer(t, sf, sq, sfTip, sqTip, 0, limit, uncached, result)
  {
    forall r: BlockRef
      ensures HighestCommon(t, r, low, sqTip) <==> HighestCommon(t, r, sfTip, sqTip)
      ensures Findable(t, sf, sq, sfTip, sqTip, 0, limit, r) ==>
                Findable(t, sf, sq, low, sqTip, counted, limit, r)
    {
      LevelSF(t, sf, sq, sfTip, sqTip, limit, r);
    }
    if result.Found? {
      LevelSF(t, sf, sq, sfTip, sqTip, limit, result.fork);
    }
  }

  lemma LevelSFFails(t: Tree, sf: HeaderFetcher, sq: HeaderFetcher, sfTip: BlockMeta, sqTip: BlockMeta,
                     limit: nat, uncached: bool, fault: SearchResult)
    requires Known(t, sfTip) && Known(t, sqTip) && sqTip.height <= sfTip.height
    requires !fault.Found? && !fault.NoCommonAncestor? && (fault.TooDeep? ==> fault.steps == limit + 1)
    requires !(Obtainable(t, sf, sfTip, sqTip.height) && sfTip.height - sqTip.height <= limit)
    ensures ExactAnswer(t, sf, sq, sfTip, sqTip, 0, limit, uncached, fault)
  {
    forall r: BlockRef ensures !Findable(t, sf, sq, sfTip, sqTip, 0, limit, r) {
      LevelSF(t, sf, sq, sfTip, sqTip, limit, r);
    }
  }

  lemma LevelSQAnswers(t: Tree, sf: HeaderFetcher, sq: HeaderFetcher, sfTip: BlockMeta, sqTip: BlockMeta,
                       low: BlockMeta, counted: nat, limit: nat, uncached: bool, result: SearchResult)
    requires Known(t, sfTip) && Known(t, sqTip) && sfTip.height <= sqTip.height
    requires low == AncestorAt(t, sqTip, sfTip.height) && counted == sqTip.height - sfTip.height
    requires uncached ==> Obtainable(t, sq, sqTip, sfTip.height)
    requires ExactAnswer(t, sf, sq, sfTip, low, counted, limit, uncached, result)
    ensures ExactAnswer(t, sf, sq, sfTip, sqTip, 0, limit, uncached, result)
  {
    forall r: BlockRef
      ensures HighestCommon(t, r, sfTip, low) <==> HighestCommon(t, r, sfTip, sqTip)
      ensures Findable(t, sf, sq, sfTip, sqTip, 0, limit, r) ==>
                Findable(t, sf, sq, sfTip, low, counted, limit, r)
    {
      LevelSQ(t, sf, sq, sfTip, sqTip, limit, r);
    }
    if result.Found? {
      LevelSQ(t, sf, sq, sfTip, sqTip, limit, result.fork);
    }
  }

  lemma LevelSQFails(t: Tree, sf: HeaderFetcher, sq: HeaderFetcher, sfTip: BlockMeta, sqTip: BlockMeta,
                     limit: nat, uncached: bool, fault: SearchResult)
    requires Known(t, sfTip) && Known(t, sqTip) && sfTip.height <= sqTip.height
    requires !fault.Found? && !fault.NoCommonAncestor? && (fault.TooDeep? ==> fault.steps == limit + 1)
    requires !(Obtainable(t, sq, sqTip, sfTip.height) && sqTip.height - sfTip.height <= limit)
    ensures ExactAnswer(t, sf, sq, sfTip, sqTip, 0, limit, uncached, fault)
  {
    forall r: BlockRef ensures !Findable(t, sf, sq, sfTip, sqTip, 0, limit, r) {
      LevelSQ(t, sf, sq, sfTip, sqTip, limit, r);
    }
  }

  /** The search when the user's chain is the taller. */
  method FromTallerSF(sf: HeaderFetcher, sq: HeaderFetcher, sfTip: BlockMeta, sqTip: BlockMeta,
                limit: nat, cache: HeaderCache?, ghost t: Tree)
    returns (result: SearchResult, steps: nat)
    requires Honest(t, sf) && Honest(t, sq) && Known(t, sfTip) && Known(t, sqTip) && sqTip.height <= sfTip.height
    requires CacheReady(cache, t)
    modifies CacheRepr(cache)
    ensures CacheReady(cache, t) && fresh(CacheRepr(cache) - old(CacheRepr(cache)))
    ensures ExactAnswer(t, sf, sq, sfTip, sqTip, 0, limit, cache == null, result)
    ensures Counted(steps, limit, result)
    ensures result.Found? ==> steps == Max(sfTip.height, sqTip.height) - result.fork.height
  {
    var level, counted, fault := BringDown(sf, cache, SF, sfTip, sqTip.height, limit, t);
    if level.None? {
      LevelSFFails(t, sf, sq, sfTip, sqTip, limit, cache == null, fault);
      return fault, counted;
    }
    result, steps := WalkTogether(sf, sq, level.value, sqTip, counted, limit, cache, t);
    LevelSFAnswers(t, sf, sq, sfTip, sqTip, level.value, counted, limit, cache == null, result);
  }

  /** The search when the other chain is at least as tall. */
  method FromTallerSQ(sf: HeaderFetcher, sq: HeaderFetcher, sfTip: BlockMeta, sqTip: BlockMeta,
                limit: nat, cache: HeaderCache?, ghost t: Tree)
    returns (result: SearchResult, steps: nat)
    requires Honest(t, sf) && Honest(t, sq) && Known(t, sfTip) && Known(t, sqTip) && sfTip.height <= sqTip.height
    requires CacheReady(cache, t)
    modifies CacheRepr(cache)
    ensures CacheReady(cache, t) && fresh(CacheRepr(cache) - old(CacheRepr(cache)))
    ensures ExactAnswer(t, sf, sq, sfTip, sqTip, 0, limit, cache == null, result)
    ensures Counted(steps, limit, result)
    ensures result.Found? ==> steps == Max(sfTip.height, sqTip.height) - result.fork.height
  {
    var level, counted, fault := BringDown(sq, cache, SQ, sqTip, sfTip.height, limit, t);
    if level.None? {
      LevelSQFails(t, sf, sq, sfTip, sqTip, limit, cache == null, fault);
      return fault, counted;
    }
    result, steps := WalkTogether(sf, sq, sfTip, level.value, counted, limit, cache, t);
    LevelSQAnswers(t, sf, sq, sfTip, sqTip, level.value, counted, limit, cache == null, result);
  }

  /**
    The search is exact. What it finds is the highest common ancestor; without a cache it
    finds it exactly when one exists, no deeper than the limit, with every header on both
    paths obtainable; a coherent cache can only add answers, never change one. However it
    ends, it has counted at most one step past the limit.
   */
  method FindForkPoint(sf: HeaderFetcher, sq: HeaderFetcher, sfTip: BlockMeta, sqTip: BlockMeta,
                       maxWalk: int, cache: HeaderCache?, ghost t: Tree)
    returns (result: SearchResult, ghost steps: nat)
    requires Honest(t, sf) && Honest(t, sq) && Known(t, sfTip) && Known(t, sqTip)
    requires CacheReady(cache, t)
    modifies CacheRepr(cache)
    ensures CacheReady(cache, t) && fresh(CacheRepr(cache) - old(CacheRepr(cache)))
    ensures ExactAnswer(t, sf, sq, sfTip, sqTip, 0, if maxWalk <= 0 then 20000 else maxWalk, cache == null, result)
    ensures Counted(steps, if maxWalk <= 0 then 20000 else maxWalk, result)
    ensures result.Found? ==> steps == Max(sfTip.height, sqTip.height) - result.fork.height
  {
    if sfTip.height > sqTip.height {
      result, steps := FromTallerSF(sf, sq, sfTip, sqTip, WalkLimit(maxWalk), cache, t);
    } else {
      result, steps := FromTallerSQ(sf, sq, sfTip, sqTip, WalkLimit(maxWalk), cache, t);
    }
  }

  /** Whatever a coherent cache holds, the answer is the uncached one wherever there is one. */
  lemma CacheNeverChangesTheAnswer(t: Tree, sf: HeaderFetcher, sq: HeaderFetcher, sfTip: BlockMeta, sqTip: BlockMeta,
                                   limit: nat, cached: SearchResult, uncached: SearchResult)
    requires Known(t, sfTip) && Known(t, sqTip)
    requires ExactAnswer(t, sf, sq, sfTip, sqTip, 0, limit, false, cached)
    requires ExactAnswer(t, sf, sq, sfTip, sqTip, 0, limit, true, uncached)
    ensures uncached.Found? ==> cached == uncached
    ensures uncached.Found? <==> exists r :: Findable(t, sf, sq, sfTip, sqTip, 0, limit, r)
  {
    if uncached.Found? {
      HighestCommonIsUnique(t, cached.fork, uncached.fork, sfTip, sqTip);
    }
  }
}
