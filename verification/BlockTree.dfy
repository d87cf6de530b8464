/**
  The blocks every observation is drawn from: one finite tree of headers, shared by both
  chains. Equal hashes mean equal history, because a hash determines its header and a
  header names its parent.
 */
module BlockTree {
  /** A block hash. Only equality matters. */
  type Hash = int

  datatype BlockRef = BlockRef(hash: Hash, height: int)

  datatype BlockMeta = BlockMeta(hash: Hash, height: int, prevHash: Hash, time: int) {
    function Ref(): BlockRef {
      BlockRef(hash, height)
    }
  }

  /** Headers by hash; every block above height zero has its parent in the tree. */
  ghost predicate WellFounded(t: map<Hash, BlockMeta>) {
    forall h :: h in t ==>
      && t[h].hash == h
      && t[h].height >= 0
      && (t[h].height > 0 ==> t[h].prevHash in t && t[t[h].prevHash].height == t[h].height - 1)
  }

  type Tree = t: map<Hash, BlockMeta> | WellFounded(t) witness map[]

  ghost predicate Known(t: Tree, b: BlockMeta) {
    b.hash in t && t[b.hash] == b
  }

  /** The block reached by walking back from b to the given height. */
  ghost function AncestorAt(t: Tree, b: BlockMeta, height: nat): (r: BlockMeta)
    requires Known(t, b) && height <= b.height
    ensures Known(t, r) && r.height == height
    decreases b.height
  {
    if b.height == height then b else AncestorAt(t, t[b.prevHash], height)
  }

  /** a is b, or b was built on top of a. */
  ghost predicate Ancestor(t: Tree, a: BlockMeta, b: BlockMeta)
    requires Known(t, a) && Known(t, b)
  {
    a.height <= b.height && AncestorAt(t, b, a.height) == a
  }

  /** Each block has history the other does not share. */
  ghost predicate Diverged(t: Tree, a: BlockMeta, b: BlockMeta)
    requires Known(t, a) && Known(t, b)
  {
    !Ancestor(t, a, b) && !Ancestor(t, b, a)
  }

  /** r is a block both a and b build on, and no higher one is. */
  ghost predicate HighestCommon(t: Tree, r: BlockRef, a: BlockMeta, b: BlockMeta)
    requires Known(t, a) && Known(t, b)
  {
    && r.hash in t
    && t[r.hash].height == r.height
    && Ancestor(t, t[r.hash], a)
    && Ancestor(t, t[r.hash], b)
    && forall c :: Known(t, c) && Ancestor(t, c, a) && Ancestor(t, c, b) ==> c.height <= r.height
  }

  lemma {:induction false} AncestorAtTwice(t: Tree, b: BlockMeta, mid: nat, low: nat)
    requires Known(t, b) && low <= mid <= b.height
    ensures AncestorAt(t, AncestorAt(t, b, mid), low) == AncestorAt(t, b, low)
    decreases b.height
  {
    if mid < b.height {
      AncestorAtTwice(t, t[b.prevHash], mid, low);
    }
  }

  /** History is shared downwards: where two chains meet, they stay met below. */
  lemma SharedBelow(t: Tree, a: BlockMeta, b: BlockMeta, mid: nat, low: nat)
    requires Known(t, a) && Known(t, b) && low <= mid <= a.height && mid <= b.height
    requires AncestorAt(t, a, mid) == AncestorAt(t, b, mid)
    ensures AncestorAt(t, a, low) == AncestorAt(t, b, low)
  {
    AncestorAtTwice(t, a, mid, low);
    AncestorAtTwice(t, b, mid, low);
  }

  /** Both blocks stand above their highest common ancestor exactly when they diverged. */
  lemma BothAboveIffDiverged(t: Tree, r: BlockRef, a: BlockMeta, b: BlockMeta)
    requires Known(t, a) && Known(t, b) && HighestCommon(t, r, a, b)
    ensures a.height > r.height && b.height > r.height <==> Diverged(t, a, b)
  {
    if a.height == r.height {
      assert t[r.hash] == AncestorAt(t, a, a.height) == a;
    }
    if b.height == r.height {
      assert t[r.hash] == AncestorAt(t, b, b.height) == b;
    }
    assert Ancestor(t, a, a) && Ancestor(t, b, b);
  }

  /** At every height both reach, two chains agree up to their last common block and never above it. */
  lemma AgreeExactlyBelow(t: Tree, r: BlockRef, a: BlockMeta, b: BlockMeta, height: nat)
    requires Known(t, a) && Known(t, b) && HighestCommon(t, r, a, b)
    requires height <= a.height && height <= b.height
    ensures AncestorAt(t, a, height) == AncestorAt(t, b, height) <==> height <= r.height
  {
    if height <= r.height {
      SharedBelow(t, a, b, r.height, height);
    } else {
      var c := AncestorAt(t, a, height);
      assert Ancestor(t, c, a);
      assert Ancestor(t, c, b) <==> AncestorAt(t, b, height) == c;
    }
  }
}
